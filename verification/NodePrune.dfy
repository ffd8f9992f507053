/** Removal of disabled nodes: an input and an output link of each are fused into a new link, and a table
    forwards the old indices to it. */
module NodePrune {
  import opened Collections
  import opened Links
  import opened Contraction

  /** A customized bypass: the path from an input port to an output port of an instance. */
  datatype ThroughPath = ThroughPath(inputPort: int, outputPort: int)
  datatype Bypass = Bypass(instance: string, paths: seq<ThroughPath>)

  // ---------------------------------------------------------------- which links are joined

  /** The first link into a port, the first link out of one. */
  predicate InputAt(raw: seq<Link>, n: string, port: int, i: int) {
    && 0 <= i < |raw| && raw[i].dst == n && raw[i].dstPort == port
    && forall k :: 0 <= k < i ==> !(raw[k].dst == n && raw[k].dstPort == port)
  }

  predicate OutputAt(raw: seq<Link>, n: string, port: int, i: int) {
    && 0 <= i < |raw| && raw[i].src == n && raw[i].srcPort == port
    && forall k :: 0 <= k < i ==> !(raw[k].src == n && raw[k].srcPort == port)
  }

  /** The link at the lowest input port of an instance, and at its lowest output port. */
  predicate LowestInput(raw: seq<Link>, n: string, i: int) {
    && 0 <= i < |raw| && InputAt(raw, n, raw[i].dstPort, i)
    && forall k :: 0 <= k < |raw| && raw[k].dst == n ==> raw[i].dstPort <= raw[k].dstPort
  }

  predicate LowestOutput(raw: seq<Link>, n: string, i: int) {
    && 0 <= i < |raw| && OutputAt(raw, n, raw[i].srcPort, i)
    && forall k :: 0 <= k < |raw| && raw[k].src == n ==> raw[i].srcPort <= raw[k].srcPort
  }

  ghost predicate Requests(raw: seq<Link>, disabled: seq<string>, bypasses: seq<Bypass>, a: int, b: int) {
    || (exists n :: n in disabled && LowestInput(raw, n, a) && LowestOutput(raw, n, b))
    || (exists y :: y in bypasses && Asks(raw, y, a, b))
  }

  /** By one of its through paths. */
  ghost predicate Asks(raw: seq<Link>, y: Bypass, a: int, b: int) {
    exists p :: p in y.paths && InputAt(raw, y.instance, p.inputPort, a) && OutputAt(raw, y.instance, p.outputPort, b)
  }

  ghost function RequestedJoins(raw: seq<Link>, disabled: seq<string>, bypasses: seq<Bypass>): Joins {
    set a, b | 0 <= a < |raw| && 0 <= b < |raw| && Requests(raw, disabled, bypasses, a, b) :: (a, b)
  }

  /** Which links are asked to join: of a disabled instance the first link into its lowest input port and the first out
      of its lowest output port, and of a customized one the first links at the two ports of each through path. */
  lemma JoinsAsked(raw: seq<Link>, disabled: seq<string>, bypasses: seq<Bypass>, a: int, b: int)
    requires 0 <= a < |raw| && 0 <= b < |raw|
    ensures (a, b) in RequestedJoins(raw, disabled, bypasses) <==>
            raw[a].dst == raw[b].src
            && ((raw[a].dst in disabled
                 && (forall i :: 0 <= i < |raw| && raw[i].dst == raw[a].dst ==>
                                   raw[a].dstPort < raw[i].dstPort || (raw[a].dstPort == raw[i].dstPort && a <= i))
                 && (forall i :: 0 <= i < |raw| && raw[i].src == raw[b].src ==>
                                   raw[b].srcPort < raw[i].srcPort || (raw[b].srcPort == raw[i].srcPort && b <= i)))
                || ((exists y :: y in bypasses && y.instance == raw[a].dst
                                 && ThroughPath(raw[a].dstPort, raw[b].srcPort) in y.paths)
                    && (forall i :: 0 <= i < a ==> raw[i].dst != raw[a].dst || raw[i].dstPort != raw[a].dstPort)
                    && (forall i :: 0 <= i < b ==> raw[i].src != raw[b].src || raw[i].srcPort != raw[b].srcPort)))
  {
    LowestMeans(raw, raw[a].dst, a, b);
    forall y | y in bypasses
      ensures Asks(raw, y, a, b) <==>
              && y.instance == raw[a].dst == raw[b].src && ThroughPath(raw[a].dstPort, raw[b].srcPort) in y.paths
              && InputAt(raw, raw[a].dst, raw[a].dstPort, a) && OutputAt(raw, raw[b].src, raw[b].srcPort, b)
    {
      AsksMeans(raw, y, a, b);
    }
    assert forall n :: LowestInput(raw, n, a) ==> n == raw[a].dst;
    assert forall n :: LowestOutput(raw, n, b) ==> n == raw[b].src;
    hide Asks;
    hide LowestInput;
    hide LowestOutput;
  }

  lemma AsksMeans(raw: seq<Link>, y: Bypass, a: int, b: int)
    requires 0 <= a < |raw| && 0 <= b < |raw|
    ensures Asks(raw, y, a, b) <==>
            && y.instance == raw[a].dst == raw[b].src && ThroughPath(raw[a].dstPort, raw[b].srcPort) in y.paths
            && InputAt(raw, raw[a].dst, raw[a].dstPort, a) && OutputAt(raw, raw[b].src, raw[b].srcPort, b)
  {
    if p :| p in y.paths && InputAt(raw, y.instance, p.inputPort, a) && OutputAt(raw, y.instance, p.outputPort, b) {
      assert p == ThroughPath(raw[a].dstPort, raw[b].srcPort);
    }
  }

  lemma LowestMeans(raw: seq<Link>, n: string, a: int, b: int)
    requires 0 <= a < |raw| && 0 <= b < |raw|
    ensures LowestInput(raw, n, a) <==>
            raw[a].dst == n && forall i :: 0 <= i < |raw| && raw[i].dst == n ==>
                                 raw[a].dstPort < raw[i].dstPort || (raw[a].dstPort == raw[i].dstPort && a <= i)
    ensures LowestOutput(raw, n, b) <==>
            raw[b].src == n && forall i :: 0 <= i < |raw| && raw[i].src == n ==>
                                 raw[b].srcPort < raw[i].srcPort || (raw[b].srcPort == raw[i].srcPort && b <= i)
  {
  }

  // ---------------------------------------------------------------- the forwarding table

  predicate Rising(table: seq<int>) {
    forall i :: 0 <= i < |table| ==> i <= table[i] < |table|
  }

  function Root(table: seq<int>, i: nat): (r: int)
    requires Rising(table) && i < |table|
    ensures i <= r < |table| && table[r] == r
    decreases |table| - i
  {
    if table[i] == i then i else Root(table, table[i])
  }

  /** The chase of the forwarding table. */
  method GetRealLinkIndex(table: seq<int>, i: nat) returns (root: int)
    requires Rising(table) && i < |table|
    ensures root == Root(table, i)
  {
    var index: nat := i;
    root := table[index];
    while root != index
      invariant index < |table| && root == table[index] && Root(table, index) == Root(table, i)
      decreases |table| - index
    {
      index := root;
      root := table[index];
    }
  }

  function Forwarded(table: seq<int>, a: int, b: int): seq<int>
    requires 0 <= a < |table| && 0 <= b < |table|
  {
    (table + [|table|])[a := |table|][b := |table|]
  }

  lemma {:induction false} RootAfter(table: seq<int>, a: int, b: int, i: nat)
    requires Rising(table) && 0 <= a < |table| && 0 <= b < |table| && table[a] == a && table[b] == b
    requires i < |table|
    ensures Rising(Forwarded(table, a, b))
    ensures var r := Root(table, i);
            Root(Forwarded(table, a, b), i) == if r == a || r == b then |table| else r
    decreases |table| - i
  {
    var table' := Forwarded(table, a, b);
    if i == a || i == b {
      assert Root(table', |table|) == |table|;
    } else if table[i] != i {
      RootAfter(table, a, b, table[i]);
    }
  }

  /** Roots stand for maximal chains of the joins done so far, and carry their fused links. */
  ghost predicate PathsOk(raw: seq<Link>, done: Joins, links: seq<Link>, table: seq<int>, paths: map<int, seq<int>>) {
    |links| == |table| &&
    forall r :: r in paths ==> PathOk(raw, done, links, table, r, paths[r])
  }

  ghost predicate PathOk(raw: seq<Link>, done: Joins, links: seq<Link>, table: seq<int>, r: int, p: seq<int>)
    requires |links| == |table|
  {
    && 0 <= r < |table| && table[r] == r
    && Chain(raw, done, p) && Maximal(done, p) && links[r] == Span(raw, p)
  }

  /** The table leads every raw link to the one path it is on. */
  ghost predicate RootsOk(raw: seq<Link>, table: seq<int>, paths: map<int, seq<int>>) {
    && |raw| <= |table| && Rising(table)
    && (forall i :: 0 <= i < |raw| ==> Root(table, i) in paths && i in paths[Root(table, i)])
    && (forall r, i {:trigger i in paths[r]} :: r in paths && i in paths[r] ==> 0 <= i < |raw| && Root(table, i) == r)
  }

  ghost predicate Forest(raw: seq<Link>, done: Joins, links: seq<Link>, table: seq<int>, paths: map<int, seq<int>>) {
    && PathsOk(raw, done, links, table, paths)
    && RootsOk(raw, table, paths)
    && |paths| == |raw| - |done|
  }

  function Fused(input: Link, output: Link): Link {
    Link(input.srcPort, input.src, input.srcFormat, output.dstPort, output.dst, output.dstFormats, SourceLink)
  }

  lemma MoreJoins(raw: seq<Link>, done: Joins, more: Joins, p: seq<int>)
    requires Chain(raw, done, p) && done <= more
    ensures Chain(raw, more, p)
  {
  }

  lemma EndsRise(raw: seq<Link>, joins: Joins, p: seq<int>, rank: string -> int)
    requires Matching(raw, joins) && Ranked(raw, rank) && Chain(raw, joins, p)
    ensures rank(raw[p[0]].src) < rank(raw[p[|p| - 1]].dst)
  {
    if |p| > 1 {
      ChainRises(raw, joins, p, rank, 0, |p| - 1);
    }
  }

  lemma ChainPair(raw: seq<Link>, joins: Joins, p: seq<int>, k: nat)
    requires Chain(raw, joins, p) && 0 < k < |p|
    ensures (p[k - 1], p[k]) in joins
  {
  }

  lemma LastIfUnjoined(raw: seq<Link>, done: Joins, p: seq<int>, k: nat)
    requires Chain(raw, done, p) && k < |p| && forall j :: j in done ==> j.0 != p[k]
    ensures k == |p| - 1
  {
    if k < |p| - 1 { ChainPair(raw, done, p, k + 1); }
  }

  lemma FirstIfUnjoined(raw: seq<Link>, done: Joins, p: seq<int>, k: nat)
    requires Chain(raw, done, p) && k < |p| && forall j :: j in done ==> j.1 != p[k]
    ensures k == 0
  {
    if k > 0 { ChainPair(raw, done, p, k); }
  }

  /** The ends to be joined are ends of two different chains. */
  lemma EndsMeet(raw: seq<Link>, all: Joins, done: Joins, p: seq<int>, q: seq<int>, a: int, b: int, rank: string -> int)
    requires Matching(raw, all) && Ranked(raw, rank) && done <= all && (a, b) in all && (a, b) !in done
    requires Chain(raw, done, p) && a in p && Chain(raw, done, q) && b in q
    ensures p[|p| - 1] == a && q[0] == b && p != q
  {
    var k :| 0 <= k < |p| && p[k] == a;
    var l :| 0 <= l < |q| && q[l] == b;
    LastIfUnjoined(raw, done, p, k);
    FirstIfUnjoined(raw, done, q, l);
    if p == q {
      MoreJoins(raw, done, all, p);
      EndsRise(raw, all, p, rank);
    }
  }

  /** Two roots forwarded to a new one that stands for a path over both their links. */
  lemma RootsForwarded(raw: seq<Link>, table: seq<int>, paths: map<int, seq<int>>, ra: int, rb: int, np: seq<int>)
    requires RootsOk(raw, table, paths) && ra in paths && rb in paths
    requires 0 <= ra < |table| && table[ra] == ra && 0 <= rb < |table| && table[rb] == rb
    requires forall i :: i in np <==> i in paths[ra] || i in paths[rb]
    requires forall r :: r in paths ==> 0 <= r < |table|
    ensures RootsOk(raw, Forwarded(table, ra, rb), (paths - {ra, rb})[|table| := np])
  {
    var table' := Forwarded(table, ra, rb);
    var paths' := (paths - {ra, rb})[|table| := np];
    RootAfter(table, ra, rb, ra);
    forall i | 0 <= i < |raw|
      ensures Root(table', i) == if Root(table, i) == ra || Root(table, i) == rb then |table| else Root(table, i)
      ensures Root(table', i) in paths' && i in paths'[Root(table', i)]
    {
      RootAfter(table, ra, rb, i);
      assert Root(table, i) in paths;
    }
    forall r, i | r in paths' && i in paths'[r] ensures 0 <= i < |raw| && Root(table', i) == r {
      if r == |table| {
        assert i in np;
        var x := if i in paths[ra] then ra else rb;
        assert x in paths && i in paths[x];
        assert Root(table, i) == x;
      } else {
        assert r in paths && i in paths[r];
        assert Root(table, i) == r;
      }
    }
  }

  lemma PathsForwarded(raw: seq<Link>, done: Joins, more: Joins, links: seq<Link>, table: seq<int>,
                       paths: map<int, seq<int>>, ra: int, rb: int, np: seq<int>, link: Link)
    requires PathsOk(raw, done, links, table, paths) && ra in paths && rb in paths && done <= more
    requires Chain(raw, more, np) && Maximal(more, np) && link == Span(raw, np)
    requires forall r :: r in paths && r != ra && r != rb ==> Maximal(more, paths[r])
    ensures PathsOk(raw, more, links + [link], Forwarded(table, ra, rb), (paths - {ra, rb})[|table| := np])
  {
    var paths' := (paths - {ra, rb})[|table| := np];
    forall r | r in paths' ensures PathOk(raw, more, links + [link], Forwarded(table, ra, rb), r, paths'[r]) {
      if r != |table| {
        assert PathOk(raw, done, links, table, r, paths[r]);
        MoreJoins(raw, done, more, paths[r]);
      }
    }
  }

  /** The paths after joining at roots `ra` and `rb`, which coincide when the join was done before. */
  function JoinPaths(paths: map<int, seq<int>>, ra: int, rb: int, r: int): map<int, seq<int>>
    requires ra in paths && rb in paths
  {
    (paths - {ra, rb})[r := if ra == rb then paths[ra] else paths[ra] + paths[rb]]
  }

  lemma RootOnPath(raw: seq<Link>, done: Joins, links: seq<Link>, table: seq<int>, paths: map<int, seq<int>>, i: int)
    requires Forest(raw, done, links, table, paths) && 0 <= i < |raw|
    ensures Root(table, i) in paths
    ensures var r := Root(table, i); PathOk(raw, done, links, table, r, paths[r]) && i in paths[r]
  {
  }

  /** A join of two different chains. */
  lemma JoinForest(raw: seq<Link>, all: Joins, done: Joins, links: seq<Link>, table: seq<int>,
                   paths: map<int, seq<int>>, a: int, b: int, rank: string -> int)
    requires Matching(raw, all) && Ranked(raw, rank) && done <= all && (a, b) in all && (a, b) !in done
    requires Forest(raw, done, links, table, paths)
    ensures Root(table, a) in paths && Root(table, b) in paths
    ensures var ra, rb := Root(table, a), Root(table, b);
            Forest(raw, done + {(a, b)}, links + [Fused(links[ra], links[rb])], Forwarded(table, ra, rb),
                   JoinPaths(paths, ra, rb, |table|))
  {
    var ra, rb := Root(table, a), Root(table, b);
    RootOnPath(raw, done, links, table, paths, a);
    RootOnPath(raw, done, links, table, paths, b);
    EndsMeet(raw, all, done, paths[ra], paths[rb], a, b, rank);
    JoinEnds(raw, all, done, links, table, paths, a, b);
  }

  lemma JoinEnds(raw: seq<Link>, all: Joins, done: Joins, links: seq<Link>, table: seq<int>,
                 paths: map<int, seq<int>>, a: int, b: int)
    requires Matching(raw, all) && done <= all && (a, b) in all && (a, b) !in done
    requires Forest(raw, done, links, table, paths)
    requires var ra, rb := Root(table, a), Root(table, b);
             ra in paths && rb in paths && PathOk(raw, done, links, table, ra, paths[ra])
             && PathOk(raw, done, links, table, rb, paths[rb])
             && paths[ra][|paths[ra]| - 1] == a && paths[rb][0] == b && paths[ra] != paths[rb]
    ensures var ra, rb := Root(table, a), Root(table, b);
            Forest(raw, done + {(a, b)}, links + [Fused(links[ra], links[rb])], Forwarded(table, ra, rb),
                   JoinPaths(paths, ra, rb, |table|))
  {
    hide *;
    ForestParts(raw, done, links, table, paths);
    JoinInRange(raw, all, a, b);
    var ra, rb := Root(table, a), Root(table, b);
    var np, more := paths[ra] + paths[rb], done + {(a, b)};
    JoinApart(raw, done, links, table, paths, a, b);
    PathParts(raw, done, links, table, paths, ra);
    PathParts(raw, done, links, table, paths, rb);
    FusedSpan(raw, done, paths[ra], paths[rb], links[ra], links[rb]);
    var link := Fused(links[ra], links[rb]);
    RootsForwarded(raw, table, paths, ra, rb, np);
    PathsForwarded(raw, done, more, links, table, paths, ra, rb, np, link);
    JoinCount(paths, ra, rb, |table|);
    JoinedPaths(paths, ra, rb, |table|);
    WholeForest(raw, more, links + [link], Forwarded(table, ra, rb), (paths - {ra, rb})[|table| := np]);
  }

  lemma ForestParts(raw: seq<Link>, done: Joins, links: seq<Link>, table: seq<int>, paths: map<int, seq<int>>)
    requires Forest(raw, done, links, table, paths)
    ensures PathsOk(raw, done, links, table, paths) && RootsOk(raw, table, paths) && |paths| == |raw| - |done|
    ensures Rising(table) && |links| == |table| && |raw| <= |table| && forall r :: r in paths ==> 0 <= r < |table|
  {
    forall r | r in paths ensures 0 <= r < |table| {
      assert PathOk(raw, done, links, table, r, paths[r]);
    }
  }

  lemma JoinInRange(raw: seq<Link>, all: Joins, a: int, b: int)
    requires Matching(raw, all) && (a, b) in all
    ensures 0 <= a < |raw| && 0 <= b < |raw|
  {
  }

  lemma WholeForest(raw: seq<Link>, done: Joins, links: seq<Link>, table: seq<int>, paths: map<int, seq<int>>)
    requires PathsOk(raw, done, links, table, paths) && RootsOk(raw, table, paths) && |paths| == |raw| - |done|
    ensures Forest(raw, done, links, table, paths)
  {
  }

  lemma PathParts(raw: seq<Link>, done: Joins, links: seq<Link>, table: seq<int>, paths: map<int, seq<int>>, r: int)
    requires PathsOk(raw, done, links, table, paths) && r in paths
    ensures 0 <= r < |table| == |links| && table[r] == r && links[r] == Span(raw, paths[r])
    ensures Chain(raw, done, paths[r]) && Maximal(done, paths[r]) && paths[r] != []
  {
    assert PathOk(raw, done, links, table, r, paths[r]);
  }

  lemma JoinedPaths(paths: map<int, seq<int>>, ra: int, rb: int, r: int)
    requires ra in paths && rb in paths && ra != rb
    ensures JoinPaths(paths, ra, rb, r) == (paths - {ra, rb})[r := paths[ra] + paths[rb]]
  {
  }

  /** Other paths than the two joined have no end at the join. */
  lemma JoinApart(raw: seq<Link>, done: Joins, links: seq<Link>, table: seq<int>, paths: map<int, seq<int>>, a: int, b: int)
    requires Forest(raw, done, links, table, paths) && 0 <= a < |raw| && 0 <= b < |raw| && Root(table, a) != Root(table, b)
    ensures var ra, rb := Root(table, a), Root(table, b);
            && ra in paths && rb in paths && a !in paths[rb] && b !in paths[ra]
            && forall r :: r in paths && r != ra && r != rb ==> Maximal(done + {(a, b)}, paths[r])
  {
    var ra, rb := Root(table, a), Root(table, b);
    forall r | r in paths && r != ra && r != rb ensures Maximal(done + {(a, b)}, paths[r]) {
      assert PathOk(raw, done, links, table, r, paths[r]);
      assert a !in paths[r] && b !in paths[r];
      EndsOn(raw, done, paths[r]);
    }
  }

  lemma EndsOn(raw: seq<Link>, done: Joins, p: seq<int>)
    requires Chain(raw, done, p)
    ensures p != [] && p[0] in p && p[|p| - 1] in p
  {
  }

  lemma FusedSpan(raw: seq<Link>, done: Joins, p: seq<int>, q: seq<int>, input: Link, output: Link)
    requires Chain(raw, done, p) && Chain(raw, done, q) && input == Span(raw, p) && output == Span(raw, q)
    ensures p + q != [] && forall k :: 0 <= k < |p + q| ==> 0 <= (p + q)[k] < |raw|
    ensures Fused(input, output) == Span(raw, p + q)
  {
  }

  lemma JoinCount(paths: map<int, seq<int>>, ra: int, rb: int, r: int)
    requires ra in paths && rb in paths && r !in paths
    ensures |JoinPaths(paths, ra, rb, r)| == |paths| - if ra == rb then 0 else 1
  {
    assert JoinPaths(paths, ra, rb, r).Keys == paths.Keys - {ra, rb} + {r};
    assert {ra, rb} <= paths.Keys;
  }

  /** A join that was done before: the roots coincide and the new link repeats the fused one. */
  lemma RejoinForest(raw: seq<Link>, done: Joins, links: seq<Link>, table: seq<int>,
                     paths: map<int, seq<int>>, a: int, b: int)
    requires Matching(raw, done) && (a, b) in done
    requires Forest(raw, done, links, table, paths)
    ensures var ra := Root(table, a);
            ra in paths && Root(table, b) == ra &&
            Forest(raw, done, links + [Fused(links[ra], links[ra])], Forwarded(table, ra, ra),
                   JoinPaths(paths, ra, ra, |table|))
  {
    var ra := Root(table, a);
    RootOnPath(raw, done, links, table, paths, a);
    var p := paths[ra];
    var k :| 0 <= k < |p| && p[k] == a;
    NextInChain(raw, done, p, k, b);
    assert b in p;
    assert Fused(links[ra], links[ra]) == Span(raw, p);
    RootsForwarded(raw, table, paths, ra, ra, p);
    forall r | r in paths ensures Maximal(done, paths[r]) {
      assert PathOk(raw, done, links, table, r, paths[r]);
    }
    PathsForwarded(raw, done, done, links, table, paths, ra, ra, p, Span(raw, p));
    assert |table| !in paths by {
      assert forall r :: r in paths ==> PathOk(raw, done, links, table, r, paths[r]);
    }
    JoinCount(paths, ra, ra, |table|);
  }

  lemma NextInChain(raw: seq<Link>, joins: Joins, p: seq<int>, k: nat, b: int)
    requires Matching(raw, joins) && Chain(raw, joins, p) && Maximal(joins, p) && k < |p| && (p[k], b) in joins
    ensures k + 1 < |p| && p[k + 1] == b
  {
    assert k + 1 < |p|;
    assert (p[k], p[k + 1]) in joins;
  }

  lemma SubMatching(raw: seq<Link>, all: Joins, done: Joins)
    requires Matching(raw, all) && done <= all
    ensures Matching(raw, done)
  {
  }

  /** Joining one requested pair, whether or not it was joined before. */
  lemma StepForest(raw: seq<Link>, all: Joins, done: Joins, links: seq<Link>, table: seq<int>,
                   paths: map<int, seq<int>>, a: int, b: int, rank: string -> int)
    requires Matching(raw, all) && Ranked(raw, rank) && done <= all && (a, b) in all
    requires Forest(raw, done, links, table, paths)
    ensures Root(table, a) in paths && Root(table, b) in paths
    ensures var ra, rb := Root(table, a), Root(table, b);
            Forest(raw, done + {(a, b)}, links + [Fused(links[ra], links[rb])], Forwarded(table, ra, rb),
                   JoinPaths(paths, ra, rb, |table|))
  {
    hide *;
    if (a, b) in done {
      SubMatching(raw, all, done);
      RejoinForest(raw, done, links, table, paths, a, b);
      assert done + {(a, b)} == done;
    } else {
      JoinForest(raw, all, done, links, table, paths, a, b, rank);
    }
  }

  function Singles(n: nat): map<int, seq<int>> { map i | i in UpTo(n) :: [i] }

  function Identity(n: nat): seq<int> { seq(n, i => i) }

  lemma InitialForest(raw: seq<Link>)
    ensures Rising(Identity(|raw|)) && Forest(raw, {}, raw, Identity(|raw|), Singles(|raw|))
  {
    InitialPaths(raw);
    InitialRoots(raw);
    hide PathsOk;
    hide RootsOk;
    assert Singles(|raw|).Keys == UpTo(|raw|);
  }

  lemma InitialRoots(raw: seq<Link>)
    ensures RootsOk(raw, Identity(|raw|), Singles(|raw|))
  {
    var table := Identity(|raw|);
    assert Rising(table);
    forall i | 0 <= i < |raw| ensures Root(table, i) == i && i in Singles(|raw|)[i] {
    }
  }

  lemma InitialPaths(raw: seq<Link>)
    ensures PathsOk(raw, {}, raw, Identity(|raw|), Singles(|raw|))
  {
    hide Chain;
    hide Maximal;
    hide Span;
    forall r | r in Singles(|raw|) ensures PathOk(raw, {}, raw, Identity(|raw|), r, Singles(|raw|)[r]) {
      SinglePath(raw, r);
    }
  }

  lemma SinglePath(raw: seq<Link>, r: int)
    requires 0 <= r < |raw|
    ensures Chain(raw, {}, [r]) && Maximal({}, [r]) && raw[r] == Span(raw, [r])
  {
  }

  // ---------------------------------------------------------------- the port maps

  /** instance -> port -> first link at that port. */
  type PortLinks = map<string, map<int, int>>

  function Insert(m: PortLinks, n: string, port: int, i: int): PortLinks {
    var ports := if n in m then m[n] else map[];
    m[n := if port in ports then ports else ports[port := i]]
  }

  ghost predicate IndexesInputs(raw: seq<Link>, m: PortLinks, k: int)
    requires 0 <= k <= |raw|
  {
    && (forall n :: n in m ==> m[n].Keys != {})
    && (forall n, p :: n in m && p in m[n] ==> m[n][p] < k && InputAt(raw, n, p, m[n][p]))
    && (forall i :: 0 <= i < k ==> raw[i].dst in m && raw[i].dstPort in m[raw[i].dst])
  }

  ghost predicate IndexesOutputs(raw: seq<Link>, m: PortLinks, k: int)
    requires 0 <= k <= |raw|
  {
    && (forall n :: n in m ==> m[n].Keys != {})
    && (forall n, p :: n in m && p in m[n] ==> m[n][p] < k && OutputAt(raw, n, p, m[n][p]))
    && (forall i :: 0 <= i < k ==> raw[i].src in m && raw[i].srcPort in m[raw[i].src])
  }

  lemma InsertIndexes(raw: seq<Link>, inputs: PortLinks, outputs: PortLinks, k: nat)
    requires k < |raw| && IndexesInputs(raw, inputs, k) && IndexesOutputs(raw, outputs, k)
    ensures IndexesInputs(raw, Insert(inputs, raw[k].dst, raw[k].dstPort, k), k + 1)
    ensures IndexesOutputs(raw, Insert(outputs, raw[k].src, raw[k].srcPort, k), k + 1)
  {
    InsertInput(raw, inputs, k);
    InsertOutput(raw, outputs, k);
  }

  /** An entry is made where there was none; nothing else changes. */
  lemma Inserted(m: PortLinks, n: string, port: int, k: int)
    ensures var m' := Insert(m, n, port, k);
            && m'.Keys == m.Keys + {n} && port in m'[n]
            && (forall n', p :: n' in m' && p in m'[n'] ==> (n' in m && p in m[n']) || (n' == n && p == port))
            && (forall n', p :: n' in m && p in m[n'] ==> p in m'[n'] && m'[n'][p] == m[n'][p])
            && (!(n in m && port in m[n]) ==> m'[n][port] == k)
  {
  }

  lemma InsertInput(raw: seq<Link>, m: PortLinks, k: nat)
    requires k < |raw| && IndexesInputs(raw, m, k)
    ensures IndexesInputs(raw, Insert(m, raw[k].dst, raw[k].dstPort, k), k + 1)
  {
    var n, port := raw[k].dst, raw[k].dstPort;
    var m' := Insert(m, n, port, k);
    Inserted(m, n, port, k);
    if !(n in m && port in m[n]) {
      FirstInput(raw, m, k);
    }
    hide Insert;
    hide InputAt;
    forall n', p | n' in m' && p in m'[n'] ensures m'[n'][p] < k + 1 && InputAt(raw, n', p, m'[n'][p]) {
      if n' in m && p in m[n'] {
        assert m'[n'][p] == m[n'][p];
      }
    }
  }

  lemma FirstInput(raw: seq<Link>, m: PortLinks, k: nat)
    requires k < |raw| && IndexesInputs(raw, m, k) && !(raw[k].dst in m && raw[k].dstPort in m[raw[k].dst])
    ensures InputAt(raw, raw[k].dst, raw[k].dstPort, k)
  {
  }

  lemma InsertOutput(raw: seq<Link>, m: PortLinks, k: nat)
    requires k < |raw| && IndexesOutputs(raw, m, k)
    ensures IndexesOutputs(raw, Insert(m, raw[k].src, raw[k].srcPort, k), k + 1)
  {
    var n, port := raw[k].src, raw[k].srcPort;
    var m' := Insert(m, n, port, k);
    Inserted(m, n, port, k);
    if !(n in m && port in m[n]) {
      FirstOutput(raw, m, k);
    }
    hide Insert;
    hide OutputAt;
    forall n', p | n' in m' && p in m'[n'] ensures m'[n'][p] < k + 1 && OutputAt(raw, n', p, m'[n'][p]) {
      if n' in m && p in m[n'] {
        assert m'[n'][p] == m[n'][p];
      }
    }
  }

  lemma FirstOutput(raw: seq<Link>, m: PortLinks, k: nat)
    requires k < |raw| && IndexesOutputs(raw, m, k) && !(raw[k].src in m && raw[k].srcPort in m[raw[k].src])
    ensures OutputAt(raw, raw[k].src, raw[k].srcPort, k)
  {
  }

  method IndexPorts(raw: seq<Link>) returns (inputs: PortLinks, outputs: PortLinks)
    ensures IndexesInputs(raw, inputs, |raw|) && IndexesOutputs(raw, outputs, |raw|)
  {
    inputs, outputs := map[], map[];
    for k := 0 to |raw|
      invariant IndexesInputs(raw, inputs, k) && IndexesOutputs(raw, outputs, k)
    {
      hide IndexesInputs;
      hide IndexesOutputs;
      InsertIndexes(raw, inputs, outputs, k);
      inputs := Insert(inputs, raw[k].dst, raw[k].dstPort, k);
      outputs := Insert(outputs, raw[k].src, raw[k].srcPort, k);
    }
  }

  /** The first entry of a port map: the one with the lowest port. */
  method LowestPort(ports: map<int, int>) returns (port: int)
    requires ports.Keys != {}
    ensures port in ports && forall p :: p in ports ==> port <= p
  {
    var rest := ports.Keys;
    Inhabited(rest);
    port :| port in rest;
    while rest != {}
      invariant port in ports && rest <= ports.Keys
      invariant forall p :: p in ports && p !in rest ==> port <= p
    {
      Inhabited(rest);
      var p :| p in rest;
      if p < port {
        port := p;
      }
      rest := rest - {p};
    }
  }

  /** The only join of a disabled instance, if it has both an input and an output. */
  ghost predicate NormalIs(raw: seq<Link>, n: string, found: bool, a: int, b: int) {
    forall i, o :: LowestInput(raw, n, i) && LowestOutput(raw, n, o) <==> found && i == a && o == b
  }

  /** Both ends of the join at a disabled instance, if it has an input and an output. */
  method NormalJoin(raw: seq<Link>, inputs: PortLinks, outputs: PortLinks, n: string)
    returns (found: bool, a: int, b: int)
    requires IndexesInputs(raw, inputs, |raw|) && IndexesOutputs(raw, outputs, |raw|)
    ensures NormalIs(raw, n, found, a, b)
  {
    found, a, b := n in inputs && n in outputs, 0, 0;
    if found {
      var ip := LowestPort(inputs[n]);
      var op := LowestPort(outputs[n]);
      a, b := inputs[n][ip], outputs[n][op];
      LowestIs(raw, inputs, outputs, n, ip, op);
    } else {
      NoneLowest(raw, inputs, outputs, n);
    }
  }

  lemma NoneLowest(raw: seq<Link>, inputs: PortLinks, outputs: PortLinks, n: string)
    requires IndexesInputs(raw, inputs, |raw|) && IndexesOutputs(raw, outputs, |raw|)
    ensures n !in inputs ==> forall i :: !LowestInput(raw, n, i)
    ensures n !in outputs ==> forall o :: !LowestOutput(raw, n, o)
  {
  }

  lemma LowestIs(raw: seq<Link>, inputs: PortLinks, outputs: PortLinks, n: string, ip: int, op: int)
    requires IndexesInputs(raw, inputs, |raw|) && IndexesOutputs(raw, outputs, |raw|)
    requires n in inputs && ip in inputs[n] && forall p :: p in inputs[n] ==> ip <= p
    requires n in outputs && op in outputs[n] && forall p :: p in outputs[n] ==> op <= p
    ensures forall i :: LowestInput(raw, n, i) <==> i == inputs[n][ip]
    ensures forall o :: LowestOutput(raw, n, o) <==> o == outputs[n][op]
  {
    LowestInputIs(raw, inputs, n, ip);
    LowestOutputIs(raw, outputs, n, op);
  }

  lemma LowestInputIs(raw: seq<Link>, inputs: PortLinks, n: string, port: int)
    requires IndexesInputs(raw, inputs, |raw|)
    requires n in inputs && port in inputs[n] && forall p :: p in inputs[n] ==> port <= p
    ensures forall i :: LowestInput(raw, n, i) <==> i == inputs[n][port]
  {
    var a := inputs[n][port];
    assert InputAt(raw, n, port, a);
    forall k | 0 <= k < |raw| && raw[k].dst == n ensures port <= raw[k].dstPort {
      assert raw[k].dst in inputs;
    }
    assert LowestInput(raw, n, a);
    forall i | LowestInput(raw, n, i) ensures i == a {
      assert raw[i].dstPort == port;
    }
  }

  lemma LowestOutputIs(raw: seq<Link>, outputs: PortLinks, n: string, port: int)
    requires IndexesOutputs(raw, outputs, |raw|)
    requires n in outputs && port in outputs[n] && forall p :: p in outputs[n] ==> port <= p
    ensures forall o :: LowestOutput(raw, n, o) <==> o == outputs[n][port]
  {
    var a := outputs[n][port];
    assert OutputAt(raw, n, port, a);
    forall k | 0 <= k < |raw| && raw[k].src == n ensures port <= raw[k].srcPort {
      assert raw[k].src in outputs;
    }
    assert LowestOutput(raw, n, a);
    forall i | LowestOutput(raw, n, i) ensures i == a {
      assert raw[i].srcPort == port;
    }
  }

  /** The only join of a through path, if there is one. */
  ghost predicate BypassIs(raw: seq<Link>, n: string, path: ThroughPath, found: bool, a: int, b: int) {
    forall i, o :: InputAt(raw, n, path.inputPort, i) && OutputAt(raw, n, path.outputPort, o)
                   <==> found && i == a && o == b
  }

  /** Both ends of a customized bypass, if links exist at its ports. */
  method BypassJoin(raw: seq<Link>, inputs: PortLinks, outputs: PortLinks, n: string, path: ThroughPath)
    returns (found: bool, a: int, b: int)
    requires IndexesInputs(raw, inputs, |raw|) && IndexesOutputs(raw, outputs, |raw|)
    ensures BypassIs(raw, n, path, found, a, b)
  {
    found, a, b := n in inputs && path.inputPort in inputs[n] && n in outputs && path.outputPort in outputs[n], 0, 0;
    if found {
      a, b := inputs[n][path.inputPort], outputs[n][path.outputPort];
    }
  }

  // ---------------------------------------------------------------- the whole pass

  lemma RequestsMonotone(raw: seq<Link>, disabled: seq<string>, bypasses: seq<Bypass>,
                         disabled': seq<string>, bypasses': seq<Bypass>)
    requires forall n :: n in disabled ==> n in disabled'
    requires forall y, p :: y in bypasses && p in y.paths ==> HasPath(bypasses', y.instance, p)
    ensures RequestedJoins(raw, disabled, bypasses) <= RequestedJoins(raw, disabled', bypasses')
  {
    forall a, b | 0 <= a < |raw| && 0 <= b < |raw| && Requests(raw, disabled, bypasses, a, b)
      ensures Requests(raw, disabled', bypasses', a, b)
    {
      if y, p :| y in bypasses && p in y.paths
                 && InputAt(raw, y.instance, p.inputPort, a) && OutputAt(raw, y.instance, p.outputPort, b) {
        var y' :| y' in bypasses' && y'.instance == y.instance && p in y'.paths;
      }
    }
  }

  ghost predicate HasPath(bypasses: seq<Bypass>, n: string, p: ThroughPath) {
    exists y :: y in bypasses && y.instance == n && p in y.paths
  }

  /** The joins of one more disabled instance. */
  lemma NextDisabled(raw: seq<Link>, disabled: seq<string>, n: string, found: bool, a: int, b: int)
    requires NormalIs(raw, n, found, a, b)
    ensures RequestedJoins(raw, disabled + [n], []) ==
            RequestedJoins(raw, disabled, []) + if found then {(a, b)} else {}
  {
    forall i, o
      ensures Requests(raw, disabled + [n], [], i, o) <==>
              Requests(raw, disabled, [], i, o) || (found && i == a && o == b)
    {
      assert forall m :: m in disabled + [n] <==> m in disabled || m == n;
      if found && i == a && o == b {
        assert n in disabled + [n] && LowestInput(raw, n, i) && LowestOutput(raw, n, o);
      }
    }
    if found {
      assert LowestInput(raw, n, a) && LowestOutput(raw, n, b);
    }
  }

  /** The joins of one more through path of the last customized instance. */
  lemma NextPath(raw: seq<Link>, disabled: seq<string>, bypasses: seq<Bypass>, n: string, paths: seq<ThroughPath>,
                 path: ThroughPath, found: bool, a: int, b: int)
    requires BypassIs(raw, n, path, found, a, b)
    ensures RequestedJoins(raw, disabled, bypasses + [Bypass(n, paths + [path])]) ==
            RequestedJoins(raw, disabled, bypasses + [Bypass(n, paths)]) + if found then {(a, b)} else {}
  {
    var y, y' := Bypass(n, paths), Bypass(n, paths + [path]);
    forall i, o
      ensures Requests(raw, disabled, bypasses + [y'], i, o) <==>
              Requests(raw, disabled, bypasses + [y], i, o) || (found && i == a && o == b)
    {
      assert InputAt(raw, n, path.inputPort, i) && OutputAt(raw, n, path.outputPort, o) <==> found && i == a && o == b;
      hide *;
      AsksMore(raw, n, paths, path, i, o);
      LastAsks(raw, disabled, bypasses, y, i, o);
      LastAsks(raw, disabled, bypasses, y', i, o);
    }
    hide Requests;
    if found {
      FoundEnds(raw, n, path, a, b);
    }
  }

  lemma AsksMore(raw: seq<Link>, n: string, paths: seq<ThroughPath>, path: ThroughPath, i: int, o: int)
    ensures Asks(raw, Bypass(n, paths + [path]), i, o) <==>
            Asks(raw, Bypass(n, paths), i, o) || (InputAt(raw, n, path.inputPort, i) && OutputAt(raw, n, path.outputPort, o))
  {
    hide InputAt;
    hide OutputAt;
    assert path in paths + [path];
    if Asks(raw, Bypass(n, paths), i, o) {
      var p :| p in paths && InputAt(raw, n, p.inputPort, i) && OutputAt(raw, n, p.outputPort, o);
      assert p in paths + [path];
    }
  }

  lemma LastAsks(raw: seq<Link>, disabled: seq<string>, bypasses: seq<Bypass>, y: Bypass, i: int, o: int)
    ensures Requests(raw, disabled, bypasses + [y], i, o) <==> Requests(raw, disabled, bypasses, i, o) || Asks(raw, y, i, o)
  {
    hide Asks;
    hide LowestInput;
    hide LowestOutput;
    assert y in bypasses + [y];
    if e :| e in bypasses && Asks(raw, e, i, o) {
      assert e in bypasses + [y];
    }
  }

  lemma FoundEnds(raw: seq<Link>, n: string, path: ThroughPath, a: int, b: int)
    requires BypassIs(raw, n, path, true, a, b)
    ensures InputAt(raw, n, path.inputPort, a) && OutputAt(raw, n, path.outputPort, b)
  {
    hide InputAt;
    hide OutputAt;
  }

  /** Fuses the real links behind two indices. */
  method Fuse(links: seq<Link>, table: seq<int>, a: int, b: int) returns (links': seq<Link>, table': seq<int>)
    requires |links| == |table| && Rising(table) && 0 <= a < |table| && 0 <= b < |table|
    ensures links' == links + [Fused(links[Root(table, a)], links[Root(table, b)])]
    ensures table' == Forwarded(table, Root(table, a), Root(table, b))
  {
    var input := GetRealLinkIndex(table, a);
    var output := GetRealLinkIndex(table, b);
    var src, dst := links[input], links[output];
    links' := links + [Link(src.srcPort, src.src, src.srcFormat, dst.dstPort, dst.dst, dst.dstFormats, SourceLink)];
    table' := table + [|links'| - 1];
    table' := table'[input := |links'| - 1];
    table' := table'[output := |links'| - 1];
  }

  /** The disabled instances, in list order. */
  method PruneDisabled(raw: seq<Link>, inputs: PortLinks, outputs: PortLinks, disabled: seq<string>,
                       ghost all: Joins, ghost rank: string -> int)
    returns (links: seq<Link>, table: seq<int>, ghost paths: map<int, seq<int>>)
    requires Linked(raw, all) && Ranked(raw, rank) && RequestedJoins(raw, disabled, []) <= all
    requires IndexesInputs(raw, inputs, |raw|) && IndexesOutputs(raw, outputs, |raw|)
    ensures Done(raw, all, RequestedJoins(raw, disabled, []), links, table, paths)
  {
    hide Done;
    hide Linked;
    hide RequestedJoins;
    hide IndexesInputs;
    hide IndexesOutputs;
    links := raw;
    table := Identity(|raw|);
    paths := Singles(|raw|);
    NoRequests(raw);
    NothingDone(raw, all);
    var i := 0;
    while i < |disabled|
      invariant 0 <= i <= |disabled|
      invariant Done(raw, all, RequestedJoins(raw, disabled[..i], []), links, table, paths)
    {
      ghost var done := RequestedJoins(raw, disabled[..i], []);
      var found, a, b := NormalJoin(raw, inputs, outputs, disabled[i]);
      NextDisabled(raw, disabled[..i], disabled[i], found, a, b);
      assert disabled[..i + 1] == disabled[..i] + [disabled[i]];
      RequestsMonotone(raw, disabled[..i + 1], [], disabled, []);
      if found {
        links, table, paths := FuseForest(raw, all, done, links, table, paths, a, b, rank);
      } else {
        assert RequestedJoins(raw, disabled[..i + 1], []) == done;
      }
      i := i + 1;
    }
    assert disabled[..i] == disabled;
  }

  /** The through paths of one customized instance. */
  method PrunePaths(raw: seq<Link>, inputs: PortLinks, outputs: PortLinks, bypass: Bypass,
                    ghost disabled: seq<string>, ghost before: seq<Bypass>,
                    links0: seq<Link>, table0: seq<int>, ghost paths0: map<int, seq<int>>,
                    ghost all: Joins, ghost rank: string -> int)
    returns (links: seq<Link>, table: seq<int>, ghost paths: map<int, seq<int>>)
    requires Linked(raw, all) && Ranked(raw, rank) && RequestedJoins(raw, disabled, before + [bypass]) <= all
    requires IndexesInputs(raw, inputs, |raw|) && IndexesOutputs(raw, outputs, |raw|)
    requires Done(raw, all, RequestedJoins(raw, disabled, before), links0, table0, paths0)
    ensures Done(raw, all, RequestedJoins(raw, disabled, before + [bypass]), links, table, paths)
  {
    hide Done;
    hide Linked;
    hide RequestedJoins;
    hide IndexesInputs;
    hide IndexesOutputs;
    hide BypassIs;
    links, table, paths := links0, table0, paths0;
    var n := bypass.instance;
    EmptyBypass(raw, disabled, before, n);
    var k := 0;
    while k < |bypass.paths|
      invariant 0 <= k <= |bypass.paths|
      invariant Done(raw, all, RequestedJoins(raw, disabled, before + [Bypass(n, bypass.paths[..k])]), links, table, paths)
    {
      ghost var done := RequestedJoins(raw, disabled, before + [Bypass(n, bypass.paths[..k])]);
      var path := bypass.paths[k];
      var found, a, b := BypassJoin(raw, inputs, outputs, n, path);
      NextPath(raw, disabled, before, n, bypass.paths[..k], path, found, a, b);
      assert bypass.paths[..k + 1] == bypass.paths[..k] + [path];
      PartOfBypass(raw, disabled, before, bypass, k + 1);
      if found {
        links, table, paths := FuseForest(raw, all, done, links, table, paths, a, b, rank);
      } else {
        assert RequestedJoins(raw, disabled, before + [Bypass(n, bypass.paths[..k + 1])]) == done;
      }
      k := k + 1;
    }
    assert bypass.paths[..k] == bypass.paths;
  }

  /** Disabled instances first, customized bypasses second, then one link per root. If no link is asked to
      join twice at one end the result is the contraction of the graph along the requested joins, and
      otherwise it is no such contraction. */
  method PipelineNodePrune(raw: seq<Link>, disabled: seq<string>, bypasses: seq<Bypass>, ghost rank: string -> int)
    returns (result: seq<Link>, ghost chains: seq<seq<int>>)
    requires Ranked(raw, rank)
    ensures var joins := RequestedJoins(raw, disabled, bypasses);
            && (Matching(raw, joins) ==> Contracts(raw, joins, chains, result) && |result| == |raw| - |joins|)
            && (Matching(raw, joins) <==> exists cs :: Contracts(raw, joins, cs, result))
  {
    hide Done;
    hide Linked;
    hide Matching;
    hide RequestedJoins;
    hide IndexesInputs;
    hide IndexesOutputs;
    ghost var all := RequestedJoins(raw, disabled, bypasses);
    RequestsLinked(raw, disabled, bypasses);
    var inputs, outputs := IndexPorts(raw);
    RequestsMonotone(raw, disabled, [], disabled, bypasses);
    var links, table;
    ghost var paths;
    links, table, paths := PruneDisabled(raw, inputs, outputs, disabled, all, rank);
    var j := 0;
    while j < |bypasses|
      invariant 0 <= j <= |bypasses|
      invariant Done(raw, all, RequestedJoins(raw, disabled, bypasses[..j]), links, table, paths)
    {
      assert bypasses[..j + 1] == bypasses[..j] + [bypasses[j]];
      PrefixOfAll(raw, disabled, bypasses, j + 1);
      links, table, paths :=
        PrunePaths(raw, inputs, outputs, bypasses[j], disabled, bypasses[..j], links, table, paths, all, rank);
      j := j + 1;
    }
    assert bypasses[..j] == bypasses;
    result, chains := CollectActive(raw, all, links, table, paths, rank);
  }

  lemma RequestsLinked(raw: seq<Link>, disabled: seq<string>, bypasses: seq<Bypass>)
    ensures Linked(raw, RequestedJoins(raw, disabled, bypasses))
  {
  }

  lemma PrefixOfAll(raw: seq<Link>, disabled: seq<string>, bypasses: seq<Bypass>, j: nat)
    requires j <= |bypasses|
    ensures RequestedJoins(raw, disabled, bypasses[..j]) <= RequestedJoins(raw, disabled, bypasses)
  {
    forall y, p | y in bypasses[..j] && p in y.paths ensures HasPath(bypasses, y.instance, p) {
      assert y in bypasses;
    }
    RequestsMonotone(raw, disabled, bypasses[..j], disabled, bypasses);
  }

  lemma NoRequests(raw: seq<Link>)
    ensures RequestedJoins(raw, [], []) == {}
  {
  }

  lemma EmptyBypass(raw: seq<Link>, disabled: seq<string>, bypasses: seq<Bypass>, n: string)
    ensures RequestedJoins(raw, disabled, bypasses + [Bypass(n, [])]) == RequestedJoins(raw, disabled, bypasses)
  {
    var ys := bypasses + [Bypass(n, [])];
    assert forall x :: x in ys <==> x in bypasses || x == Bypass(n, []);
  }

  lemma PartOfBypass(raw: seq<Link>, disabled: seq<string>, before: seq<Bypass>, bypass: Bypass, k: nat)
    requires k <= |bypass.paths|
    ensures RequestedJoins(raw, disabled, before + [Bypass(bypass.instance, bypass.paths[..k])])
            <= RequestedJoins(raw, disabled, before + [bypass])
  {
    var ys := before + [Bypass(bypass.instance, bypass.paths[..k])];
    forall y, p | y in ys && p in y.paths ensures HasPath(before + [bypass], y.instance, p) {
      if y in before {
        assert y in before + [bypass];
      } else {
        assert bypass in before + [bypass] && p in bypass.paths;
      }
    }
    RequestsMonotone(raw, disabled, ys, disabled, before + [bypass]);
  }

  /** Joined links have one root. */
  ghost predicate Followed(raw: seq<Link>, done: Joins, links: seq<Link>, table: seq<int>) {
    && |links| == |table| && |raw| <= |table| && Rising(table)
    && forall j :: j in done && 0 <= j.0 < |raw| && 0 <= j.1 < |raw| ==> Root(table, j.0) == Root(table, j.1)
  }

  /** What holds of every request, and what holds besides if no link is joined twice at one end. */
  ghost predicate Done(raw: seq<Link>, all: Joins, done: Joins, links: seq<Link>, table: seq<int>, paths: map<int, seq<int>>)
  {
    Followed(raw, done, links, table) && (Matching(raw, all) ==> Forest(raw, done, links, table, paths))
  }

  lemma NothingDone(raw: seq<Link>, all: Joins)
    ensures Done(raw, all, {}, raw, Identity(|raw|), Singles(|raw|))
  {
    InitialForest(raw);
    hide Forest;
    hide Matching;
  }

  lemma FollowNext(raw: seq<Link>, done: Joins, links: seq<Link>, table: seq<int>, a: int, b: int, link: Link)
    requires Followed(raw, done, links, table) && 0 <= a < |raw| && 0 <= b < |raw|
    ensures Followed(raw, done + {(a, b)}, links + [link], Forwarded(table, Root(table, a), Root(table, b)))
  {
    var ra, rb := Root(table, a), Root(table, b);
    RootAfter(table, ra, rb, a);
    RootAfter(table, ra, rb, b);
    forall j | j in done && 0 <= j.0 < |raw| && 0 <= j.1 < |raw|
      ensures Root(Forwarded(table, ra, rb), j.0) == Root(Forwarded(table, ra, rb), j.1)
    {
      RootAfter(table, ra, rb, j.0);
      RootAfter(table, ra, rb, j.1);
    }
    hide Root;
    hide Forwarded;
  }

  /** `Fuse` together with the paths that the roots stand for. */
  method FuseForest(raw: seq<Link>, ghost all: Joins, ghost done: Joins, links: seq<Link>, table: seq<int>,
                    ghost paths: map<int, seq<int>>, a: int, b: int, ghost rank: string -> int)
    returns (links': seq<Link>, table': seq<int>, ghost paths': map<int, seq<int>>)
    requires Linked(raw, all) && Ranked(raw, rank) && done + {(a, b)} <= all
    requires Done(raw, all, done, links, table, paths)
    ensures Done(raw, all, done + {(a, b)}, links', table', paths')
  {
    hide Forest;
    assert (a, b) in all;
    assert 0 <= a < |raw| && 0 <= b < |raw|;
    FollowNext(raw, done, links, table, a, b, Fused(links[Root(table, a)], links[Root(table, b)]));
    paths' := paths;
    if Matching(raw, all) {
      StepForest(raw, all, done, links, table, paths, a, b, rank);
      paths' := JoinPaths(paths, Root(table, a), Root(table, b), |table|);
    }
    links', table' := Fuse(links, table, a, b);
  }

  /** The roots met among the first `index` links, and where each was first met. */
  ghost predicate Met(raw: seq<Link>, table: seq<int>, active: seq<int>, firsts: seq<int>, index: int) {
    && index <= |raw| <= |table| && Rising(table) && |active| == |firsts|
    && (forall k :: 0 <= k < |firsts| ==> 0 <= firsts[k] < index && Root(table, firsts[k]) == active[k])
    && (forall k :: 0 <= k < |firsts| ==> forall i :: 0 <= i < firsts[k] ==> Root(table, i) != active[k])
    && (forall k, l :: 0 <= k < l < |firsts| ==> firsts[k] < firsts[l])
    && (forall i :: 0 <= i < index ==> Root(table, i) in active)
  }

  lemma MeetNext(raw: seq<Link>, table: seq<int>, active: seq<int>, firsts: seq<int>, index: int)
    requires 0 <= index < |raw| && Met(raw, table, active, firsts, index)
    ensures var r := Root(table, index);
            if r in active then Met(raw, table, active, firsts, index + 1)
            else Met(raw, table, active + [r], firsts + [index], index + 1)
  {
  }

  lemma MetDistinct(raw: seq<Link>, table: seq<int>, active: seq<int>, firsts: seq<int>)
    requires Met(raw, table, active, firsts, |raw|)
    ensures NoDuplicates(active)
  {
    forall k, l | 0 <= k < l < |active| ensures active[k] != active[l] {
      assert firsts[k] < firsts[l] && Root(table, firsts[k]) == active[k];
    }
  }

  lemma CollectAll(raw: seq<Link>, done: Joins, links: seq<Link>, table: seq<int>, paths: map<int, seq<int>>,
                   active: seq<int>, firsts: seq<int>, chains: seq<seq<int>>)
    requires Forest(raw, done, links, table, paths) && Met(raw, table, active, firsts, |raw|)
    requires |chains| == |active|
    requires forall k :: 0 <= k < |active| ==> active[k] in paths ==> chains[k] == paths[active[k]]
    ensures Partition(raw, done, chains) && |active| == |raw| - |done|
    ensures forall k :: 0 <= k < |active| ==> active[k] in paths
  {
    forall k | 0 <= k < |active| ensures active[k] in paths && firsts[k] in paths[active[k]] {
      assert Root(table, firsts[k]) == active[k];
    }
    forall k | 0 <= k < |chains| ensures Chain(raw, done, chains[k]) && Maximal(done, chains[k]) {
      assert PathOk(raw, done, links, table, active[k], paths[active[k]]);
    }
    forall i | 0 <= i < |raw| ensures Covered(chains, i) {
      assert Root(table, i) in active;
      var k :| 0 <= k < |active| && active[k] == Root(table, i);
      assert i in chains[k];
    }
    forall k, l | 0 <= k < l < |chains| ensures Before(chains[k], chains[l]) {
      LaterChain(raw, table, paths, active, firsts, l);
      assert firsts[k] in chains[k] && firsts[k] < firsts[l];
    }
    forall r | r in paths ensures r in active {
      assert PathOk(raw, done, links, table, r, paths[r]);
      var i := paths[r][0];
      assert i in paths[r];
    }
    MetDistinct(raw, table, active, firsts);
    DistinctCount(active, paths.Keys);
  }

  lemma LaterChain(raw: seq<Link>, table: seq<int>, paths: map<int, seq<int>>, active: seq<int>, firsts: seq<int>, l: nat)
    requires RootsOk(raw, table, paths) && Met(raw, table, active, firsts, |raw|) && l < |active| && active[l] in paths
    ensures forall i :: i in paths[active[l]] ==> firsts[l] <= i
  {
    forall i | i in paths[active[l]] ensures firsts[l] <= i {
      assert Root(table, i) == active[l];
    }
  }

  lemma {:induction false} DistinctCount(s: seq<int>, members: set<int>)
    requires forall x :: x in s <==> x in members
    requires forall k, l :: 0 <= k < l < |s| ==> s[k] != s[l]
    ensures |s| == |members|
  {
    if s == [] {
      Vacant(members);
    } else {
      var last := s[|s| - 1];
      assert last in s;
      assert forall x :: x in s <==> x in s[..|s| - 1] || x == last;
      DistinctCount(s[..|s| - 1], members - {last});
    }
  }

  /** The roots of the raw links, each once, in the order in which the links lead to them. */
  method MeetRoots(raw: seq<Link>, table: seq<int>) returns (active: seq<int>, ghost firsts: seq<int>)
    requires |raw| <= |table| && Rising(table)
    ensures Met(raw, table, active, firsts, |raw|)
  {
    active, firsts := [], [];
    var seen := seq(|table|, _ => false);
    var index := 0;
    while index < |raw|
      invariant 0 <= index <= |raw| && |seen| == |table|
      invariant forall r :: 0 <= r < |table| ==> (seen[r] <==> r in active)
      invariant Met(raw, table, active, firsts, index)
    {
      var value := GetRealLinkIndex(table, index);
      MeetNext(raw, table, active, firsts, index);
      hide Met;
      if !seen[value] {
        active := active + [value];
        seen := seen[value := true];
        firsts := firsts + [index];
      }
      index := index + 1;
    }
  }

  /** The links at the roots. */
  method CollectActive(raw: seq<Link>, ghost all: Joins, links: seq<Link>, table: seq<int>,
                       ghost paths: map<int, seq<int>>, ghost rank: string -> int)
    returns (result: seq<Link>, ghost chains: seq<seq<int>>)
    requires Linked(raw, all) && Ranked(raw, rank) && Done(raw, all, all, links, table, paths)
    ensures Matching(raw, all) ==> Contracts(raw, all, chains, result) && |result| == |raw| - |all|
    ensures !Matching(raw, all) ==> forall cs :: !Contracts(raw, all, cs, result)
  {
    var active;
    ghost var firsts;
    active, firsts := MeetRoots(raw, table);
    MetInRange(raw, table, active, firsts);
    result := [];
    var k := 0;
    while k < |active|
      invariant 0 <= k <= |active| && |result| == k
      invariant forall l :: 0 <= l < k ==> result[l] == links[active[l]]
    {
      result := result + [links[active[k]]];
      k := k + 1;
    }
    hide *;
    chains := seq(|active|, l requires 0 <= l < |active| => if active[l] in paths then paths[active[l]] else []);
    Verdict(raw, all, links, table, paths, active, firsts, rank, chains, result);
  }

  lemma MetInRange(raw: seq<Link>, table: seq<int>, active: seq<int>, firsts: seq<int>)
    requires Met(raw, table, active, firsts, |raw|)
    ensures forall k :: 0 <= k < |active| ==> 0 <= active[k] < |table|
  {
    forall k | 0 <= k < |active| ensures 0 <= active[k] < |table| {
      assert Root(table, firsts[k]) == active[k];
    }
  }

  lemma Verdict(raw: seq<Link>, all: Joins, links: seq<Link>, table: seq<int>, paths: map<int, seq<int>>,
                active: seq<int>, firsts: seq<int>, rank: string -> int, chains: seq<seq<int>>, result: seq<Link>)
    requires Linked(raw, all) && Ranked(raw, rank) && Done(raw, all, all, links, table, paths)
    requires Met(raw, table, active, firsts, |raw|) && |chains| == |active| == |result|
    requires forall k :: 0 <= k < |active| ==> active[k] in paths ==> chains[k] == paths[active[k]]
    requires forall k :: 0 <= k < |active| ==> 0 <= active[k] < |links| && result[k] == links[active[k]]
    ensures Matching(raw, all) ==> Contracts(raw, all, chains, result) && |result| == |raw| - |all|
    ensures !Matching(raw, all) ==> forall cs :: !Contracts(raw, all, cs, result)
  {
    hide Matching;
    hide Forest;
    hide Contracts;
    hide Met;
    if Matching(raw, all) {
      ChainsContract(raw, all, links, table, paths, active, firsts, chains, result);
    } else {
      forall cs ensures !Contracts(raw, all, cs, result) {
        NoContraction(raw, all, links, table, active, firsts, rank, cs, result);
      }
    }
  }

  lemma ChainsContract(raw: seq<Link>, all: Joins, links: seq<Link>, table: seq<int>, paths: map<int, seq<int>>,
                       active: seq<int>, firsts: seq<int>, chains: seq<seq<int>>, result: seq<Link>)
    requires Forest(raw, all, links, table, paths) && Met(raw, table, active, firsts, |raw|)
    requires |chains| == |active| == |result|
    requires forall k :: 0 <= k < |active| ==> active[k] in paths ==> chains[k] == paths[active[k]]
    requires forall k :: 0 <= k < |active| ==> 0 <= active[k] < |links| && result[k] == links[active[k]]
    ensures Contracts(raw, all, chains, result) && |result| == |raw| - |all|
  {
    CollectAll(raw, all, links, table, paths, active, firsts, chains);
    forall l | 0 <= l < |active| ensures result[l] == Span(raw, chains[l]) {
      assert PathOk(raw, all, links, table, active[l], paths[active[l]]);
    }
  }

  // ---------------------------------------------------------------- requests that clash

  /** The links of a chain have one root. */
  lemma {:induction false} ChainRoot(raw: seq<Link>, all: Joins, links: seq<Link>, table: seq<int>, p: seq<int>, k: nat)
    requires Followed(raw, all, links, table) && Chain(raw, all, p) && k < |p|
    ensures Root(table, p[k]) == Root(table, p[0])
  {
    if k > 0 {
      ChainRoot(raw, all, links, table, p, k - 1);
      assert (p[k - 1], p[k]) in all;
    }
  }

  /** As many values as places, so no value is taken twice. */
  lemma AllDifferent(s: seq<int>, t: seq<int>)
    requires |s| == |t| && NoDuplicates(t) && forall x :: x in t ==> x in s
    ensures NoDuplicates(s)
  {
    DistinctSize(t);
    forall i, j | 0 <= i < j < |s| ensures s[i] != s[j] {
      if s[i] == s[j] {
        var rest := s[..j] + s[j + 1..];
        forall x | x in t ensures x in rest {
          var k :| 0 <= k < |s| && s[k] == x;
          assert rest[if k == j then i else if k < j then k else k - 1] == x;
        }
        FewMembers(rest);
        SubsetCount(set x | x in t, set x | x in rest);
      }
    }
  }

  lemma {:induction false} FewMembers(s: seq<int>)
    ensures |set x | x in s| <= |s|
  {
    if s != [] {
      FewMembers(s[1..]);
      assert (set x | x in s) == (set x | x in s[1..]) + {s[0]};
    }
  }

  /** The root of each chain of a partition. */
  ghost function RootsOf(table: seq<int>, cs: seq<seq<int>>): (r: seq<int>)
    requires Rising(table) && forall k :: 0 <= k < |cs| ==> cs[k] != [] && 0 <= cs[k][0] < |table|
    ensures |r| == |cs| && forall k :: 0 <= k < |cs| ==> r[k] == Root(table, cs[k][0])
  {
    seq(|cs|, k requires 0 <= k < |cs| => Root(table, cs[k][0]))
  }

  /** A partition into as many chains as there are roots has one chain per root. */
  lemma ChainPerRoot(raw: seq<Link>, all: Joins, links: seq<Link>, table: seq<int>, active: seq<int>, firsts: seq<int>,
                     cs: seq<seq<int>>)
    requires Followed(raw, all, links, table) && Met(raw, table, active, firsts, |raw|)
    requires Partition(raw, all, cs) && |cs| == |active|
    ensures NoDuplicates(RootsOf(table, cs))
  {
    var roots := RootsOf(table, cs);
    forall r | r in active ensures r in roots {
      var k :| 0 <= k < |active| && active[k] == r;
      assert Covered(cs, firsts[k]);
      var c, n := Position(cs, firsts[k]);
      ChainRoot(raw, all, links, table, cs[c], n);
      assert roots[c] == r;
    }
    MetDistinct(raw, table, active, firsts);
    AllDifferent(roots, active);
  }

  lemma Position(cs: seq<seq<int>>, i: int) returns (c: nat, n: nat)
    requires Covered(cs, i)
    ensures c < |cs| && n < |cs[c]| && cs[c][n] == i
  {
    c :| c < |cs| && i in cs[c];
    n :| n < |cs[c]| && cs[c][n] == i;
  }

  /** Two links with a common start or end that are joined to one link: they have one root, but lie on two
      chains of every partition, which so has more chains than there are roots. */
  lemma NoContraction(raw: seq<Link>, all: Joins, links: seq<Link>, table: seq<int>, active: seq<int>, firsts: seq<int>,
                      rank: string -> int, cs: seq<seq<int>>, result: seq<Link>)
    requires Linked(raw, all) && Ranked(raw, rank) && !Matching(raw, all)
    requires Followed(raw, all, links, table) && Met(raw, table, active, firsts, |raw|) && |result| == |active|
    ensures !Contracts(raw, all, cs, result)
  {
    if Contracts(raw, all, cs, result) {
      var x, y := Clash(raw, all, links, table);
      ChainPerRoot(raw, all, links, table, active, firsts, cs);
      assert Covered(cs, x) && Covered(cs, y);
      var c, m := Position(cs, x);
      var d, n := Position(cs, y);
      ChainRoot(raw, all, links, table, cs[c], m);
      ChainRoot(raw, all, links, table, cs[d], n);
      assert RootsOf(table, cs)[c] == RootsOf(table, cs)[d];
      assert c == d;
      NotOneChain(raw, all, cs[c], rank, x, y);
    }
  }

  lemma Clash(raw: seq<Link>, all: Joins, links: seq<Link>, table: seq<int>) returns (x: int, y: int)
    requires Linked(raw, all) && !Matching(raw, all) && Followed(raw, all, links, table)
    ensures 0 <= x < |raw| && 0 <= y < |raw| && x != y && Root(table, x) == Root(table, y)
    ensures raw[x].src == raw[y].src || raw[x].dst == raw[y].dst
  {
    var j, k :| j in all && k in all && (j.0 == k.0 || j.1 == k.1) && j != k;
    if j.0 == k.0 {
      x, y := j.1, k.1;
    } else {
      x, y := j.0, k.0;
    }
  }

  /** The result does not depend on the order in which the disabled instances are listed, nor on
      repetitions among them. */
  lemma OrderIrrelevant(raw: seq<Link>, disabled: seq<string>, disabled': seq<string>, bypasses: seq<Bypass>,
                        result: seq<Link>, chains: seq<seq<int>>, result': seq<Link>, chains': seq<seq<int>>)
    requires Matching(raw, RequestedJoins(raw, disabled, bypasses))
    requires forall n :: n in disabled <==> n in disabled'
    requires Contracts(raw, RequestedJoins(raw, disabled, bypasses), chains, result)
    requires Contracts(raw, RequestedJoins(raw, disabled', bypasses), chains', result')
    ensures result == result'
  {
    forall y, p | y in bypasses && p in y.paths ensures HasPath(bypasses, y.instance, p) {
    }
    RequestsMonotone(raw, disabled, bypasses, disabled', bypasses);
    RequestsMonotone(raw, disabled', bypasses, disabled, bypasses);
    ContractionUnique(raw, RequestedJoins(raw, disabled, bypasses), chains, result, chains', result');
  }

  /** Disabled instances alone always ask for a matching, whatever the graph. */
  lemma NormalMatching(raw: seq<Link>, disabled: seq<string>)
    ensures Matching(raw, RequestedJoins(raw, disabled, []))
  {
  }

  /** Two through paths that share an input port ask for no matching: all three links end up at one root,
      with the source of the first and the destination of the last, and that is no contraction. */
  lemma SharedPortLosesLink(raw: seq<Link>, s: Link, a: Link, b: Link, bypass: Bypass)
    requires raw == [s, a, b] && s.src != "X" && a.dst != "X" && b.dst != "X"
    requires s.dst == a.src == b.src == "X" && a.srcPort != b.srcPort
    requires bypass == Bypass("X", [ThroughPath(s.dstPort, a.srcPort), ThroughPath(s.dstPort, b.srcPort)])
    ensures RequestedJoins(raw, [], [bypass]) == {(0, 1), (0, 2)}
    ensures var table := Forwarded([0, 1, 2], 0, 1);
            var links := raw + [Fused(s, a)];
            && Rising(table) && Root(table, 0) == 3 && Root(table, 2) == 2
            && var table' := Forwarded(table, 3, 2);
               && Rising(table') && Root(table', 0) == 4 && Root(table', 1) == 4 && Root(table', 2) == 4
               && Fused(links[3], links[2]) == Fused(s, b)
    ensures forall cs :: !Contracts(raw, RequestedJoins(raw, [], [bypass]), cs, [Fused(s, b)])
  {
    SharedPortRequests(raw, s, a, b, bypass);
    var table := [3, 3, 2, 3];
    assert Forwarded([0, 1, 2], 0, 1) == table;
    assert Root(table, 3) == 3;
    var table' := [3, 3, 4, 4, 4];
    assert Forwarded(table, 3, 2) == table';
    assert Root(table', 4) == 4 && Root(table', 3) == 4;
    forall cs ensures !Contracts(raw, RequestedJoins(raw, [], [bypass]), cs, [Fused(s, b)]) {
      OneChainTooFew(raw, s, a, b, cs);
    }
  }

  lemma SharedPortRequests(raw: seq<Link>, s: Link, a: Link, b: Link, bypass: Bypass)
    requires raw == [s, a, b] && s.src != "X" && a.dst != "X" && b.dst != "X"
    requires s.dst == a.src == b.src == "X" && a.srcPort != b.srcPort
    requires bypass == Bypass("X", [ThroughPath(s.dstPort, a.srcPort), ThroughPath(s.dstPort, b.srcPort)])
    ensures RequestedJoins(raw, [], [bypass]) == {(0, 1), (0, 2)}
  {
    forall i, o ensures Requests(raw, [], [bypass], i, o) <==> i == 0 && (o == 1 || o == 2) {
      assert bypass in [bypass] && bypass.paths[0] in bypass.paths && bypass.paths[1] in bypass.paths;
      assert forall p :: p in bypass.paths <==> p == bypass.paths[0] || p == bypass.paths[1];
    }
  }

  lemma OneChainTooFew(raw: seq<Link>, s: Link, a: Link, b: Link, cs: seq<seq<int>>)
    requires raw == [s, a, b]
    ensures !Contracts(raw, {(0, 1), (0, 2)}, cs, [Fused(s, b)])
  {
    var joins := {(0, 1), (0, 2)};
    if Contracts(raw, joins, cs, [Fused(s, b)]) {
      var p := cs[0];
      assert Covered(cs, 1) && Covered(cs, 2);
      assert 1 in p && 2 in p;
      NotBoth(raw, p);
    }
  }

  lemma NotBoth(raw: seq<Link>, p: seq<int>)
    requires Chain(raw, {(0, 1), (0, 2)}, p)
    ensures !(1 in p && 2 in p)
  {
    if |p| > 1 {
      StepsOut(raw, p, 1);
      if |p| > 2 {
        StepsOut(raw, p, 2);
      }
    }
  }

  lemma StepsOut(raw: seq<Link>, p: seq<int>, k: nat)
    requires Chain(raw, {(0, 1), (0, 2)}, p) && 0 < k < |p|
    ensures p[k - 1] == 0 && (p[k] == 1 || p[k] == 2)
  {
    assert (p[k - 1], p[k]) in {(0, 1), (0, 2)};
  }
}
