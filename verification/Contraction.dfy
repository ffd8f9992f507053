/** Path contraction of a link graph, stated without reference to any algorithm. */
module Contraction {
  import opened Collections
  import opened Links

  /** Pairs of link indices: the first link is to be fused with the second. */
  type Joins = set<(int, int)>

  /** Each join fuses two links at a shared node. */
  ghost predicate Linked(raw: seq<Link>, joins: Joins) {
    forall j :: j in joins ==> 0 <= j.0 < |raw| && 0 <= j.1 < |raw| && raw[j.0].dst == raw[j.1].src
  }

  /** Besides, no link is the first or the second half of two joins. */
  ghost predicate Matching(raw: seq<Link>, joins: Joins) {
    && Linked(raw, joins)
    && (forall j, k :: j in joins && k in joins && (j.0 == k.0 || j.1 == k.1) ==> j == k)
  }

  /** Acyclic: every link goes up in some ranking of the instances. */
  ghost predicate Ranked(raw: seq<Link>, rank: string -> int) {
    forall i :: 0 <= i < |raw| ==> rank(raw[i].src) < rank(raw[i].dst)
  }

  /** Links that follow one another by joins. */
  ghost predicate Chain(raw: seq<Link>, joins: Joins, p: seq<int>) {
    && p != []
    && (forall k :: 0 <= k < |p| ==> 0 <= p[k] < |raw|)
    && (forall k :: 0 < k < |p| ==> (p[k - 1], p[k]) in joins)
  }

  ghost predicate Maximal(joins: Joins, p: seq<int>)
    requires p != []
  {
    forall j :: j in joins ==> j.0 != p[|p| - 1] && j.1 != p[0]
  }

  /** What a chain is fused into: the source end of its head, the destination end of its tail. */
  function Span(raw: seq<Link>, p: seq<int>): Link
    requires p != [] && forall k :: 0 <= k < |p| ==> 0 <= p[k] < |raw|
  {
    var head, tail := raw[p[0]], raw[p[|p| - 1]];
    if |p| == 1 then head
    else Link(head.srcPort, head.src, head.srcFormat, tail.dstPort, tail.dst, tail.dstFormats, SourceLink)
  }

  /** The maximal chains, in the order of their least members, partition the links. */
  ghost predicate Partition(raw: seq<Link>, joins: Joins, paths: seq<seq<int>>) {
    && (forall k :: 0 <= k < |paths| ==> Chain(raw, joins, paths[k]) && Maximal(joins, paths[k]))
    && (forall i :: 0 <= i < |raw| ==> Covered(paths, i))
    && (forall k, l :: 0 <= k < l < |paths| ==> Before(paths[k], paths[l]))
  }

  ghost predicate Covered(paths: seq<seq<int>>, i: int) {
    exists k :: 0 <= k < |paths| && i in paths[k]
  }

  /** Some member of `p` precedes every member of `q`. */
  ghost predicate Before(p: seq<int>, q: seq<int>) {
    exists i :: i in p && forall j :: j in q ==> i < j
  }

  /** One link per maximal chain. */
  ghost predicate Contracts(raw: seq<Link>, joins: Joins, paths: seq<seq<int>>, result: seq<Link>) {
    && Partition(raw, joins, paths)
    && |result| == |paths|
    && forall k :: 0 <= k < |paths| ==> result[k] == Span(raw, paths[k])
  }

  // ---------------------------------------------------------------- chains

  lemma {:induction false} ChainRises(raw: seq<Link>, joins: Joins, p: seq<int>, rank: string -> int, j: nat, k: nat)
    requires Linked(raw, joins) && Ranked(raw, rank) && Chain(raw, joins, p) && j < k < |p|
    ensures rank(raw[p[j]].src) < rank(raw[p[k]].src) && rank(raw[p[j]].dst) < rank(raw[p[k]].dst)
  {
    assert (p[k - 1], p[k]) in joins;
    if j < k - 1 {
      ChainRises(raw, joins, p, rank, j, k - 1);
    }
  }

  /** Links with a common start, or a common end, are not on one chain. */
  lemma NotOneChain(raw: seq<Link>, joins: Joins, p: seq<int>, rank: string -> int, x: int, y: int)
    requires Linked(raw, joins) && Ranked(raw, rank) && Chain(raw, joins, p) && x in p && y in p && x != y
    ensures raw[x].src != raw[y].src && raw[x].dst != raw[y].dst
  {
    var j :| 0 <= j < |p| && p[j] == x;
    var k :| 0 <= k < |p| && p[k] == y;
    if j < k {
      ChainRises(raw, joins, p, rank, j, k);
    } else {
      ChainRises(raw, joins, p, rank, k, j);
    }
  }

  /** From a common member on, two maximal chains agree... */
  lemma {:induction false} AgreeForward(raw: seq<Link>, joins: Joins, p: seq<int>, q: seq<int>, k: nat, l: nat, n: nat)
    requires Matching(raw, joins)
    requires Chain(raw, joins, p) && Maximal(joins, p) && Chain(raw, joins, q) && Maximal(joins, q)
    requires k < |p| && l < |q| && p[k] == q[l] && k + n < |p|
    ensures l + n < |q| && p[k + n] == q[l + n]
  {
    if n > 0 {
      AgreeForward(raw, joins, p, q, k, l, n - 1);
      assert (p[k + n - 1], p[k + n]) in joins;
      assert l + n < |q|;
      assert (q[l + n - 1], q[l + n]) in joins;
    }
  }

  /** ... and back to their heads. */
  lemma {:induction false} AgreeBackward(raw: seq<Link>, joins: Joins, p: seq<int>, q: seq<int>, k: nat, l: nat)
    requires Matching(raw, joins)
    requires Chain(raw, joins, p) && Maximal(joins, p) && Chain(raw, joins, q) && Maximal(joins, q)
    requires k < |p| && l < |q| && p[k] == q[l]
    ensures k == l && p[0] == q[0]
  {
    assert l > 0 ==> (q[l - 1], q[l]) in joins;
    assert k > 0 ==> (p[k - 1], p[k]) in joins;
    if k > 0 {
      AgreeBackward(raw, joins, p, q, k - 1, l - 1);
    }
  }

  /** Maximal chains with a common member are equal. */
  lemma ChainUnique(raw: seq<Link>, joins: Joins, p: seq<int>, q: seq<int>, i: int)
    requires Matching(raw, joins)
    requires Chain(raw, joins, p) && Maximal(joins, p) && Chain(raw, joins, q) && Maximal(joins, q)
    requires i in p && i in q
    ensures p == q
  {
    var k :| 0 <= k < |p| && p[k] == i;
    var l :| 0 <= l < |q| && q[l] == i;
    AgreeBackward(raw, joins, p, q, k, l);
    AgreeForward(raw, joins, p, q, 0, 0, |p| - 1);
    AgreeForward(raw, joins, q, p, 0, 0, |q| - 1);
    forall n | 0 <= n < |p| ensures p[n] == q[n] {
      AgreeForward(raw, joins, p, q, 0, 0, n);
    }
  }

  // ---------------------------------------------------------------- the contraction is unique

  /** A chain of one partition occurs in the other. */
  lemma InOther(raw: seq<Link>, joins: Joins, ps: seq<seq<int>>, qs: seq<seq<int>>, k: nat) returns (l: nat)
    requires Matching(raw, joins) && Partition(raw, joins, ps) && Partition(raw, joins, qs) && k < |ps|
    ensures l < |qs| && qs[l] == ps[k]
  {
    var i := ps[k][0];
    assert Covered(qs, i);
    l :| l < |qs| && i in qs[l];
    ChainUnique(raw, joins, ps[k], qs[l], i);
  }

  lemma BeforeAsymmetric(p: seq<int>, q: seq<int>)
    requires Before(p, q)
    ensures !Before(q, p) && p != q
  {
  }

  /** With equal beginnings, the next chain of one partition cannot come later in the other. */
  lemma NextNotLater(raw: seq<Link>, joins: Joins, ps: seq<seq<int>>, qs: seq<seq<int>>, k: nat, l: nat)
    requires Matching(raw, joins) && Partition(raw, joins, ps) && Partition(raw, joins, qs)
    requires k < |ps| && k <= |qs| && ps[..k] == qs[..k]
    requires l < |qs| && qs[l] == ps[k]
    ensures l == k
  {
    forall i | 0 <= i < k ensures qs[i] != ps[k] {
      assert qs[i] == qs[..k][i] == ps[..k][i] == ps[i];
      BeforeAsymmetric(ps[i], ps[k]);
    }
    if k < l {
      BeforeAsymmetric(qs[k], qs[l]);
      var m := InOther(raw, joins, qs, ps, k);
      forall i | 0 <= i < k ensures ps[i] != qs[k] {
        assert ps[i] == ps[..k][i] == qs[..k][i] == qs[i];
        BeforeAsymmetric(qs[i], qs[k]);
      }
    }
  }

  lemma {:induction false} PartitionUnique(raw: seq<Link>, joins: Joins, ps: seq<seq<int>>, qs: seq<seq<int>>, n: nat)
    requires Matching(raw, joins) && Partition(raw, joins, ps) && Partition(raw, joins, qs)
    requires n <= |ps|
    ensures n <= |qs| && ps[..n] == qs[..n]
  {
    if n > 0 {
      var k := n - 1;
      PartitionUnique(raw, joins, ps, qs, k);
      var l := InOther(raw, joins, ps, qs, k);
      NextNotLater(raw, joins, ps, qs, k, l);
      assert ps[..n] == ps[..k] + [ps[k]] && qs[..n] == qs[..k] + [qs[k]];
    }
  }

  /** The joins alone determine the contracted links and their order. */
  lemma ContractionUnique(raw: seq<Link>, joins: Joins,
                          ps: seq<seq<int>>, r: seq<Link>, qs: seq<seq<int>>, r': seq<Link>)
    requires Matching(raw, joins) && Contracts(raw, joins, ps, r) && Contracts(raw, joins, qs, r')
    ensures ps == qs && r == r'
  {
    PartitionUnique(raw, joins, ps, qs, |ps|);
    PartitionUnique(raw, joins, qs, ps, |qs|);
    assert ps[..|ps|] == ps && qs[..|qs|] == qs;
  }

  // ---------------------------------------------------------------- reachability

  /** A walk of at least one link from `u` to `v`. */
  ghost predicate Walk(links: seq<Link>, w: seq<int>, u: string, v: string) {
    && w != []
    && (forall k :: 0 <= k < |w| ==> 0 <= w[k] < |links|)
    && (forall k :: 0 < k < |w| ==> links[w[k - 1]].dst == links[w[k]].src)
    && links[w[0]].src == u && links[w[|w| - 1]].dst == v
  }

  ghost predicate Reaches(links: seq<Link>, u: string, v: string) {
    exists w :: Walk(links, w, u, v)
  }

  /** The instance at which two links are joined. */
  ghost predicate Joined(raw: seq<Link>, joins: Joins, n: string)
    requires Matching(raw, joins)
  {
    exists j :: j in joins && raw[j.0].dst == n
  }

  /** Joined instances have a single input link and a single output link. */
  ghost predicate OneInOneOut(raw: seq<Link>, joins: Joins)
    requires Matching(raw, joins)
  {
    forall j, i :: j in joins && 0 <= i < |raw| ==>
                     && (raw[i].dst == raw[j.0].dst ==> i == j.0)
                     && (raw[i].src == raw[j.0].dst ==> i == j.1)
  }

  /** A walk that enters a maximal chain at its head and ends at a kept instance runs through it. */
  lemma {:induction false} WalkFollows(raw: seq<Link>, joins: Joins, p: seq<int>, w: seq<int>, u: string, v: string, k: nat)
    requires Matching(raw, joins) && OneInOneOut(raw, joins) && Chain(raw, joins, p)
    requires Walk(raw, w, u, v) && !Joined(raw, joins, v) && w[0] == p[0] && k < |p|
    ensures k < |w| && w[k] == p[k]
  {
    if k > 0 {
      WalkFollows(raw, joins, p, w, u, v, k - 1);
      var j := (p[k - 1], p[k]);
      assert j in joins;
      assert Joined(raw, joins, raw[j.0].dst);
      assert raw[w[k]].src == raw[j.0].dst;
    }
  }

  lemma OnlyHeadKept(raw: seq<Link>, joins: Joins, p: seq<int>, l: nat)
    requires Matching(raw, joins) && Chain(raw, joins, p) && l < |p|
    ensures l > 0 ==> Joined(raw, joins, raw[p[l]].src)
  {
    assert l > 0 ==> (p[l - 1], p[l]) in joins;
  }

  /** The chain a walk starts with, from a kept instance, and where it leaves the walk. */
  lemma FirstChain(raw: seq<Link>, joins: Joins, paths: seq<seq<int>>, w: seq<int>, u: string, v: string)
    returns (k: nat)
    requires Matching(raw, joins) && OneInOneOut(raw, joins) && Partition(raw, joins, paths)
    requires !Joined(raw, joins, u) && !Joined(raw, joins, v) && Walk(raw, w, u, v)
    ensures k < |paths| && Chain(raw, joins, paths[k])
    ensures |paths[k]| <= |w| && w[..|paths[k]|] == paths[k]
    ensures !Joined(raw, joins, raw[paths[k][|paths[k]| - 1]].dst)
  {
    assert Covered(paths, w[0]);
    k :| 0 <= k < |paths| && w[0] in paths[k];
    var p := paths[k];
    var l :| 0 <= l < |p| && p[l] == w[0];
    OnlyHeadKept(raw, joins, p, l);
    forall i | 0 <= i < |p| ensures i < |w| && w[i] == p[i] {
      WalkFollows(raw, joins, p, w, u, v, i);
    }
    WalkFollows(raw, joins, p, w, u, v, |p| - 1);
  }

  lemma {:induction false} RawWalkContracts(raw: seq<Link>, joins: Joins, paths: seq<seq<int>>, result: seq<Link>,
                         w: seq<int>, u: string, v: string) returns (x: seq<int>)
    requires Matching(raw, joins) && OneInOneOut(raw, joins) && Contracts(raw, joins, paths, result)
    requires !Joined(raw, joins, u) && !Joined(raw, joins, v) && Walk(raw, w, u, v)
    ensures Walk(result, x, u, v)
    decreases |w|
  {
    var k := FirstChain(raw, joins, paths, w, u, v);
    var p := paths[k];
    var n := raw[p[|p| - 1]].dst;
    assert result[k] == Span(raw, p);
    assert p[0] == w[..|p|][0] && p[|p| - 1] == w[..|p|][|p| - 1];
    assert result[k].src == u && result[k].dst == n;
    if |w| == |p| {
      x := [k];
    } else {
      assert Walk(raw, w[|p|..], n, v);
      var y := RawWalkContracts(raw, joins, paths, result, w[|p|..], n, v);
      x := [k] + y;
    }
  }

  lemma {:induction false} ContractedWalkExpands(raw: seq<Link>, joins: Joins, paths: seq<seq<int>>, result: seq<Link>,
                              x: seq<int>, u: string, v: string) returns (w: seq<int>)
    requires Matching(raw, joins) && Contracts(raw, joins, paths, result) && Walk(result, x, u, v)
    ensures Walk(raw, w, u, v)
    decreases |x|
  {
    var p := paths[x[0]];
    assert result[x[0]] == Span(raw, p);
    if |x| == 1 {
      w := p;
    } else {
      var n := result[x[0]].dst;
      assert Walk(result, x[1..], n, v);
      var rest := ContractedWalkExpands(raw, joins, paths, result, x[1..], n, v);
      w := p + rest;
    }
  }

  /** Contraction leaves the reachability between kept instances unchanged. */
  lemma ReachabilityKept(raw: seq<Link>, joins: Joins, paths: seq<seq<int>>, result: seq<Link>, u: string, v: string)
    requires Matching(raw, joins) && OneInOneOut(raw, joins) && Contracts(raw, joins, paths, result)
    requires !Joined(raw, joins, u) && !Joined(raw, joins, v)
    ensures Reaches(raw, u, v) <==> Reaches(result, u, v)
  {
    if w :| Walk(raw, w, u, v) {
      var x := RawWalkContracts(raw, joins, paths, result, w, u, v);
    }
    if x :| Walk(result, x, u, v) {
      var w := ContractedWalkExpands(raw, joins, paths, result, x, u, v);
    }
  }

  // ----- Where contracted links start and end -----

  /** Link `l` leaves where link `h` does: same instance, port and format. */
  predicate StartsLike(l: Link, h: Link) {
    l.src == h.src && l.srcPort == h.srcPort && l.srcFormat == h.srcFormat
  }

  /** Link `l` ends where link `t` does: same instance, port and accepted formats. */
  predicate EndsLike(l: Link, t: Link) {
    l.dst == t.dst && l.dstPort == t.dstPort && l.dstFormats == t.dstFormats
  }

  /** No join puts a link in front of `h`. */
  ghost predicate NothingBefore(raw: seq<Link>, joins: Joins, h: int) {
    0 <= h < |raw| && forall j :: j in joins ==> j.1 != h
  }

  /** No join puts a link behind `t`. */
  ghost predicate NothingBehind(raw: seq<Link>, joins: Joins, t: int) {
    0 <= t < |raw| && forall j :: j in joins ==> j.0 != t
  }

  /** Joins lead from `h` to `t`. */
  ghost predicate Leads(raw: seq<Link>, joins: Joins, h: int, t: int) {
    exists p :: Chain(raw, joins, p) && p[0] == h && p[|p| - 1] == t
  }

  /** The links of a contraction start exactly where the raw links do that no join puts another in front of, each once,
      and end exactly where those do that no join puts another behind. Joins lead from where a link starts to where it
      ends. A link that no join touches is as it was. */
  lemma ContractedEnds(raw: seq<Link>, joins: Joins, paths: seq<seq<int>>, result: seq<Link>)
    returns (heads: seq<int>, tails: seq<int>)
    requires Matching(raw, joins) && Contracts(raw, joins, paths, result)
    ensures |heads| == |tails| == |result| && NoDuplicates(heads) && NoDuplicates(tails)
    ensures forall h :: h in heads <==> NothingBefore(raw, joins, h)
    ensures forall t :: t in tails <==> NothingBehind(raw, joins, t)
    ensures forall k :: 0 <= k < |result| ==>
              && 0 <= heads[k] < |raw| && 0 <= tails[k] < |raw| && Leads(raw, joins, heads[k], tails[k])
              && StartsLike(result[k], raw[heads[k]]) && EndsLike(result[k], raw[tails[k]])
              && (heads[k] == tails[k] && NothingBehind(raw, joins, heads[k]) ==> result[k] == raw[heads[k]])
  {
    heads := seq(|paths|, k requires 0 <= k < |paths| => FirstOf(paths[k]));
    tails := seq(|paths|, k requires 0 <= k < |paths| => LastOf(paths[k]));
    forall k | 0 <= k < |paths|
      ensures heads[k] in paths[k] && tails[k] in paths[k]
      ensures NothingBefore(raw, joins, heads[k]) && NothingBehind(raw, joins, tails[k])
      ensures Leads(raw, joins, heads[k], tails[k])
      ensures StartsLike(result[k], raw[heads[k]]) && EndsLike(result[k], raw[tails[k]])
      ensures heads[k] == tails[k] && NothingBehind(raw, joins, heads[k]) ==> result[k] == raw[heads[k]]
    {
      SpanEnds(raw, joins, paths[k], result[k]);
    }
    forall h | NothingBefore(raw, joins, h) ensures h in heads {
      var k := HeadOfChain(raw, joins, paths, h);
      assert heads[k] == h;
    }
    forall t | NothingBehind(raw, joins, t) ensures t in tails {
      var k := TailOfChain(raw, joins, paths, t);
      assert tails[k] == t;
    }
    assert Partition(raw, joins, paths);
    hide *;
    forall j, k | 0 <= j < k < |paths| ensures heads[j] != heads[k] && tails[j] != tails[k] {
      ChainsApart(raw, joins, paths, j, k, heads[j]);
      ChainsApart(raw, joins, paths, j, k, tails[j]);
    }
  }

  function FirstOf(p: seq<int>): int { if p == [] then 0 else p[0] }

  function LastOf(p: seq<int>): int { if p == [] then 0 else p[|p| - 1] }

  lemma SpanEnds(raw: seq<Link>, joins: Joins, p: seq<int>, l: Link)
    requires Chain(raw, joins, p) && Maximal(joins, p) && l == Span(raw, p)
    ensures FirstOf(p) in p && LastOf(p) in p
    ensures NothingBefore(raw, joins, FirstOf(p)) && NothingBehind(raw, joins, LastOf(p))
    ensures Leads(raw, joins, FirstOf(p), LastOf(p))
    ensures StartsLike(l, raw[FirstOf(p)]) && EndsLike(l, raw[LastOf(p)])
    ensures FirstOf(p) == LastOf(p) && NothingBehind(raw, joins, FirstOf(p)) ==> l == raw[FirstOf(p)]
  {
    InnerJoined(raw, joins, p, 0);
  }

  /** Different chains of a partition have no link in common. */
  lemma ChainsApart(raw: seq<Link>, joins: Joins, paths: seq<seq<int>>, j: int, k: int, i: int)
    requires Matching(raw, joins) && Partition(raw, joins, paths) && 0 <= j < k < |paths|
    ensures !(i in paths[j] && i in paths[k])
  {
    if i in paths[j] && i in paths[k] {
      ChainUnique(raw, joins, paths[j], paths[k], i);
      NotBeforeItself(paths[j]);
    }
  }

  lemma NotBeforeItself(p: seq<int>)
    ensures !Before(p, p)
  {
  }

  lemma InnerJoined(raw: seq<Link>, joins: Joins, p: seq<int>, l: nat)
    requires Chain(raw, joins, p) && l < |p|
    ensures l > 0 ==> (p[l - 1], p[l]) in joins
    ensures l + 1 < |p| ==> (p[l], p[l + 1]) in joins
  {
  }

  lemma HeadOfChain(raw: seq<Link>, joins: Joins, paths: seq<seq<int>>, h: int) returns (k: nat)
    requires Partition(raw, joins, paths) && NothingBefore(raw, joins, h)
    ensures k < |paths| && Chain(raw, joins, paths[k]) && paths[k][0] == h
  {
    assert Covered(paths, h);
    k :| 0 <= k < |paths| && h in paths[k];
    var p := paths[k];
    var l :| 0 <= l < |p| && p[l] == h;
    InnerJoined(raw, joins, p, l);
  }

  lemma TailOfChain(raw: seq<Link>, joins: Joins, paths: seq<seq<int>>, t: int) returns (k: nat)
    requires Partition(raw, joins, paths) && NothingBehind(raw, joins, t)
    ensures k < |paths| && Chain(raw, joins, paths[k]) && paths[k][|paths[k]| - 1] == t
  {
    assert Covered(paths, t);
    k :| 0 <= k < |paths| && t in paths[k];
    var p := paths[k];
    var l :| 0 <= l < |p| && p[l] == t;
    InnerJoined(raw, joins, p, l);
  }
}
