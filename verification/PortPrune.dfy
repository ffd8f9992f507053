/** Removal of the links at disabled ports, and of all links that have no use (or no supply) left. */
module PortPrune {
  import opened Collections
  import opened Links
  import opened Contraction

  datatype PortType = Input | Output
  datatype PortRequest = PortRequest(node: string, portId: int, portType: PortType)

  /** Links by index, seen from the end at which a cascade takes them away (`near`): disabling an input
      port walks towards the sources and removes links from the output lists of their source nodes;
      disabling an output port is the mirror image. */
  datatype Ends = Ends(near: seq<string>, far: seq<string>)

  ghost predicate Oriented(g: Ends, rank: string -> int) {
    |g.far| == |g.near| && forall e :: 0 <= e < |g.near| ==> rank(g.near[e]) < rank(g.far[e])
  }

  /** Link `x` is at node `n` and has not been taken from its list. */
  predicate Left(names: seq<string>, gone: set<int>, n: string, x: int) {
    0 <= x < |names| && names[x] == n && x !in gone
  }

  /** A node that has lost a link to `links` and has none left besides. */
  ghost predicate Drained(near: seq<string>, gone: set<int>, links: set<int>, n: string) {
    && (exists e :: e in links && 0 <= e < |near| && near[e] == n)
    && (forall x :: Left(near, gone, n, x) ==> x in links)
  }

  /** Closed under: a node that lost all its links at one end loses all it has left at the other. */
  ghost predicate Closed(g: Ends, goneNear: set<int>, goneFar: set<int>, links: set<int>) {
    forall n :: Drained(g.near, goneNear, links, n) ==> forall y :: Left(g.far, goneFar, n, y) ==> y in links
  }

  /** In the least closed set that contains `starts`. */
  ghost predicate InCascade(g: Ends, goneNear: set<int>, goneFar: set<int>, starts: set<int>, e: int) {
    forall links :: Closed(g, goneNear, goneFar, links) && starts <= links ==> e in links
  }

  ghost function CascadeOf(g: Ends, goneNear: set<int>, goneFar: set<int>, starts: set<int>): set<int> {
    set e | e in UpTo(|g.near|) && InCascade(g, goneNear, goneFar, starts, e)
  }

  /** The links of the cascade are still in the lists they are to be taken from. */
  ghost predicate Fresh(g: Ends, goneNear: set<int>, goneFar: set<int>, start: int) {
    CascadeOf(g, goneNear, goneFar, {start}) !! goneNear
  }

  // ----- The least set -----

  /** The cascade is closed and contains the starts ... */
  lemma CascadeLeast(g: Ends, goneNear: set<int>, goneFar: set<int>, starts: set<int>)
    requires |g.far| == |g.near| && starts <= UpTo(|g.near|)
    ensures starts <= CascadeOf(g, goneNear, goneFar, starts)
    ensures Closed(g, goneNear, goneFar, CascadeOf(g, goneNear, goneFar, starts))
  {
    var least := CascadeOf(g, goneNear, goneFar, starts);
    forall n, y | Drained(g.near, goneNear, least, n) && Left(g.far, goneFar, n, y) ensures y in least {
      forall links | Closed(g, goneNear, goneFar, links) && starts <= links ensures y in links {
        DrainedMore(g.near, goneNear, least, links, n);
      }
    }
  }

  lemma DrainedMore(near: seq<string>, gone: set<int>, less: set<int>, more: set<int>, n: string)
    requires less <= more && Drained(near, gone, less, n)
    ensures Drained(near, gone, more, n)
  {
    var e :| e in less && 0 <= e < |near| && near[e] == n;
    assert e in more;
  }

  /** ... and lies within every other such set. */
  lemma CascadeWithin(g: Ends, goneNear: set<int>, goneFar: set<int>, starts: set<int>, links: set<int>)
    requires Closed(g, goneNear, goneFar, links) && starts <= links
    ensures CascadeOf(g, goneNear, goneFar, starts) <= links
  {
    forall e | e in CascadeOf(g, goneNear, goneFar, starts) ensures e in links {
      assert InCascade(g, goneNear, goneFar, starts, e);
    }
  }

  // ----- The worklist -----

  /** instance -> indices of its links, in link order */
  type LinkLists = map<string, seq<int>>

  function At(lists: LinkLists, n: string): seq<int> {
    if n in lists then lists[n] else []
  }

  predicate Ascending(s: seq<int>) {
    forall i, j :: 0 <= i < j < |s| ==> s[i] < s[j]
  }

  /** The lists hold, in order, the links at each node that are not gone. */
  ghost predicate Lists(names: seq<string>, gone: set<int>, lists: LinkLists) {
    forall n :: Ascending(At(lists, n)) && forall x :: x in At(lists, n) <==> Left(names, gone, n, x)
  }

  /** A list without one of its members. */
  method EraseFound(list: seq<int>, x: int) returns (found: bool, r: seq<int>)
    requires Ascending(list)
    ensures found <==> x in list
    ensures Ascending(r) && forall y :: y in r <==> y in list && y != x
  {
    var k := 0;
    while k < |list| && list[k] != x
      invariant 0 <= k <= |list| && x !in list[..k]
    {
      k := k + 1;
    }
    found := k < |list|;
    r := list;
    if found {
      r := list[..k] + list[k + 1..];
    }
  }

  /** `done` are the links removed so far, `queue` those waiting; both together are `seen`. */
  ghost predicate QueueOk(g: Ends, done: set<int>, queue: seq<int>, seen: set<int>) {
    && done <= seen <= UpTo(|g.near|)
    && (forall x :: x in queue ==> x in seen && x !in done)
    && (forall x :: x in seen ==> x in done || x in queue)
    && (forall i, j :: 0 <= i < j < |queue| ==> queue[i] != queue[j])
  }

  /** Exactly the start and the links at the far end of drained nodes are seen. */
  ghost predicate Supported(g: Ends, goneNear: set<int>, goneFar: set<int>, start: int, done: set<int>, seen: set<int>)
  {
    && start in seen
    && (forall n, y :: Drained(g.near, goneNear, done, n) && Left(g.far, goneFar, n, y) ==> y in seen)
    && (forall y :: y in seen && y != start && 0 <= y < |g.far| ==> Drained(g.near, goneNear, done, g.far[y]))
  }

  ghost predicate Below(g: Ends, rank: string -> int, start: int, seen: set<int>)
    requires 0 <= start < |g.near|
  {
    forall e :: e in seen && 0 <= e < |g.near| ==> rank(g.near[e]) <= rank(g.near[start])
  }

  ghost predicate AllInCascade(g: Ends, goneNear: set<int>, goneFar: set<int>, start: int, seen: set<int>) {
    forall e :: e in seen ==> InCascade(g, goneNear, goneFar, {start}, e)
  }

  function Elements(s: seq<int>): set<int> {
    set x | x in s
  }

  lemma TurnLists(names: seq<string>, gone: set<int>, lists: LinkLists, e: int, rest: seq<int>)
    requires Lists(names, gone, lists) && 0 <= e < |names| && Ascending(rest)
    requires forall x :: x in rest <==> x in At(lists, names[e]) && x != e
    ensures Lists(names, gone + {e}, lists[names[e] := rest])
  {
    var lists' := lists[names[e] := rest];
    forall n ensures Ascending(At(lists', n)) && forall x :: x in At(lists', n) <==> Left(names, gone + {e}, n, x) {
      assert At(lists', n) == if n == names[e] then rest else At(lists, n);
      assert forall x :: x in At(lists, n) <==> Left(names, gone, n, x);
    }
  }

  /** Which nodes are drained after one more removal. */
  lemma TurnDrained(near: seq<string>, gone: set<int>, done: set<int>, e: int, m: string)
    requires 0 <= e < |near| && e !in gone + done
    ensures m != near[e] ==> (Drained(near, gone, done + {e}, m) <==> Drained(near, gone, done, m))
    ensures !Drained(near, gone, done, near[e])
    ensures Drained(near, gone, done + {e}, near[e]) <==> forall x :: Left(near, gone + done, near[e], x) ==> x == e
  {
    assert Left(near, gone, near[e], e) && e in done + {e};
    if m != near[e] && Drained(near, gone, done, m) {
      DrainedMore(near, gone, done, done + {e}, m);
    }
    forall x | Left(near, gone, near[e], x) ensures x in done || Left(near, gone + done, near[e], x) {
    }
  }

  lemma TurnSupported(g: Ends, goneNear: set<int>, goneFar: set<int>, start: int, done: set<int>, seen: set<int>,
                      e: int, more: set<int>)
    requires |g.far| == |g.near| && 0 <= e < |g.near| && e !in goneNear + done
    requires Supported(g, goneNear, goneFar, start, done, seen)
    requires Drained(g.near, goneNear, done + {e}, g.near[e])
             ==> forall y :: y in more <==> Left(g.far, goneFar, g.near[e], y)
    requires !Drained(g.near, goneNear, done + {e}, g.near[e]) ==> more == {}
    ensures Supported(g, goneNear, goneFar, start, done + {e}, seen + more)
  {
    forall n, y | Drained(g.near, goneNear, done + {e}, n) && Left(g.far, goneFar, n, y) ensures y in seen + more {
      TurnDrained(g.near, goneNear, done, e, n);
    }
    forall y | y in seen + more && y != start && 0 <= y < |g.far|
      ensures Drained(g.near, goneNear, done + {e}, g.far[y])
    {
      if y in more {
        assert Left(g.far, goneFar, g.near[e], y);
      } else {
        TurnDrained(g.near, goneNear, done, e, g.far[y]);
      }
    }
  }

  /** The links pulled in by the node at which `e` is being removed were not seen before. */
  lemma PulledAreNew(g: Ends, goneNear: set<int>, goneFar: set<int>, rank: string -> int, start: int,
                     done: set<int>, seen: set<int>, e: int, y: int)
    requires Oriented(g, rank) && 0 <= start < |g.near| && 0 <= e < |g.near| && e in seen && e !in goneNear + done
    requires Supported(g, goneNear, goneFar, start, done, seen) && Below(g, rank, start, seen)
    requires Left(g.far, goneFar, g.near[e], y)
    ensures y !in seen && rank(g.near[y]) < rank(g.near[e])
  {
    TurnDrained(g.near, goneNear, done, e, g.far[y]);
  }

  lemma TurnQueue(g: Ends, done: set<int>, queue: seq<int>, seen: set<int>, more: seq<int>)
    requires QueueOk(g, done, queue, seen) && queue != [] && Ascending(more)
    requires forall y :: y in more ==> y !in seen && 0 <= y < |g.near|
    ensures QueueOk(g, done + {queue[0]}, queue[1..] + more, seen + Elements(more))
  {
    assert forall x :: x in queue <==> x == queue[0] || x in queue[1..];
    var queue' := queue[1..] + more;
    assert forall x :: x in queue' <==> x in queue[1..] || x in more;
    forall i, j | 0 <= i < j < |queue'| ensures queue'[i] != queue'[j] {
      if i < |queue| - 1 <= j {
        assert queue'[i] in queue && queue'[j] in more;
      }
    }
  }

  lemma TurnBelow(g: Ends, rank: string -> int, start: int, seen: set<int>, e: int, more: seq<int>)
    requires 0 <= start < |g.near| && 0 <= e < |g.near| && e in seen && Below(g, rank, start, seen)
    requires forall y :: y in more ==> 0 <= y < |g.near| && rank(g.near[y]) < rank(g.near[e])
    ensures Below(g, rank, start, seen + Elements(more))
  {
  }

  /** A pulled link is in every closed set that has the rest. */
  lemma TurnCascade(g: Ends, goneNear: set<int>, goneFar: set<int>, start: int, done: set<int>, seen: set<int>,
                    n: string, more: set<int>)
    requires AllInCascade(g, goneNear, goneFar, start, seen) && done <= seen
    requires Drained(g.near, goneNear, done, n) && forall y :: y in more ==> Left(g.far, goneFar, n, y)
    ensures AllInCascade(g, goneNear, goneFar, start, seen + more)
  {
    forall y | y in more ensures InCascade(g, goneNear, goneFar, {start}, y) {
      forall links | Closed(g, goneNear, goneFar, links) && {start} <= links ensures y in links {
        forall x | x in done ensures x in links {
          assert InCascade(g, goneNear, goneFar, {start}, x);
        }
        DrainedMore(g.near, goneNear, done, links, n);
      }
    }
  }

  /** When nothing waits any more, the removed links are the cascade. */
  lemma CascadeDone(g: Ends, goneNear: set<int>, goneFar: set<int>, start: int, done: set<int>, seen: set<int>)
    requires QueueOk(g, done, [], seen) && done !! goneNear
    requires Supported(g, goneNear, goneFar, start, done, seen)
    requires AllInCascade(g, goneNear, goneFar, start, seen)
    ensures done == CascadeOf(g, goneNear, goneFar, {start}) && Fresh(g, goneNear, goneFar, start)
  {
    assert forall x :: x in seen ==> x in done;
    assert done == seen;
    assert Closed(g, goneNear, goneFar, done);
    CascadeWithin(g, goneNear, goneFar, {start}, done);
  }

  lemma CascadeStart(g: Ends, goneNear: set<int>, goneFar: set<int>, start: int, rank: string -> int)
    requires 0 <= start < |g.near| && Oriented(g, rank)
    ensures QueueOk(g, {}, [start], {start}) && Supported(g, goneNear, goneFar, start, {}, {start})
    ensures Below(g, rank, start, {start}) && AllInCascade(g, goneNear, goneFar, start, {start})
    ensures |g.far| == |g.near|
  {
  }

  /** The head of the queue; if its node's list does not have it, it was gone before. */
  lemma TurnHead(g: Ends, goneNear: set<int>, goneFar: set<int>, start: int, done: set<int>, queue: seq<int>,
                 seen: set<int>, lists: LinkLists)
    requires QueueOk(g, done, queue, seen) && queue != [] && AllInCascade(g, goneNear, goneFar, start, seen)
    requires Lists(g.near, goneNear + done, lists)
    ensures 0 <= queue[0] < |g.near| && queue[0] in seen && queue[0] !in done && done <= seen
    ensures Ascending(At(lists, g.near[queue[0]]))
    ensures queue[0] in At(lists, g.near[queue[0]]) <==> queue[0] !in goneNear
    ensures queue[0] in goneNear ==> !Fresh(g, goneNear, goneFar, start)
  {
    assert queue[0] in queue;
    var n := g.near[queue[0]];
    assert queue[0] in At(lists, n) <==> Left(g.near, goneNear + done, n, queue[0]);
    assert queue[0] in CascadeOf(g, goneNear, goneFar, {start});
  }

  lemma MembersAt(names: seq<string>, gone: set<int>, lists: LinkLists, n: string)
    requires Lists(names, gone, lists)
    ensures Ascending(At(lists, n))
    ensures forall x :: x in At(lists, n) <==> Left(names, gone, n, x)
    ensures At(lists, n) == [] <==> !exists x :: Left(names, gone, n, x)
  {
    if x :| Left(names, gone, n, x) {
      assert x in At(lists, n);
    }
    if At(lists, n) != [] {
      assert At(lists, n)[0] in At(lists, n);
    }
  }

  /** The links that join the queue after a removal that left `rest`. */
  lemma TurnMore(g: Ends, goneNear: set<int>, goneFar: set<int>, done: set<int>, e: int,
                 lists: LinkLists, pulled: LinkLists)
    requires 0 <= e < |g.near| && e !in goneNear + done
    requires Lists(g.near, goneNear + done + {e}, lists) && Lists(g.far, goneFar, pulled)
    ensures At(lists, g.near[e]) == [] <==> Drained(g.near, goneNear, done + {e}, g.near[e])
    ensures forall y :: y in Elements(At(pulled, g.near[e])) <==> Left(g.far, goneFar, g.near[e], y)
  {
    MembersAt(g.near, goneNear + done + {e}, lists, g.near[e]);
    MembersAt(g.far, goneFar, pulled, g.near[e]);
    TurnDrained(g.near, goneNear, done, e, g.near[e]);
    var n := g.near[e];
    if forall x :: Left(g.near, goneNear + done, n, x) ==> x == e {
      forall x ensures !Left(g.near, goneNear + done + {e}, n, x) {
        assert Left(g.near, goneNear + done + {e}, n, x) ==> Left(g.near, goneNear + done, n, x);
      }
    } else {
      var x :| Left(g.near, goneNear + done, n, x) && x != e;
      assert Left(g.near, goneNear + done + {e}, n, x);
    }
  }

  /** One turn: what the head of the work list adds to it. */
  lemma TurnKeeps(g: Ends, goneNear: set<int>, goneFar: set<int>, rank: string -> int, start: int, done: set<int>,
                  queue: seq<int>, seen: set<int>, e: int, lists: LinkLists, pulled: LinkLists) returns (more: seq<int>)
    requires 0 <= start < |g.near| && Oriented(g, rank) && QueueOk(g, done, queue, seen) && queue != [] && e == queue[0]
    requires 0 <= e < |g.near| && e in seen && e !in goneNear + done && done <= seen
    requires Supported(g, goneNear, goneFar, start, done, seen) && Below(g, rank, start, seen)
    requires AllInCascade(g, goneNear, goneFar, start, seen)
    requires Lists(g.near, goneNear + done + {e}, lists) && Lists(g.far, goneFar, pulled)
    ensures more == if At(lists, g.near[e]) == [] then At(pulled, g.near[e]) else []
    ensures QueueOk(g, done + {e}, queue[1..] + more, seen + Elements(more))
    ensures Supported(g, goneNear, goneFar, start, done + {e}, seen + Elements(more))
    ensures Below(g, rank, start, seen + Elements(more))
    ensures AllInCascade(g, goneNear, goneFar, start, seen + Elements(more))
  {
    assert |g.far| == |g.near|;
    hide *;
    var parent := g.near[e];
    TurnMore(g, goneNear, goneFar, done, e, lists, pulled);
    PulledInRange(g, goneFar, parent);
    forall y | Left(g.far, goneFar, parent, y) ensures y !in seen && rank(g.near[y]) < rank(g.near[e]) {
      PulledAreNew(g, goneNear, goneFar, rank, start, done, seen, e, y);
    }
    MembersAt(g.far, goneFar, pulled, parent);
    more := if At(lists, parent) == [] then At(pulled, parent) else [];
    Nothing(seen);
    TurnQueue(g, done, queue, seen, more);
    TurnBelow(g, rank, start, seen, e, more);
    TurnSupported(g, goneNear, goneFar, start, done, seen, e, Elements(more));
    if At(lists, parent) == [] {
      TurnCascade(g, goneNear, goneFar, start, done + {e}, seen, parent, Elements(more));
    }
  }

  /** The worklist. It fails (where the code would erase past the end of a list) exactly when the cascade
      meets a link taken from its list earlier; otherwise it removes the cascade and nothing else. */
  method Cascade(g: Ends, ghost goneNear: set<int>, ghost goneFar: set<int>, shrinking: LinkLists, pulled: LinkLists,
                 flags: seq<bool>, start: int, ghost rank: string -> int)
    returns (ok: bool, lists: LinkLists, flags': seq<bool>)
    requires 0 <= start < |g.near| == |flags| && Oriented(g, rank)
    requires Lists(g.near, goneNear, shrinking) && Lists(g.far, goneFar, pulled)
    ensures ok <==> Fresh(g, goneNear, goneFar, start)
    ensures |flags'| == |flags|
    ensures ok ==> Lists(g.near, goneNear + CascadeOf(g, goneNear, goneFar, {start}), lists)
    ensures ok ==> forall e :: 0 <= e < |flags| ==>
                                 (flags'[e] <==> flags[e] && e !in CascadeOf(g, goneNear, goneFar, {start}))
  {
    hide *;
    lists, flags' := shrinking, flags;
    var queue := [start];
    ghost var done: set<int>, seen: set<int> := {}, {start};
    CascadeStart(g, goneNear, goneFar, start, rank);
    assert goneNear + done == goneNear;
    ok := true;
    while queue != []
      invariant ok && |flags'| == |flags|
      invariant Lists(g.near, goneNear + done, lists) && QueueOk(g, done, queue, seen)
      invariant done !! goneNear && done <= UpTo(|g.near|)
      invariant Supported(g, goneNear, goneFar, start, done, seen)
      invariant Below(g, rank, start, seen) && AllInCascade(g, goneNear, goneFar, start, seen)
      invariant forall e :: 0 <= e < |flags| ==> (flags'[e] <==> flags[e] && e !in done)
      decreases |g.near| - |done|
    {
      var e := queue[0];
      TurnHead(g, goneNear, goneFar, start, done, queue, seen, lists);
      flags' := flags'[e := false];
      var parent := g.near[e];
      var found, rest := EraseFound(At(lists, parent), e);
      if !found {
        return false, lists, flags';
      }
      TurnLists(g.near, goneNear + done, lists, e, rest);
      AtUpdated(lists, parent, rest);
      lists := lists[parent := rest];
      ghost var more := TurnKeeps(g, goneNear, goneFar, rank, start, done, queue, seen, e, lists, pulled);
      queue := queue[1..];
      if |rest| == 0 {
        queue := queue + At(pulled, parent);
      } else {
        assert queue == queue + more;
      }
      assert goneNear + (done + {e}) == goneNear + done + {e};
      done, seen := done + {e}, seen + Elements(more);
      SubsetCount(done, UpTo(|g.near|));
    }
    CascadeDone(g, goneNear, goneFar, start, done, seen);
  }

  lemma AtUpdated(lists: LinkLists, n: string, list: seq<int>)
    ensures At(lists[n := list], n) == list
  {
  }

  lemma PulledInRange(g: Ends, goneFar: set<int>, n: string)
    ensures forall y :: Left(g.far, goneFar, n, y) ==> 0 <= y < |g.far|
  {
  }

  lemma Nothing(seen: set<int>)
    ensures Elements([]) == {} && Ascending([]) && seen + {} == seen
  {
  }

  // ----- Several requests for one end -----

  /** The links an earlier cascade removed, and what the next one adds, are together the least set for
      all the starts: removing in steps comes to the same as removing at once. */
  lemma CascadesAdd(g: Ends, goneFar: set<int>, starts: set<int>, start: int)
    requires |g.far| == |g.near| && starts + {start} <= UpTo(|g.near|)
    ensures var gone := CascadeOf(g, {}, goneFar, starts);
            CascadeOf(g, {}, goneFar, starts + {start}) == gone + CascadeOf(g, gone, goneFar, {start})
  {
    var gone := CascadeOf(g, {}, goneFar, starts);
    var next := CascadeOf(g, gone, goneFar, {start});
    CascadeLeast(g, {}, goneFar, starts);
    CascadeLeast(g, gone, goneFar, {start});
    forall n, y | Drained(g.near, {}, gone + next, n) && Left(g.far, goneFar, n, y) ensures y in gone + next {
      DrainedByUnion(g.near, gone, next, n);
    }
    CascadeWithin(g, {}, goneFar, starts + {start}, gone + next);
    var all := CascadeOf(g, {}, goneFar, starts + {start});
    CascadeLeast(g, {}, goneFar, starts + {start});
    CascadeWithin(g, {}, goneFar, starts, all);
    ClosedAfter(g, goneFar, gone, all);
    CascadeWithin(g, gone, goneFar, {start}, all);
  }

  lemma DrainedByUnion(near: seq<string>, gone: set<int>, next: set<int>, n: string)
    requires Drained(near, {}, gone + next, n)
    ensures Drained(near, {}, gone, n) || Drained(near, gone, next, n)
  {
    var e :| e in gone + next && 0 <= e < |near| && near[e] == n;
    if forall x :: Left(near, {}, n, x) ==> x in gone {
      assert Left(near, {}, n, e);
    } else {
      var x :| Left(near, {}, n, x) && x !in gone;
      forall x | Left(near, gone, n, x) ensures x in next {
        assert Left(near, {}, n, x);
      }
    }
  }

  /** A set closed in the whole graph that contains what is gone is closed in what remains. */
  lemma ClosedAfter(g: Ends, goneFar: set<int>, gone: set<int>, links: set<int>)
    requires Closed(g, {}, goneFar, links) && gone <= links
    ensures Closed(g, gone, goneFar, links)
  {
    forall n, y | Drained(g.near, gone, links, n) && Left(g.far, goneFar, n, y) ensures y in links {
      assert Drained(g.near, {}, links, n) by {
        forall x | Left(g.near, {}, n, x) ensures x in links {
          assert x in gone || Left(g.near, gone, n, x);
        }
      }
    }
  }

  function Others(starts: seq<int>, i: nat): (r: set<int>)
    requires i < |starts|
    ensures forall x :: x in r <==> exists j :: 0 <= j < |starts| && j != i && starts[j] == x
  {
    set j | 0 <= j < |starts| && j != i :: starts[j]
  }

  /** No start is a link that disabling the others removes anyway. */
  ghost predicate Independent(g: Ends, goneFar: set<int>, starts: seq<int>) {
    forall i :: 0 <= i < |starts| ==> starts[i] !in CascadeOf(g, {}, goneFar, Others(starts, i))
  }

  ghost function LowLinks(g: Ends, rank: string -> int, e: int): set<int>
    requires 0 <= e < |g.near|
  {
    set x | x in UpTo(|g.near|) && rank(g.near[x]) <= rank(g.near[e])
  }

  /** What a link's removal drags along lies at lower nodes than the link itself. */
  lemma LowClosed(g: Ends, goneFar: set<int>, rank: string -> int, links: set<int>, e: int)
    requires Oriented(g, rank) && 0 <= e < |g.near| && Closed(g, {}, goneFar, links)
    ensures Closed(g, {}, goneFar, links + LowLinks(g, rank, e))
    ensures Drained(g.near, {}, links + LowLinks(g, rank, e), g.far[e]) ==> Drained(g.near, {}, links, g.far[e])
  {
    var low := LowLinks(g, rank, e);
    forall n | Drained(g.near, {}, links + low, n) && rank(n) > rank(g.near[e])
      ensures Drained(g.near, {}, links, n)
    {
      var w :| w in links + low && 0 <= w < |g.near| && g.near[w] == n;
      assert w in links;
    }
    forall n, y | Drained(g.near, {}, links + low, n) && Left(g.far, goneFar, n, y) ensures y in links + low {
    }
  }

  /** Dropping a link from a closed set keeps it closed if the link's far node is not drained. */
  lemma ClosedWithout(g: Ends, goneNear: set<int>, goneFar: set<int>, links: set<int>, e: int)
    requires 0 <= e < |g.far| && Closed(g, goneNear, goneFar, links)
    requires !Drained(g.near, goneNear, links, g.far[e])
    ensures Closed(g, goneNear, goneFar, links - {e})
  {
    forall n, y | Drained(g.near, goneNear, links - {e}, n) && Left(g.far, goneFar, n, y) ensures y in links - {e} {
      DrainedMore(g.near, goneNear, links - {e}, links, n);
    }
  }

  predicate Starts(g: Ends, goneFar: set<int>, starts: seq<int>) {
    forall x :: x in starts ==> 0 <= x < |g.near| && x !in goneFar
  }

  /** The node a start enters from keeps one of its links, unless the other starts take the start away. */
  lemma StartNotDrained(g: Ends, goneFar: set<int>, rank: string -> int, starts: seq<int>, i: nat, links: set<int>)
    requires Oriented(g, rank) && Starts(g, goneFar, starts) && i < |starts|
    requires links == CascadeOf(g, {}, goneFar, Others(starts, i)) && starts[i] !in links
    ensures 0 <= starts[i] < |g.near|
    ensures var wide := links + LowLinks(g, rank, starts[i]);
            && Closed(g, {}, goneFar, wide) && Elements(starts) <= wide
            && !Drained(g.near, {}, wide, g.far[starts[i]])
  {
    var e := starts[i];
    assert e in starts;
    OthersInRange(g, goneFar, starts, i);
    CascadeLeast(g, {}, goneFar, Others(starts, i));
    LowClosed(g, goneFar, rank, links, e);
    assert Left(g.far, goneFar, g.far[e], e);
  }

  lemma OthersInRange(g: Ends, goneFar: set<int>, starts: seq<int>, i: nat)
    requires Starts(g, goneFar, starts) && i < |starts|
    ensures Others(starts, i) <= UpTo(|g.near|) && Elements(starts) <= UpTo(|g.near|)
    ensures Elements(starts) == Others(starts, i) + {starts[i]}
  {
    forall x | x in Others(starts, i) ensures x in starts {
    }
  }

  /** A link in a cascade that is no start was pulled in by a drained node. */
  lemma PulledByDrained(g: Ends, goneFar: set<int>, starts: set<int>, y: int)
    requires |g.far| == |g.near| && starts <= UpTo(|g.near|)
    requires y in CascadeOf(g, {}, goneFar, starts) && y !in starts
    ensures Drained(g.near, {}, CascadeOf(g, {}, goneFar, starts), g.far[y])
  {
    var links := CascadeOf(g, {}, goneFar, starts);
    CascadeLeast(g, {}, goneFar, starts);
    if !Drained(g.near, {}, links, g.far[y]) {
      ClosedWithout(g, {}, goneFar, links, y);
      CascadeWithin(g, {}, goneFar, starts, links - {y});
    }
  }

  lemma OthersExtended(starts: seq<int>, s: int, i: nat)
    requires i < |starts|
    ensures Others(starts + [s], i) == Others(starts, i) + {s} && Others(starts + [s], |starts|) == Elements(starts)
  {
    var more := starts + [s];
    forall x | x in Others(starts, i) + {s} ensures x in Others(more, i) {
      if x == s {
        assert more[|starts|] == s;
      } else {
        var j :| 0 <= j < |starts| && j != i && starts[j] == x;
        assert more[j] == x;
      }
    }
    LastOthers(starts, s);
  }

  lemma LastOthers(starts: seq<int>, s: int)
    ensures Others(starts + [s], |starts|) == Elements(starts)
  {
    var more := starts + [s];
    forall x | x in Elements(starts) ensures x in Others(more, |starts|) {
      var j :| 0 <= j < |starts| && starts[j] == x;
      assert more[j] == x;
    }
  }

  lemma CascadeMonotone(g: Ends, goneFar: set<int>, less: set<int>, more: set<int>)
    requires |g.far| == |g.near| && less <= more <= UpTo(|g.near|)
    ensures CascadeOf(g, {}, goneFar, less) <= CascadeOf(g, {}, goneFar, more)
  {
    CascadeLeast(g, {}, goneFar, more);
    CascadeWithin(g, {}, goneFar, less, CascadeOf(g, {}, goneFar, more));
  }

  lemma IndependentPrefix(g: Ends, goneFar: set<int>, starts: seq<int>, s: int)
    requires |g.far| == |g.near| && Starts(g, goneFar, starts + [s]) && Independent(g, goneFar, starts + [s])
    ensures Independent(g, goneFar, starts) && s !in CascadeOf(g, {}, goneFar, Elements(starts))
  {
    LastOthers(starts, s);
    assert (starts + [s])[|starts|] == s;
    forall i | 0 <= i < |starts| ensures starts[i] !in CascadeOf(g, {}, goneFar, Others(starts, i)) {
      OthersExtended(starts, s, i);
      OthersInRange(g, goneFar, starts + [s], i);
      CascadeMonotone(g, goneFar, Others(starts, i), Others(starts + [s], i));
      assert (starts + [s])[i] == starts[i];
    }
  }

  /** If no start is implied by the others, the next cascade does not reach an earlier start. */
  lemma EarlierStartNotReached(g: Ends, goneFar: set<int>, rank: string -> int, starts: seq<int>, s: int, i: nat)
    requires Oriented(g, rank) && Starts(g, goneFar, starts + [s]) && i < |starts|
    requires Independent(g, goneFar, starts + [s])
    ensures starts[i] !in CascadeOf(g, CascadeOf(g, {}, goneFar, Elements(starts)), goneFar, {s})
  {
    var all := starts + [s];
    var e := all[i];
    assert e == starts[i] && e in all;
    var links := CascadeOf(g, {}, goneFar, Others(all, i));
    var wide := links + LowLinks(g, rank, e);
    var gone := CascadeOf(g, {}, goneFar, Elements(starts));
    StartNotDrained(g, goneFar, rank, all, i, links);
    assert forall x :: x in starts ==> x in all;
    CascadeWithin(g, {}, goneFar, Elements(starts), wide);
    ClosedAfter(g, goneFar, gone, wide);
    if Drained(g.near, gone, wide, g.far[e]) {
      DrainedBefore(g.near, gone, wide, g.far[e]);
    }
    ClosedWithout(g, gone, goneFar, wide, e);
    OthersExtended(starts, s, i);
    OthersInRange(g, goneFar, all, i);
    CascadeLeast(g, {}, goneFar, Others(all, i));
    CascadeWithin(g, gone, goneFar, {s}, wide - {e});
  }

  lemma DrainedBefore(near: seq<string>, gone: set<int>, links: set<int>, n: string)
    requires gone <= links && Drained(near, gone, links, n)
    ensures Drained(near, {}, links, n)
  {
    forall x | Left(near, {}, n, x) ensures x in links {
      assert x in gone || Left(near, gone, n, x);
    }
  }

  lemma IndependentIsFresh(g: Ends, goneFar: set<int>, rank: string -> int, starts: seq<int>, s: int)
    requires Oriented(g, rank) && Starts(g, goneFar, starts + [s]) && Independent(g, goneFar, starts + [s])
    ensures Fresh(g, CascadeOf(g, {}, goneFar, Elements(starts)), goneFar, s)
  {
    var gone := CascadeOf(g, {}, goneFar, Elements(starts));
    var next := CascadeOf(g, gone, goneFar, {s});
    IndependentPrefix(g, goneFar, starts, s);
    assert s in starts + [s];
    assert forall x :: x in starts ==> x in starts + [s];
    CascadeLeast(g, gone, goneFar, {s});
    forall x | x in starts ensures x !in next {
      var i :| 0 <= i < |starts| && starts[i] == x;
      EarlierStartNotReached(g, goneFar, rank, starts, s, i);
    }
    forall n, y | Drained(g.near, gone, next - gone, n) && Left(g.far, goneFar, n, y) ensures y in next - gone {
      DrainedMore(g.near, gone, next - gone, next, n);
      if y in gone {
        PulledByDrained(g, goneFar, Elements(starts), y);
        var e :| e in next - gone && 0 <= e < |g.near| && g.near[e] == n;
        assert Left(g.near, {}, n, e);
      }
    }
    CascadeWithin(g, gone, goneFar, {s}, next - gone);
  }

  lemma EarlierStartStaysIndependent(g: Ends, goneFar: set<int>, rank: string -> int, starts: seq<int>, s: int, i: nat)
    requires Oriented(g, rank) && Starts(g, goneFar, starts + [s]) && Independent(g, goneFar, starts)
    requires Fresh(g, CascadeOf(g, {}, goneFar, Elements(starts)), goneFar, s) && i < |starts|
    ensures starts[i] !in CascadeOf(g, {}, goneFar, Others(starts + [s], i))
  {
    hide CascadeOf;
    hide LowLinks;
    var e := starts[i];
    assert e in starts && s in starts + [s] && forall x :: x in starts ==> x in starts + [s];
    var gone := CascadeOf(g, {}, goneFar, Elements(starts));
    var next := CascadeOf(g, gone, goneFar, {s});
    OthersInRange(g, goneFar, starts, i);
    CascadeLeast(g, {}, goneFar, Elements(starts));
    CascadeLeast(g, gone, goneFar, {s});
    StartStays(g, goneFar, rank, starts, i);
    CascadesAdd(g, goneFar, Elements(starts), s);
    CascadeLeast(g, {}, goneFar, Elements(starts) + {s});
    assert Left(g.far, goneFar, g.far[e], e);
    if Drained(g.near, {}, gone + next, g.far[e]) {
      DrainedByUnion(g.near, gone, next, g.far[e]);
    }
    ClosedWithout(g, {}, goneFar, gone + next, e);
    OthersExtended(starts, s, i);
    CascadeLeast(g, {}, goneFar, Others(starts, i));
    CascadeWithin(g, {}, goneFar, Others(starts + [s], i), gone + next - {e});
  }

  lemma FreshIsIndependent(g: Ends, goneFar: set<int>, rank: string -> int, starts: seq<int>, s: int)
    requires Oriented(g, rank) && Starts(g, goneFar, starts + [s]) && Independent(g, goneFar, starts)
    requires Fresh(g, CascadeOf(g, {}, goneFar, Elements(starts)), goneFar, s)
    ensures Independent(g, goneFar, starts + [s])
  {
    hide CascadeOf;
    var all := starts + [s];
    assert s in all;
    CascadeLeast(g, CascadeOf(g, {}, goneFar, Elements(starts)), goneFar, {s});
    LastOthers(starts, s);
    forall i | 0 <= i < |all| ensures all[i] !in CascadeOf(g, {}, goneFar, Others(all, i)) {
      if i < |starts| {
        EarlierStartStaysIndependent(g, goneFar, rank, starts, s, i);
      }
    }
  }

  lemma StartStays(g: Ends, goneFar: set<int>, rank: string -> int, starts: seq<int>, i: nat)
    requires Oriented(g, rank) && Starts(g, goneFar, starts) && i < |starts| && Independent(g, goneFar, starts)
    ensures 0 <= starts[i] < |g.near|
    ensures !Drained(g.near, {}, CascadeOf(g, {}, goneFar, Elements(starts)), g.far[starts[i]])
  {
    var e := starts[i];
    assert e in starts;
    var links := CascadeOf(g, {}, goneFar, Others(starts, i));
    var wide := links + LowLinks(g, rank, e);
    StartNotDrained(g, goneFar, rank, starts, i, links);
    CascadeWithin(g, {}, goneFar, Elements(starts), wide);
    if Drained(g.near, {}, CascadeOf(g, {}, goneFar, Elements(starts)), g.far[e]) {
      DrainedMore(g.near, {}, CascadeOf(g, {}, goneFar, Elements(starts)), wide, g.far[e]);
    }
  }

  /** One more start succeeds exactly when no start is then implied by the others. */
  lemma OneMoreStart(g: Ends, goneFar: set<int>, rank: string -> int, starts: seq<int>, s: int)
    requires Oriented(g, rank) && Starts(g, goneFar, starts + [s])
    ensures Independent(g, goneFar, starts + [s])
            <==> Independent(g, goneFar, starts)
                 && Fresh(g, CascadeOf(g, {}, goneFar, Elements(starts)), goneFar, s)
    ensures var gone := CascadeOf(g, {}, goneFar, Elements(starts));
            CascadeOf(g, {}, goneFar, Elements(starts + [s])) == gone + CascadeOf(g, gone, goneFar, {s})
  {
    hide CascadeOf;
    hide Independent;
    hide Fresh;
    hide Oriented;
    StartsInRange(g, goneFar, rank, starts, s);
    if Independent(g, goneFar, starts + [s]) {
      IndependentPrefix(g, goneFar, starts, s);
      IndependentIsFresh(g, goneFar, rank, starts, s);
    } else if Independent(g, goneFar, starts) && Fresh(g, CascadeOf(g, {}, goneFar, Elements(starts)), goneFar, s) {
      FreshIsIndependent(g, goneFar, rank, starts, s);
    }
    CascadesAdd(g, goneFar, Elements(starts), s);
  }

  lemma StartsInRange(g: Ends, goneFar: set<int>, rank: string -> int, starts: seq<int>, s: int)
    requires Oriented(g, rank) && Starts(g, goneFar, starts + [s])
    ensures |g.far| == |g.near| && Elements(starts + [s]) == Elements(starts) + {s}
    ensures Elements(starts) + {s} <= UpTo(|g.near|)
  {
    assert forall x :: x in starts ==> x in starts + [s];
    assert s in starts + [s];
  }

  // ----- Requests -----

  function Sources(links: seq<Link>): (r: seq<string>)
    ensures |r| == |links| && forall i :: 0 <= i < |links| ==> r[i] == links[i].src
  {
    seq(|links|, i requires 0 <= i < |links| => links[i].src)
  }

  function Destinations(links: seq<Link>): (r: seq<string>)
    ensures |r| == |links| && forall i :: 0 <= i < |links| ==> r[i] == links[i].dst
  {
    seq(|links|, i requires 0 <= i < |links| => links[i].dst)
  }

  /** As a disabled input port sees the graph. */
  function Upstream(links: seq<Link>): Ends {
    Ends(Sources(links), Destinations(links))
  }

  /** As a disabled output port sees it. */
  function Downstream(links: seq<Link>): Ends {
    Ends(Destinations(links), Sources(links))
  }

  lemma BothOriented(links: seq<Link>, rank: string -> int)
    requires Ranked(links, rank)
    ensures Oriented(Upstream(links), rank) && Oriented(Downstream(links), n => -rank(n))
    ensures |Upstream(links).near| == |Downstream(links).near| == |links|
  {
  }

  /** Links missing from the output lists of their sources, and from the input lists of their destinations. */
  datatype Deleted = Deleted(outs: set<int>, ins: set<int>)

  datatype Outcome = Pruned(deleted: Deleted) | StaleErase

  predicate AtPort(l: Link, r: PortRequest) {
    match r.portType
    case Input => l.dst == r.node && l.dstPort == r.portId
    case Output => l.src == r.node && l.srcPort == r.portId
  }

  /** The first link at the requested port from index `i` on that is not gone; -1 if there is none. */
  function FirstLink(links: seq<Link>, r: PortRequest, gone: set<int>, i: nat): (x: int)
    ensures x == -1 || (i <= x < |links| && x !in gone && AtPort(links[x], r))
    ensures forall j :: i <= j < (if x == -1 then |links| else x) ==> j in gone || !AtPort(links[j], r)
    decreases |links| - i
  {
    if i >= |links| then -1
    else if i !in gone && AtPort(links[i], r) then i
    else FirstLink(links, r, gone, i + 1)
  }

  ghost function Serve(links: seq<Link>, d: Deleted, r: PortRequest): Outcome {
    match r.portType
    case Input =>
      var x := FirstLink(links, r, d.ins, 0);
      if x == -1 then Pruned(d)
      else if Fresh(Upstream(links), d.outs, d.ins, x)
      then Pruned(d.(outs := d.outs + CascadeOf(Upstream(links), d.outs, d.ins, {x})))
      else StaleErase
    case Output =>
      var x := FirstLink(links, r, d.outs, 0);
      if x == -1 then Pruned(d)
      else if Fresh(Downstream(links), d.ins, d.outs, x)
      then Pruned(d.(ins := d.ins + CascadeOf(Downstream(links), d.ins, d.outs, {x})))
      else StaleErase
  }

  ghost function ServeAll(links: seq<Link>, requests: seq<PortRequest>): Outcome {
    if requests == [] then Pruned(Deleted({}, {}))
    else match ServeAll(links, requests[..|requests| - 1])
         case Pruned(d) => Serve(links, d, requests[|requests| - 1])
         case StaleErase => StaleErase
  }

  /** The links at the indices in `picks`, which are those that are not gone, in order. */
  ghost predicate Survive(links: seq<Link>, gone: set<int>, picks: seq<int>, result: seq<Link>) {
    && (forall j, k :: 0 <= j < k < |picks| ==> picks[j] < picks[k])
    && (forall i :: i in picks <==> 0 <= i < |links| && i !in gone)
    && |result| == |picks| && forall k :: 0 <= k < |picks| ==> 0 <= picks[k] < |links| && result[k] == links[picks[k]]
  }

  /** There is one way to keep them. */
  lemma {:induction false} SurvivorsUnique(links: seq<Link>, gone: set<int>, p: seq<int>, r: seq<Link>, p': seq<int>, r': seq<Link>)
    requires Survive(links, gone, p, r) && Survive(links, gone, p', r')
    ensures p == p' && r == r'
  {
    SameAscending(p, p');
  }

  lemma {:induction false} SameAscending(p: seq<int>, q: seq<int>)
    requires forall j, k :: 0 <= j < k < |p| ==> p[j] < p[k]
    requires forall j, k :: 0 <= j < k < |q| ==> q[j] < q[k]
    requires forall i :: i in p <==> i in q
    ensures p == q
  {
    if p == [] {
      FirstIsMember(q);
    } else {
      assert p[0] in p;
      assert p[0] in q;
      var m := |p| - 1;
      var n := |q| - 1;
      assert p[m] in p && q[n] in q;
      assert p[m] == q[n];
      forall i ensures i in p[..m] <==> i in q[..n] {
        WithoutLast(p, m, i);
        WithoutLast(q, n, i);
      }
      SameAscending(p[..m], q[..n]);
      assert p == p[..m] + [p[m]] && q == q[..n] + [q[n]];
    }
  }

  lemma FirstIsMember(q: seq<int>)
    ensures q != [] ==> q[0] in q
  {
  }

  lemma WithoutLast(p: seq<int>, m: nat, i: int)
    requires m + 1 == |p| && forall j, k :: 0 <= j < k < |p| ==> p[j] < p[k]
    ensures i in p[..m] <==> i in p && i != p[m]
  {
    assert p == p[..m] + [p[m]];
  }

  lemma ServeAllNext(links: seq<Link>, requests: seq<PortRequest>, k: nat)
    requires k < |requests|
    ensures ServeAll(links, requests[..k + 1])
            == match ServeAll(links, requests[..k])
               case Pruned(d) => Serve(links, d, requests[k])
               case StaleErase => StaleErase
  {
    assert requests[..k + 1][..k] == requests[..k];
  }

  lemma {:induction false} StaleStays(links: seq<Link>, requests: seq<PortRequest>, k: nat)
    requires k <= |requests| && ServeAll(links, requests[..k]) == StaleErase
    ensures ServeAll(links, requests) == StaleErase
    decreases |requests| - k
  {
    if k < |requests| {
      ServeAllNext(links, requests, k);
      StaleStays(links, requests, k + 1);
    } else {
      assert requests[..k] == requests;
    }
  }

  /** The input and output lists of every node. */
  method BuildLists(links: seq<Link>) returns (ins: LinkLists, outs: LinkLists)
    ensures Lists(Sources(links), {}, outs) && Lists(Destinations(links), {}, ins)
  {
    ins, outs := map[], map[];
    var index := 0;
    while index < |links|
      invariant 0 <= index <= |links|
      invariant Lists(Sources(links[..index]), {}, outs) && Lists(Destinations(links[..index]), {}, ins)
    {
      var link := links[index];
      Appended(Destinations(links[..index]), link.dst, ins);
      Appended(Sources(links[..index]), link.src, outs);
      assert Destinations(links[..index + 1]) == Destinations(links[..index]) + [link.dst];
      assert Sources(links[..index + 1]) == Sources(links[..index]) + [link.src];
      ins := ins[link.dst := At(ins, link.dst) + [index]];
      outs := outs[link.src := At(outs, link.src) + [index]];
      index := index + 1;
    }
    assert links[..index] == links;
  }

  lemma Appended(names: seq<string>, n: string, lists: LinkLists)
    requires Lists(names, {}, lists)
    ensures Lists(names + [n], {}, lists[n := At(lists, n) + [|names|]])
  {
    var lists' := lists[n := At(lists, n) + [|names|]];
    forall m ensures Ascending(At(lists', m)) && forall x :: x in At(lists', m) <==> Left(names + [n], {}, m, x) {
      assert At(lists', m) == if m == n then At(lists, n) + [|names|] else At(lists, m);
      MembersAt(names, {}, lists, m);
      if m == n {
        forall i | 0 <= i < |At(lists, n)| ensures At(lists, n)[i] < |names| {
          assert At(lists, n)[i] in At(lists, n);
        }
      }
    }
  }

  /** The first listed link at the port. */
  method FindPort(links: seq<Link>, r: PortRequest, ghost gone: set<int>, lists: LinkLists) returns (linkIndex: int)
    requires Lists(if r.portType.Input? then Destinations(links) else Sources(links), gone, lists)
    ensures linkIndex == FirstLink(links, r, gone, 0)
  {
    ghost var names := if r.portType.Input? then Destinations(links) else Sources(links);
    MembersAt(names, gone, lists, r.node);
    linkIndex := -1;
    ghost var first := FirstLink(links, r, gone, 0);
    if r.node !in lists {
      assert first != -1 ==> Left(names, gone, r.node, first);
      return;
    }
    var list := At(lists, r.node);
    assert first != -1 ==> Left(names, gone, r.node, first) && first in list;
    var i := 0;
    while i < |list| && linkIndex == -1
      invariant 0 <= i <= |list|
      invariant linkIndex == -1 || linkIndex == first
      invariant linkIndex == -1 ==> forall j :: 0 <= j < i ==> list[j] != first
      decreases |list| - i
    {
      assert list[i] in list && Left(names, gone, r.node, list[i]);
      if AtPort(links[list[i]], r) {
        linkIndex := list[i];
      }
      i := i + 1;
    }
  }

  method KeepFlagged(links: seq<Link>, flags: seq<bool>, ghost gone: set<int>) returns (result: seq<Link>, ghost picks: seq<int>)
    requires |flags| == |links| && forall e :: 0 <= e < |flags| ==> (flags[e] <==> e !in gone)
    ensures Survive(links, gone, picks, result)
  {
    result, picks := [], [];
    var index := 0;
    while index < |flags|
      invariant 0 <= index <= |flags|
      invariant forall j, k :: 0 <= j < k < |picks| ==> picks[j] < picks[k]
      invariant forall i :: i in picks <==> 0 <= i < index && i !in gone
      invariant |result| == |picks|
      invariant forall k :: 0 <= k < |picks| ==> 0 <= picks[k] < index && result[k] == links[picks[k]]
    {
      if flags[index] {
        result, picks := result + [links[index]], picks + [index];
      }
      index := index + 1;
    }
  }

  /** The link lists and flags after some deletions. */
  ghost predicate Reflects(links: seq<Link>, d: Deleted, ins: LinkLists, outs: LinkLists, linkFlag: seq<bool>) {
    && Lists(Sources(links), d.outs, outs) && Lists(Destinations(links), d.ins, ins)
    && |linkFlag| == |links| && forall e :: 0 <= e < |links| ==> (linkFlag[e] <==> e !in d.outs + d.ins)
  }

  /** Serves one request. */
  method ServeOne(links: seq<Link>, r: PortRequest, ghost d: Deleted, ins: LinkLists, outs: LinkLists,
                  linkFlag: seq<bool>, ghost rank: string -> int)
    returns (ok: bool, ins': LinkLists, outs': LinkLists, linkFlag': seq<bool>)
    requires Ranked(links, rank) && Reflects(links, d, ins, outs, linkFlag)
    ensures ok <==> Serve(links, d, r).Pruned?
    ensures ok ==> Reflects(links, Serve(links, d, r).deleted, ins', outs', linkFlag')
  {
    BothOriented(links, rank);
    hide CascadeOf;
    hide Fresh;
    hide Lists;
    hide Oriented;
    ok, ins', outs', linkFlag' := true, ins, outs, linkFlag;
    if r.portType.Input? {
      var linkIndex := FindPort(links, r, d.ins, ins);
      if linkIndex != -1 {
        ok, outs', linkFlag' := Cascade(Upstream(links), d.outs, d.ins, outs, ins, linkFlag, linkIndex, rank);
      }
    } else {
      var linkIndex := FindPort(links, r, d.outs, outs);
      if linkIndex != -1 {
        ok, ins', linkFlag' := Cascade(Downstream(links), d.ins, d.outs, ins, outs, linkFlag, linkIndex, n => -rank(n));
      }
    }
  }

  /** Serves the requests in turn. `ok` is false when the code would erase past the end of a list. */
  method PipelinePortPrune(links: seq<Link>, requests: seq<PortRequest>, ghost rank: string -> int)
    returns (ok: bool, result: seq<Link>, ghost picks: seq<int>)
    requires Ranked(links, rank)
    ensures ok <==> ServeAll(links, requests).Pruned?
    ensures ok ==> var d := ServeAll(links, requests).deleted; Survive(links, d.outs + d.ins, picks, result)
  {
    var linkFlag := seq(|links|, i => true);
    var ins, outs := BuildLists(links);
    ghost var d := Deleted({}, {});
    var k := 0;
    while k < |requests|
      invariant 0 <= k <= |requests| && ServeAll(links, requests[..k]) == Pruned(d)
      invariant Reflects(links, d, ins, outs, linkFlag)
    {
      hide Reflects;
      hide Serve;
      hide Ranked;
      ServeAllNext(links, requests, k);
      ok, ins, outs, linkFlag := ServeOne(links, requests[k], d, ins, outs, linkFlag, rank);
      if !ok {
        StaleStays(links, requests, k + 1);
        return false, links, [];
      }
      d := Serve(links, d, requests[k]).deleted;
      k := k + 1;
    }
    assert requests[..k] == requests;
    result, picks := KeepFlagged(links, linkFlag, d.outs + d.ins);
    ok := true;
  }

  // ----- What a set of requests comes to -----

  /** The links the requests name, as found in the graph before anything is removed. */
  function Named(links: seq<Link>, requests: seq<PortRequest>): (r: seq<int>)
    ensures forall x :: x in r ==> 0 <= x < |links|
  {
    if requests == [] then []
    else var x := FirstLink(links, requests[|requests| - 1], {}, 0);
         Named(links, requests[..|requests| - 1]) + if x == -1 then [] else [x]
  }

  /** Input ports: the requests go through exactly when no named link is removed by the others anyway;
      then what is removed is the least set for all of them, whatever their order. */
  lemma {:induction false} InputPruning(links: seq<Link>, requests: seq<PortRequest>, rank: string -> int)
    requires Ranked(links, rank) && forall r :: r in requests ==> r.portType.Input?
    ensures ServeAll(links, requests).Pruned? <==> Independent(Upstream(links), {}, Named(links, requests))
    ensures ServeAll(links, requests).Pruned? ==>
              ServeAll(links, requests).deleted
              == Deleted(CascadeOf(Upstream(links), {}, {}, Elements(Named(links, requests))), {})
  {
    hide CascadeOf;
    hide Fresh;
    hide Independent;
    hide Oriented;
    hide Upstream;
    var g := Upstream(links);
    BothOriented(links, rank);
    if requests == [] {
      NothingRemoved(g);
    } else {
      var before, x := requests[..|requests| - 1], FirstLink(links, requests[|requests| - 1], {}, 0);
      assert requests[|requests| - 1] in requests;
      InputPruning(links, before, rank);
      NextRequest(links, requests);
      if x != -1 {
        NamedInRange(links, g, before, x);
        OneMoreStart(g, {}, rank, Named(links, before), x);
      }
    }
  }

  /** Output ports: the mirror image. */
  lemma {:induction false} OutputPruning(links: seq<Link>, requests: seq<PortRequest>, rank: string -> int)
    requires Ranked(links, rank) && forall r :: r in requests ==> r.portType.Output?
    ensures ServeAll(links, requests).Pruned? <==> Independent(Downstream(links), {}, Named(links, requests))
    ensures ServeAll(links, requests).Pruned? ==>
              ServeAll(links, requests).deleted
              == Deleted({}, CascadeOf(Downstream(links), {}, {}, Elements(Named(links, requests))))
  {
    hide CascadeOf;
    hide Fresh;
    hide Independent;
    hide Oriented;
    hide Downstream;
    var g := Downstream(links);
    BothOriented(links, rank);
    if requests == [] {
      NothingRemoved(g);
    } else {
      var before, x := requests[..|requests| - 1], FirstLink(links, requests[|requests| - 1], {}, 0);
      assert requests[|requests| - 1] in requests;
      OutputPruning(links, before, rank);
      NextRequest(links, requests);
      if x != -1 {
        NamedInRange(links, g, before, x);
        OneMoreStart(g, {}, n => -rank(n), Named(links, before), x);
      }
    }
  }

  lemma NextRequest(links: seq<Link>, requests: seq<PortRequest>)
    requires requests != []
    ensures var x := FirstLink(links, requests[|requests| - 1], {}, 0);
            var before := Named(links, requests[..|requests| - 1]);
            Named(links, requests) == if x == -1 then before else before + [x]
  {
  }

  lemma NamedInRange(links: seq<Link>, g: Ends, before: seq<PortRequest>, x: int)
    requires |g.near| == |links| && 0 <= x < |links|
    ensures Starts(g, {}, Named(links, before) + [x])
  {
  }

  lemma NothingRemoved(g: Ends)
    ensures CascadeOf(g, {}, {}, Elements([])) == {} && Independent(g, {}, [])
  {
    assert Closed(g, {}, {}, {});
    CascadeWithin(g, {}, {}, Elements([]), {});
  }

  /** A single request always goes through. */
  lemma OneRequest(links: seq<Link>, r: PortRequest, rank: string -> int)
    requires Ranked(links, rank)
    ensures ServeAll(links, [r]).Pruned?
  {
    assert [r][..0] == [];
    assert ServeAll(links, []) == Pruned(Deleted({}, {}));
  }

  lemma BothNamed(a: Link, b: Link, requests: seq<PortRequest>)
    requires requests == [PortRequest(a.dst, a.dstPort, Input), PortRequest(b.dst, b.dstPort, Input)] && a.dst != b.dst
    ensures Named([a, b], requests) == [0, 1]
  {
    var links := [a, b];
    assert FirstLink(links, requests[0], {}, 0) == 0;
    assert FirstLink(links, requests[1], {}, 0) == 1;
    assert requests[..1] == [requests[0]] && [requests[0]][..0] == [];
    assert Named(links, [requests[0]]) == [0];
  }

  /** Two requests that do not: the second port's cascade removes the link the first one named. */
  lemma TwoRequestsCollide(a: Link, b: Link)
    requires a.dst == b.src && a.src != a.dst && b.src != b.dst && a.src != b.dst
    ensures ServeAll([a, b], [PortRequest(a.dst, a.dstPort, Input), PortRequest(b.dst, b.dstPort, Input)]) == StaleErase
  {
    var links, requests := [a, b], [PortRequest(a.dst, a.dstPort, Input), PortRequest(b.dst, b.dstPort, Input)];
    var rank := (n: string) => if n == a.src then 0 else if n == a.dst then 1 else 2;
    InputPruning(links, requests, rank);
    BothNamed(a, b, requests);
    hide ServeAll;
    hide Named;
    var g := Upstream(links);
    var starts := [0, 1];
    var others := Others(starts, 0);
    assert starts[1] in others;
    forall s | Closed(g, {}, {}, s) && others <= s ensures 0 in s {
      assert 1 in s && g.near[1] == a.dst;
      assert Drained(g.near, {}, s, a.dst);
      assert Left(g.far, {}, a.dst, 0);
    }
    assert 0 in CascadeOf(g, {}, {}, others);
  }

  // ----- The same, in terms of the links -----

  ghost predicate OutputsGone(links: seq<Link>, gone: set<int>, n: string) {
    forall x :: 0 <= x < |links| && links[x].src == n ==> x in gone
  }

  ghost predicate InputsGone(links: seq<Link>, gone: set<int>, n: string) {
    forall x :: 0 <= x < |links| && links[x].dst == n ==> x in gone
  }

  /** A node that has lost an output link, and has no other left, loses all its input links. */
  ghost predicate NoDeadEnds(links: seq<Link>, gone: set<int>) {
    forall e :: e in gone && 0 <= e < |links| && OutputsGone(links, gone, links[e].src) ==> InputsGone(links, gone, links[e].src)
  }

  /** A node that has lost an input link, and has no other left, loses all its output links. */
  ghost predicate NoEmptyStarts(links: seq<Link>, gone: set<int>) {
    forall e :: e in gone && 0 <= e < |links| && InputsGone(links, gone, links[e].dst) ==> OutputsGone(links, gone, links[e].dst)
  }

  /** The first link at a port that is disabled. */
  ghost predicate AtInput(links: seq<Link>, r: PortRequest, x: int) {
    && 0 <= x < |links| && links[x].dst == r.node && links[x].dstPort == r.portId
    && forall y :: 0 <= y < x ==> links[y].dst != r.node || links[y].dstPort != r.portId
  }

  ghost predicate AtOutput(links: seq<Link>, r: PortRequest, x: int) {
    && 0 <= x < |links| && links[x].src == r.node && links[x].srcPort == r.portId
    && forall y :: 0 <= y < x ==> links[y].src != r.node || links[y].srcPort != r.portId
  }

  ghost predicate NamedBy(links: seq<Link>, r: PortRequest, x: int) {
    if r.portType.Input? then AtInput(links, r, x) else AtOutput(links, r, x)
  }

  ghost predicate NamedByOne(links: seq<Link>, requests: seq<PortRequest>, x: int) {
    exists k :: 0 <= k < |requests| && NamedBy(links, requests[k], x)
  }

  lemma {:induction false} NamedMeans(links: seq<Link>, requests: seq<PortRequest>, x: int)
    ensures x in Named(links, requests) <==> NamedByOne(links, requests, x)
  {
    if requests != [] {
      var n := |requests| - 1;
      NamedMeans(links, requests[..n], x);
      FirstMeans(links, requests[n], x);
      LastNames(links, requests, n, x);
      hide NamedBy;
      hide NamedByOne;
      hide FirstLink;
    }
  }

  lemma LastNames(links: seq<Link>, requests: seq<PortRequest>, n: nat, x: int)
    requires n + 1 == |requests|
    ensures NamedByOne(links, requests, x) <==> NamedByOne(links, requests[..n], x) || NamedBy(links, requests[n], x)
  {
    hide NamedBy;
    forall k | 0 <= k < n ensures requests[..n][k] == requests[k] {
    }
  }

  lemma FirstMeans(links: seq<Link>, r: PortRequest, x: int)
    ensures x == FirstLink(links, r, {}, 0) && x != -1 <==> NamedBy(links, r, x)
  {
    var f := FirstLink(links, r, {}, 0);
    assert f != -1 ==> AtPort(links[f], r);
  }

  /** What a list of input ports deletes: the least set of links that has the first link at each of them, and all input
      links of every node it leaves without outputs. */
  lemma InputMeans(links: seq<Link>, requests: seq<PortRequest>, rank: string -> int, e: int)
    requires Ranked(links, rank) && forall r :: r in requests ==> r.portType.Input?
    requires ServeAll(links, requests).Pruned?
    ensures var d := ServeAll(links, requests).deleted;
            e in d.outs + d.ins <==>
            0 <= e < |links| && forall s :: NoDeadEnds(links, s) && HasInputs(links, requests, s) ==> e in s
  {
    InputPruning(links, requests, rank);
    CascadeMeans(Upstream(links), Elements(Named(links, requests)), e);
    assert |Upstream(links).near| == |links|;
    hide ServeAll;
    hide CascadeOf;
    hide InCascade;
    hide Upstream;
    hide Independent;
    hide Ranked;
    forall s ensures Closed(Upstream(links), {}, {}, s) && Elements(Named(links, requests)) <= s
                     <==> NoDeadEnds(links, s) && HasInputs(links, requests, s)
    {
      hide *;
      UpstreamClosed(links, s);
      InputsNamed(links, requests, s);
    }
    hide NoDeadEnds;
    hide Closed;
    hide HasInputs;
    hide Named;
    hide Elements;
  }

  ghost predicate HasInputs(links: seq<Link>, requests: seq<PortRequest>, s: set<int>) {
    forall k, x :: 0 <= k < |requests| && AtInput(links, requests[k], x) ==> x in s
  }

  lemma CascadeMeans(g: Ends, starts: set<int>, e: int)
    ensures e in CascadeOf(g, {}, {}, starts) <==>
            0 <= e < |g.near| && forall s :: Closed(g, {}, {}, s) && starts <= s ==> e in s
  {
    hide Closed;
  }

  lemma UpstreamClosed(links: seq<Link>, s: set<int>)
    ensures Closed(Upstream(links), {}, {}, s) <==> NoDeadEnds(links, s)
  {
    var g := Upstream(links);
    forall n ensures Drained(g.near, {}, s, n) <==> OutputsGone(links, s, n) && LostOutput(links, s, n) {
      assert forall e :: Left(g.near, {}, n, e) <==> 0 <= e < |links| && links[e].src == n;
    }
    forall n ensures InputsGone(links, s, n) <==> forall y :: Left(g.far, {}, n, y) ==> y in s {
      assert forall e :: Left(g.far, {}, n, e) <==> 0 <= e < |links| && links[e].dst == n;
    }
    hide Drained;
    hide Left;
    hide OutputsGone;
    hide InputsGone;
  }

  ghost predicate LostOutput(links: seq<Link>, s: set<int>, n: string) {
    exists e :: e in s && 0 <= e < |links| && links[e].src == n
  }

  ghost predicate LostInput(links: seq<Link>, s: set<int>, n: string) {
    exists e :: e in s && 0 <= e < |links| && links[e].dst == n
  }

  lemma InputsNamed(links: seq<Link>, requests: seq<PortRequest>, s: set<int>)
    requires forall r :: r in requests ==> r.portType.Input?
    ensures Elements(Named(links, requests)) <= s <==> HasInputs(links, requests, s)
  {
    forall x ensures x in Named(links, requests) <==> exists k :: 0 <= k < |requests| && AtInput(links, requests[k], x) {
      NamedMeans(links, requests, x);
      assert forall k :: 0 <= k < |requests| ==> requests[k] in requests;
      hide Named;
      hide AtInput;
    }
    hide AtInput;
    hide Named;
  }

  /** What a list of output ports deletes: the least set of links that has the first link at each of them, and all
      output links of every node it leaves without inputs. */
  lemma OutputMeans(links: seq<Link>, requests: seq<PortRequest>, rank: string -> int, e: int)
    requires Ranked(links, rank) && forall r :: r in requests ==> r.portType.Output?
    requires ServeAll(links, requests).Pruned?
    ensures var d := ServeAll(links, requests).deleted;
            e in d.outs + d.ins <==>
            0 <= e < |links| && forall s :: NoEmptyStarts(links, s) && HasOutputs(links, requests, s) ==> e in s
  {
    OutputPruning(links, requests, rank);
    CascadeMeans(Downstream(links), Elements(Named(links, requests)), e);
    assert |Downstream(links).near| == |links|;
    hide ServeAll;
    hide CascadeOf;
    hide InCascade;
    hide Downstream;
    hide Independent;
    hide Ranked;
    forall s ensures Closed(Downstream(links), {}, {}, s) && Elements(Named(links, requests)) <= s
                     <==> NoEmptyStarts(links, s) && HasOutputs(links, requests, s)
    {
      hide *;
      DownstreamClosed(links, s);
      OutputsNamed(links, requests, s);
    }
    hide NoEmptyStarts;
    hide Closed;
    hide HasOutputs;
    hide Named;
    hide Elements;
  }

  ghost predicate HasOutputs(links: seq<Link>, requests: seq<PortRequest>, s: set<int>) {
    forall k, x :: 0 <= k < |requests| && AtOutput(links, requests[k], x) ==> x in s
  }

  lemma DownstreamClosed(links: seq<Link>, s: set<int>)
    ensures Closed(Downstream(links), {}, {}, s) <==> NoEmptyStarts(links, s)
  {
    var g := Downstream(links);
    forall n ensures Drained(g.near, {}, s, n) <==> InputsGone(links, s, n) && LostInput(links, s, n) {
      assert forall e :: Left(g.near, {}, n, e) <==> 0 <= e < |links| && links[e].dst == n;
    }
    forall n ensures OutputsGone(links, s, n) <==> forall y :: Left(g.far, {}, n, y) ==> y in s {
      assert forall e :: Left(g.far, {}, n, e) <==> 0 <= e < |links| && links[e].src == n;
    }
    hide Drained;
    hide Left;
    hide OutputsGone;
    hide InputsGone;
  }

  lemma OutputsNamed(links: seq<Link>, requests: seq<PortRequest>, s: set<int>)
    requires forall r :: r in requests ==> r.portType.Output?
    ensures Elements(Named(links, requests)) <= s <==> HasOutputs(links, requests, s)
  {
    forall x ensures x in Named(links, requests) <==> exists k :: 0 <= k < |requests| && AtOutput(links, requests[k], x) {
      NamedMeans(links, requests, x);
      assert forall k :: 0 <= k < |requests| ==> requests[k] in requests;
      hide Named;
      hide AtOutput;
    }
    hide AtOutput;
    hide Named;
  }
}
