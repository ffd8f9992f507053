/** Which queues the images of a node go to when its inputs are released, in terms of mode bits and links. */
module Handover {
  import opened Collections
  import opened Links
  import opened Scheduler
  import opened SchedulerRuns
  import opened Buffers

  function Copies(m: int, k: nat): (r: seq<int>)
    ensures |r| == k && forall i :: 0 <= i < k ==> r[i] == m
  {
    seq(k, _ => m)
  }

  /** Each image `k` times, in order. */
  function Repeated(s: seq<int>, k: nat): seq<int> {
    if s == [] then [] else Copies(s[0], k) + Repeated(s[1..], k)
  }

  /** What leaves the using queues: the content of one after the other, or one image of each. */
  function Released(q: map<Slot, seq<int>>, usings: seq<Slot>, one: bool): seq<int>
    requires forall u :: u in usings ==> u in q
  {
    if usings == [] then [] else Taken(q[usings[0]], one) + Released(q, usings[1..], one)
  }

  function Taken(s: seq<int>, one: bool): seq<int> {
    if one && s != [] then s[..1] else s
  }

  /** The output links of a node into a queue. */
  function LinksInto(t: Topology, n: string, c: Slot): set<int> {
    set i | 0 <= i < |t.links| && LeavesNode(t.links[i], n) && c == Input(t.links[i].dst, t.links[i].dstPort)
  }

  lemma CopiesMore(m: int, k: nat)
    ensures [m] + Copies(m, k) == Copies(m, k + 1) && Copies(m, 0) == []
  {
  }

  lemma {:induction false} RepeatedAdds(a: seq<int>, b: seq<int>, k: nat)
    ensures Repeated(a + b, k) == Repeated(a, k) + Repeated(b, k)
  {
    if a == [] {
      assert a + b == b;
    } else {
      assert (a + b)[1..] == a[1..] + b;
      RepeatedAdds(a[1..], b, k);
    }
  }

  lemma {:induction false} RepeatedOnce(s: seq<int>)
    ensures Repeated(s, 1) == s && Repeated(s, 0) == []
  {
    if s != [] {
      RepeatedOnce(s[1..]);
      assert Copies(s[0], 1) == [s[0]];
    }
  }

  lemma {:induction false} PassOnCopies(q: map<Slot, seq<int>>, m: int, children: seq<Slot>, c: Slot)
    requires c in q && forall e :: e in children ==> e in q
    ensures PassOn(q, m, children)[c] == q[c] + Copies(m, multiset(children)[c])
  {
    if children == [] {
      CopiesMore(m, 0);
    } else {
      var q' := q[children[0] := q[children[0]] + [m]];
      HeadCount(children, c);
      PassOnCopies(q', m, children[1..], c);
      CopiesMore(m, multiset(children[1..])[c]);
    }
  }

  lemma {:induction false} RelievedCopies(q: map<Slot, seq<int>>, from: Slot, children: seq<Slot>, one: bool, c: Slot)
    requires from in q && from !in children && c in q && c != from && forall e :: e in children ==> e in q
    ensures Relieved(q, from, children, one)[c] == q[c] + Repeated(Taken(q[from], one), multiset(children)[c])
    decreases |q[from]|
  {
    var k := multiset(children)[c];
    if q[from] == [] {
      Associative(q[c], [], []);
    } else {
      var m, rest := q[from][0], q[from][1..];
      var q' := PassOn(q[from := rest], m, children);
      PassOnCopies(q[from := rest], m, children, c);
      JustOne(m, k);
      if !one {
        RelievedCopies(q', from, children, false, c);
        assert Relieved(q, from, children, one)[c] == q[c] + Repeated([m], k) + Repeated(rest, k);
        assert q[from] == [m] + rest;
        hide *;
        RepeatedAdds([m], rest, k);
        Associative(q[c], Repeated([m], k), Repeated(rest, k));
      }
    }
  }

  lemma JustOne(m: int, k: nat)
    ensures Repeated([m], k) == Copies(m, k)
  {
    assert [m][1..] == [];
  }

  lemma {:induction false} ReleasedElsewhere(q: map<Slot, seq<int>>, q': map<Slot, seq<int>>, usings: seq<Slot>, one: bool)
    requires forall u :: u in usings ==> u in q && u in q' && q'[u] == q[u]
    ensures Released(q', usings, one) == Released(q, usings, one)
  {
    if usings != [] {
      ReleasedElsewhere(q, q', usings[1..], one);
    }
  }

  ghost predicate MayRelieve(q: map<Slot, seq<int>>, usings: seq<Slot>, children: seq<Slot>) {
    && NoDuplicates(usings) && (forall u :: u in usings ==> u in q && u !in children)
    && (forall e :: e in children ==> e in q)
  }

  lemma AllStep(q: map<Slot, seq<int>>, usings: seq<Slot>, children: seq<Slot>, one: bool)
    requires MayRelieve(q, usings, children) && usings != []
    ensures var u := usings[0]; var q' := Relieved(q, u, children, one);
            && MayRelieve(q', usings[1..], children) && MayRelieve(q, usings[1..], children)
            && RelievedAll(q, usings, children, one) == RelievedAll(q', usings[1..], children, one)
            && Released(q, usings, one) == Taken(q[u], one) + Released(q, usings[1..], one)
            && Released(q', usings[1..], one) == Released(q, usings[1..], one)
            && u !in usings[1..] && forall e :: e in usings <==> e == u || e in usings[1..]
  {
    TailDistinct(usings);
    ReleasedElsewhere(q, Relieved(q, usings[0], children, one), usings[1..], one);
  }

  lemma Associative(x: seq<int>, y: seq<int>, z: seq<int>)
    ensures (x + y) + z == x + (y + z) && x + [] == x
  {
  }

  /** A queue that is not relieved itself. */
  lemma {:induction false} OthersGain(q: map<Slot, seq<int>>, usings: seq<Slot>, children: seq<Slot>, one: bool, c: Slot)
    requires MayRelieve(q, usings, children) && c in q && c !in usings
    ensures RelievedAll(q, usings, children, one)[c] == q[c] + Repeated(Released(q, usings, one), multiset(children)[c])
  {
    var k := multiset(children)[c];
    if usings == [] {
      Associative(q[c], [], []);
    } else {
      var u := usings[0];
      var q' := Relieved(q, u, children, one);
      AllStep(q, usings, children, one);
      RelievedCopies(q, u, children, one, c);
      OthersGain(q', usings[1..], children, one, c);
      var a, b := Taken(q[u], one), Released(q, usings[1..], one);
      assert RelievedAll(q, usings, children, one)[c] == q[c] + Repeated(a, k) + Repeated(b, k);
      hide *;
      RepeatedAdds(a, b, k);
      Associative(q[c], Repeated(a, k), Repeated(b, k));
    }
  }

  /** A queue that is. */
  lemma {:induction false} UsingsShrink(q: map<Slot, seq<int>>, usings: seq<Slot>, children: seq<Slot>, one: bool, c: Slot)
    requires MayRelieve(q, usings, children) && c in usings
    ensures RelievedAll(q, usings, children, one)[c] == if one && q[c] != [] then q[c][1..] else []
  {
    var u := usings[0];
    var q' := Relieved(q, u, children, one);
    AllStep(q, usings, children, one);
    if c == u {
      OthersGain(q', usings[1..], children, one, c);
      RepeatedOnce(Released(q', usings[1..], one));
      Associative(q'[c], [], []);
    } else {
      UsingsShrink(q', usings[1..], children, one, c);
    }
  }

  // ----- The children -----

  function SlotsOf(t: Topology, outs: seq<int>): (r: seq<Slot>)
    requires forall j :: 0 <= j < |outs| ==> 0 <= outs[j] < |t.links|
  {
    seq(|outs|, j requires 0 <= j < |outs| => Input(t.links[outs[j]].dst, t.links[outs[j]].dstPort))
  }

  /** Which of some links lead into a queue. */
  function Into(t: Topology, outs: seq<int>, c: Slot): set<int>
    requires forall j :: 0 <= j < |outs| ==> 0 <= outs[j] < |t.links|
  {
    set i | i in outs && c == Input(t.links[i].dst, t.links[i].dstPort)
  }

  lemma {:induction false} CountInto(t: Topology, outs: seq<int>, c: Slot)
    requires forall j :: 0 <= j < |outs| ==> 0 <= outs[j] < |t.links|
    requires forall j, k :: 0 <= j < k < |outs| ==> outs[j] < outs[k]
    ensures multiset(SlotsOf(t, outs))[c] == |Into(t, outs, c)|
  {
    if outs == [] {
      assert Into(t, outs, c) == {};
    } else {
      var m := |outs| - 1;
      var before, i := outs[..m], outs[m];
      CountInto(t, before, c);
      IntoNext(t, before, c, i);
      SlotsNext(t, before, i);
      assert outs == before + [i];
      hide *;
      AppendCount(SlotsOf(t, before), Input(t.links[i].dst, t.links[i].dstPort), c);
    }
  }

  lemma SlotsNext(t: Topology, outs: seq<int>, i: int)
    requires 0 <= i < |t.links| && forall j :: 0 <= j < |outs| ==> 0 <= outs[j] < |t.links|
    ensures SlotsOf(t, outs + [i]) == SlotsOf(t, outs) + [Input(t.links[i].dst, t.links[i].dstPort)]
  {
  }

  lemma IntoNext(t: Topology, outs: seq<int>, c: Slot, i: int)
    requires 0 <= i < |t.links| && forall j :: 0 <= j < |outs| ==> 0 <= outs[j] < |t.links| && outs[j] < i
    ensures |Into(t, outs + [i], c)|
            == |Into(t, outs, c)| + if c == Input(t.links[i].dst, t.links[i].dstPort) then 1 else 0
  {
    assert Into(t, outs + [i], c)
           == if c == Input(t.links[i].dst, t.links[i].dstPort) then Into(t, outs, c) + {i} else Into(t, outs, c);
  }

  lemma ChildCount(t: Topology, n: string, c: Slot)
    ensures multiset(ChildSlots(t, n))[c] == |LinksInto(t, n, c)|
  {
    var outs := Outputs(t, n);
    CountInto(t, outs, c);
    assert forall i :: i in outs <==> 0 <= i < |t.links| && LeavesNode(t.links[i], n);
    assert Into(t, outs, c) == LinksInto(t, n, c);
    assert ChildSlots(t, n) == SlotsOf(t, outs);
  }

  /** When the inputs of a node are released: if its mode bits say that it hands them on, every queue that its output
      links lead to gets all that the using queues release, in order, once for each link; and otherwise nobody does.
      Nothing else changes but the using queues, which keep what is behind the first image, or nothing. */
  lemma HandedOn(t: Topology, n: string, q: map<Slot, seq<int>>, usings: seq<Slot>, one: bool, c: Slot)
    requires NoDuplicates(usings) && c in q && forall u :: u in usings ==> u in q && u.Using?
    requires forall e :: e in ChildSlots(t, n) ==> e in q
    ensures var r := RelievedAll(q, usings, if Passes(t, n) then ChildSlots(t, n) else [], one);
            && (c in usings ==> r[c] == if one && q[c] != [] then q[c][1..] else [])
            && (c !in usings && MustHandOn(t, n) ==>
                  r[c] == q[c] + Repeated(Released(q, usings, one), |LinksInto(t, n, c)|))
            && (c !in usings && !MustHandOn(t, n) ==> r[c] == q[c])
  {
    PassesMeans(t, n);
    ChildCount(t, n, c);
    var children := if Passes(t, n) then ChildSlots(t, n) else [];
    assert MayRelieve(q, usings, children);
    if c in usings {
      hide *;
      UsingsShrink(q, usings, children, one, c);
    } else {
      OthersGain(q, usings, children, one, c);
      hide *;
      RepeatedOnce(Released(q, usings, one));
      Associative(q[c], [], []);
    }
  }
}
