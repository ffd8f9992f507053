/** The dependency-count scheduler: one dispatcher thread against one worker per dispatched node.
    Every critical section under the pipeline lock is one atomic step, and steps of different threads
    interleave freely. */
module Scheduler {
  import opened Collections
  import opened Links

  /** `known` are the instances for which the session owns a node object; `merge` is the number of frames that
      belong together, as the images coming into a node have it. */
  datatype Topology = Topology(
    links: seq<Link>, masks: map<string, NodeMask>, known: set<string>, merge: map<string, nat>)
  {
    function Inputs(n: string): set<int> {
      set i | 0 <= i < |links| && EntersNode(links[i], n)
    }

    function InternalInputs(n: string): set<int> {
      set i | 0 <= i < |links| && Internal(links[i], n)
    }

    predicate Sigframe(n: string) { n in masks && masks[n].sigframe }

    /** How many rounds a node makes. Parallel nodes make one, even if they are frame-by-frame nodes. */
    function Frames(n: string): (r: nat)
      ensures r >= 1
    {
      if Sigframe(n) && (masks[n].virtual || !masks[n].concurrent) && n in merge && merge[n] > 1 then merge[n] else 1
    }

    /** The check made before anything runs: a frame-by-frame node has at most one input link. */
    ghost predicate Accepted() {
      forall n, i, j :: Sigframe(n) && i in Inputs(n) && j in Inputs(n) ==> i == j
    }
  }

  /** Indices of the links that leave `n`, in link order, among the first `k` links. */
  function OutputsUpTo(t: Topology, n: string, k: nat): (r: seq<int>)
    requires k <= |t.links|
    ensures forall j :: 0 <= j < |r| ==> 0 <= r[j] < k && LeavesNode(t.links[r[j]], n)
    ensures forall i :: 0 <= i < k && LeavesNode(t.links[i], n) ==> i in r
    ensures forall j, l :: 0 <= j < l < |r| ==> r[j] < r[l]
  {
    if k == 0 then []
    else
      var before := OutputsUpTo(t, n, k - 1);
      if LeavesNode(t.links[k - 1], n) then before + [k - 1] else before
  }

  function Outputs(t: Topology, n: string): (r: seq<int>)
    ensures forall j :: 0 <= j < |r| ==> 0 <= r[j] < |t.links| && LeavesNode(t.links[r[j]], n)
    ensures forall i :: 0 <= i < |t.links| && LeavesNode(t.links[i], n) ==> i in r
    ensures forall j, l :: 0 <= j < l < |r| ==> r[j] < r[l]
  {
    OutputsUpTo(t, n, |t.links|)
  }

  function InternalUpTo(t: Topology, n: string, k: nat): set<int>
    requires k <= |t.links|
  {
    set i | 0 <= i < k && Internal(t.links[i], n)
  }

  /** The counts after the first `k` links have been looked at. */
  function CountsUpTo(t: Topology, k: nat): map<string, int>
    requires k <= |t.links|
  {
    if k == 0 then map[]
    else
      var counts, link := CountsUpTo(t, k - 1), t.links[k - 1];
      var before := if link.dst in counts then counts[link.dst] else 0;
      if link.kind.SinkLink? then counts
      else counts[link.dst := before + if link.kind.InternalLink? then 1 else 0]
  }

  function EntersUpTo(t: Topology, n: string, k: nat): set<int>
    requires k <= |t.links|
  {
    set i | 0 <= i < k && EntersNode(t.links[i], n)
  }

  lemma EntersNext(t: Topology, n: string, k: nat)
    requires k < |t.links|
    ensures EntersUpTo(t, n, k + 1)
            == if EntersNode(t.links[k], n) then EntersUpTo(t, n, k) + {k} else EntersUpTo(t, n, k)
    ensures InternalUpTo(t, n, k + 1)
            == if Internal(t.links[k], n) then InternalUpTo(t, n, k) + {k} else InternalUpTo(t, n, k)
    ensures k !in InternalUpTo(t, n, k)
  {
  }

  lemma NoneBefore(t: Topology, n: string)
    ensures EntersUpTo(t, n, 0) == {} && InternalUpTo(t, n, 0) == {}
  {
  }

  lemma {:induction false} CountsAt(t: Topology, n: string, k: nat)
    requires k <= |t.links|
    ensures n in CountsUpTo(t, k) <==> EntersUpTo(t, n, k) != {}
    ensures n in CountsUpTo(t, k) ==> CountsUpTo(t, k)[n] == |InternalUpTo(t, n, k)|
    ensures InternalUpTo(t, n, k) <= EntersUpTo(t, n, k)
  {
    hide EntersUpTo;
    hide InternalUpTo;
    if k == 0 {
      NoneBefore(t, n);
    } else {
      CountsAt(t, n, k - 1);
      EntersNext(t, n, k - 1);
    }
  }

  lemma CountsAll(t: Topology)
    ensures var counts := CountsUpTo(t, |t.links|);
            && (forall n :: n in counts <==> t.Inputs(n) != {})
            && (forall n :: n in counts ==> counts[n] == |t.InternalInputs(n)|)
            && (forall n :: n in counts ==> (counts[n] == 0 <==> t.InternalInputs(n) == {}))
            && (forall n :: t.InternalInputs(n) != {} ==> n in counts)
  {
    var counts := CountsUpTo(t, |t.links|);
    forall n
      ensures n in counts <==> t.Inputs(n) != {}
      ensures n in counts ==> counts[n] == |t.InternalInputs(n)|
      ensures t.InternalInputs(n) != {} ==> n in counts
    {
      CountsAt(t, n, |t.links|);
      assert t.Inputs(n) == EntersUpTo(t, n, |t.links|);
      assert t.InternalInputs(n) == InternalUpTo(t, n, |t.links|);
    }
  }

  // ---------------------------------------------------------------- critical sections

  /** The fields that the pipeline lock protects. */
  datatype Counters = Counters(
    runSequence: seq<string>, dependence: map<string, int>, running: int, hasError: bool)

  /** A link delivered to `next`: unless the pipeline has failed, its dependency count drops, and the
      node is queued when the count arrives at zero. */
  function Delivered(c: Counters, next: string): Counters
    requires next in c.dependence
  {
    if c.hasError then c
    else
      var left := c.dependence[next] - 1;
      c.(dependence := c.dependence[next := left],
         runSequence := if left == 0 then c.runSequence + [next] else c.runSequence)
  }

  function SignalledOk(c: Counters): Counters { c.(running := c.running - 1) }

  function SignalledError(c: Counters): Counters { c.(running := c.running - 1, hasError := true) }

  function Counted(c: Counters): Counters { c.(running := c.running + 1) }

  /** The pipeline object as the code updates it: each method is one critical section. */
  class Pipeline {
    var mRunSequence: seq<string>
    var mDependenceNum: map<string, int>
    var mRunningNodeNum: int
    var mHasProcessError: bool

    ghost function View(): Counters
      reads this
    {
      Counters(mRunSequence, mDependenceNum, mRunningNodeNum, mHasProcessError)
    }

    constructor ()
      ensures View() == Counters([], map[], 0, false)
    {
      mRunSequence, mDependenceNum, mRunningNodeNum, mHasProcessError := [], map[], 0, false;
    }

    /** Counts the internal inputs of every node, and queues the nodes that wait for none.
        `order` is the order in which the instance map is walked. */
    method Prepare(t: Topology, order: seq<string>)
      requires View() == Counters([], map[], 0, false)
      requires forall j, k :: 0 <= j < k < |order| ==> order[j] != order[k]
      requires forall n :: n in order <==> t.Inputs(n) != {}
      modifies this
      ensures Ready(t, View())
    {
      CountInputs(t);
      CountsAll(t);
      QueueReady(t, order);
    }

    method CountInputs(t: Topology)
      requires mDependenceNum == map[]
      modifies this`mDependenceNum
      ensures mDependenceNum == CountsUpTo(t, |t.links|)
    {
      var index := 0;
      while index < |t.links|
        invariant 0 <= index <= |t.links|
        invariant mDependenceNum == CountsUpTo(t, index)
      {
        var link := t.links[index];
        if !link.kind.SinkLink? && link.dst !in mDependenceNum {
          mDependenceNum := mDependenceNum[link.dst := 0];
        }
        if link.kind.InternalLink? {
          mDependenceNum := mDependenceNum[link.dst := mDependenceNum[link.dst] + 1];
        }
        index := index + 1;
      }
    }

    method QueueReady(t: Topology, order: seq<string>)
      requires mRunSequence == []
      requires forall j, k :: 0 <= j < k < |order| ==> order[j] != order[k]
      requires forall n :: n in order <==> n in mDependenceNum
      modifies this`mRunSequence, this`mDependenceNum
      ensures forall n :: n in mRunSequence <==> n in old(mDependenceNum) && old(mDependenceNum)[n] == 0
      ensures NoDuplicates(mRunSequence)
      ensures forall n :: n in mDependenceNum <==> n in old(mDependenceNum) && old(mDependenceNum)[n] != 0
      ensures forall n :: n in mDependenceNum ==> mDependenceNum[n] == old(mDependenceNum)[n]
    {
      ghost var counts := mDependenceNum;
      var k := 0;
      while k < |order|
        invariant 0 <= k <= |order|
        invariant forall n :: n in mDependenceNum <==> n in counts && (n in order[..k] ==> counts[n] != 0)
        invariant forall n :: n in mDependenceNum ==> mDependenceNum[n] == counts[n]
        invariant forall n :: n in mRunSequence <==> n in order[..k] && counts[n] == 0
        invariant NoDuplicates(mRunSequence)
      {
        assert order[..k + 1] == order[..k] + [order[k]];
        assert order[k] !in order[..k];
        if mDependenceNum[order[k]] == 0 {
          mRunSequence := mRunSequence + [order[k]];
          mDependenceNum := mDependenceNum - {order[k]};
        }
        k := k + 1;
      }
      assert order[..k] == order;
    }

    /** The dispatcher takes the head of the queue. */
    method TakeNext() returns (n: string)
      requires mRunSequence != []
      modifies this`mRunSequence
      ensures [n] + mRunSequence == old(mRunSequence)
    {
      n := mRunSequence[0];
      mRunSequence := mRunSequence[1..];
    }

    /** The dispatcher counts a node it has handed over; true when it must wait. */
    method CountDispatched(found: bool) returns (wait: bool)
      modifies this`mRunningNodeNum
      ensures View() == if found then Counted(old(View())) else old(View())
      ensures wait <==> mRunSequence == []
    {
      if found {
        mRunningNodeNum := mRunningNodeNum + 1;
      }
      wait := |mRunSequence| == 0;
    }

    method NotifyChild(next: string)
      requires next in mDependenceNum
      modifies this`mDependenceNum, this`mRunSequence
      ensures View() == Delivered(old(View()), next)
    {
      if !mHasProcessError {
        mDependenceNum := mDependenceNum[next := mDependenceNum[next] - 1];
        if mDependenceNum[next] == 0 {
          mRunSequence := mRunSequence + [next];
        }
      }
    }

    method SignalOk()
      modifies this`mRunningNodeNum
      ensures View() == SignalledOk(old(View()))
    {
      mRunningNodeNum := mRunningNodeNum - 1;
    }

    method SignalError()
      modifies this`mRunningNodeNum, this`mHasProcessError
      ensures View() == SignalledError(old(View()))
    {
      mHasProcessError := true;
      mRunningNodeNum := mRunningNodeNum - 1;
    }
  }

  /** What preparation leaves behind: one count per node with internal inputs, and a queue of exactly
      the nodes that have inputs but only from the application. */
  ghost predicate Ready(t: Topology, c: Counters) {
    && c.running == 0 && !c.hasError
    && (forall n :: n in c.dependence <==> t.InternalInputs(n) != {})
    && (forall n :: n in c.dependence ==> c.dependence[n] == |t.InternalInputs(n)|)
    && (forall n :: n in c.runSequence <==> t.Inputs(n) != {} && t.InternalInputs(n) == {})
    && NoDuplicates(c.runSequence)
  }
}
