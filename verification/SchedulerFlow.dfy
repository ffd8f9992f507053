/** How frames get from node to node while the scheduler runs: what every run keeps besides. */
module SchedulerFlow {
  import opened Collections
  import opened Links
  import opened Scheduler
  import opened SchedulerRuns

  // ---------------------------------------------------------------- what one step changes

  predicate OfWorker(a: Step) {
    !a.Test? && !a.Take? && !a.Hand? && !a.Count? && !a.Wake? && !a.Expedite?
  }

  /** What becomes of the worker that makes the step. */
  function NextWorker(w: Worker, a: Step): Worker {
    match a
    case Fetch(_) => if w.Fetching? then Running(w.frames + 1) else w
    case Share(_) => if w.Running? then Sharing(w.frames, 0) else w
    case Push(_) => if w.Sharing? then Sharing(w.frames, w.pos + 1) else w
    case Early(_) => if w.Sharing? then Sharing(w.frames, w.pos + 1) else w
    case Resume(_) => if w.Sharing? then Fetching(w.frames) else w
    case Succeed(_) => Notifying(0)
    case Fail(_) => Failed
    case Notify(_, _) => if w.Notifying? then Notifying(w.next + 1) else w
    case Signal(_) => Done
    case _ => w
  }

  /** The link that a step puts frames on or counts, or -1. */
  function LinkOf(t: Topology, s: State, a: Step): (i: int)
    ensures i == -1 || (0 <= i < |t.links| && t.links[i].kind.InternalLink? && OfWorker(a) && t.links[i].src == a.node)
  {
    if !OfWorker(a) || a.node !in s.workers then -1
    else
      var n, w := a.node, s.workers[a.node];
      if a.Push? && w.Sharing? && w.pos < |EarlyLinks(t, n)| then EarlyLinks(t, n)[w.pos]
      else if a.Early? && w.Sharing? && |EarlyLinks(t, n)| <= w.pos < 2 * |EarlyLinks(t, n)| then EarlyAt(t, n, w.pos)
      else if a.Notify? && w.Notifying? && w.next < |Outputs(t, n)| then InternalOr(t, Outputs(t, n)[w.next])
      else -1
  }

  function InternalOr(t: Topology, i: int): (r: int)
    requires 0 <= i < |t.links|
  {
    if t.links[i].kind.InternalLink? then i else -1
  }

  function FramesOn(a: Step): nat {
    match a
    case Push(_) => 1
    case Notify(_, rest) => rest
    case _ => 0
  }

  lemma StepWorkers(t: Topology, s: State, a: Step)
    requires Enabled(t, s, a)
    ensures var s' := Apply(t, s, a);
            if OfWorker(a) then a.node in s.workers && s'.workers == s.workers[a.node := NextWorker(s.workers[a.node], a)]
            else if a.Hand? then s'.workers == s.workers || s'.workers == s.workers[s.dispatcher.node := Fetching(0)]
            else s'.workers == s.workers
  {
    hide Outputs;
    hide EarlyLinks;
    hide Starved;
    if a.Early? || a.Notify? {
      DeliveryWorkers(t, s, a);
    } else {
      hide Deliver;
      hide CutShort;
      hide AllTaken;
    }
  }

  lemma DeliveryWorkers(t: Topology, s: State, a: Step)
    requires Enabled(t, s, a) && (a.Early? || a.Notify?)
    ensures a.node in s.workers && Apply(t, s, a).workers == s.workers[a.node := NextWorker(s.workers[a.node], a)]
  {
    hide Outputs;
    hide EarlyLinks;
  }

  lemma StepGiven(t: Topology, s: State, a: Step, i: int)
    requires Enabled(t, s, a) && i != -1
    ensures var s' := Apply(t, s, a);
            Given(s', i) == Given(s, i) + if i == LinkOf(t, s, a) then FramesOn(a) else 0
  {
    hide Starved;
    hide Outputs;
    hide EarlyLinks;
  }

  lemma StepDelivered(t: Topology, s: State, a: Step)
    requires Enabled(t, s, a)
    ensures var s' := Apply(t, s, a); var i := LinkOf(t, s, a);
            if (a.Early? || a.Notify?) && i != -1
            then s.delivered <= s'.delivered <= s.delivered + {i} && (!s'.fault ==> i in s'.delivered)
            else s'.delivered == s.delivered
  {
    hide Starved;
    hide Outputs;
    hide EarlyLinks;
  }

  lemma StepExpedited(t: Topology, s: State, a: Step)
    requires Enabled(t, s, a)
    ensures Apply(t, s, a).expedited == (s.expedited || a.Expedite?)
  {
    hide Starved;
    hide Outputs;
    hide EarlyLinks;
  }

  /** What a worker must have come to for the step. */
  predicate Guard(t: Topology, n: string, w: Worker, a: Step) {
    match a
    case Fetch(_) => w.Fetching?
    case Share(_) => w.Running? && w.frames < t.Frames(n)
    case Push(_) => w.Sharing? && w.pos < |EarlyLinks(t, n)|
    case Early(_) => w.Sharing? && |EarlyLinks(t, n)| <= w.pos < 2 * |EarlyLinks(t, n)|
    case Resume(_) => w.Sharing? && w.pos >= 2 * |EarlyLinks(t, n)|
    case Succeed(_) => w.Running? || w.Fetching?
    case Fail(_) => w.Running? || w.Fetching?
    case Notify(_, _) => w.Notifying? && w.next < |Outputs(t, n)|
    case Signal(_) => w.Notifying? && w.next == |Outputs(t, n)|
    case _ => false
  }

  lemma StepGuard(t: Topology, s: State, a: Step)
    requires Enabled(t, s, a) && OfWorker(a)
    ensures a.node in s.workers && Guard(t, a.node, s.workers[a.node], a)
    ensures a.Fetch? ==> s.workers[a.node].Fetching? && !Starved(t, s, a.node)
    ensures a.Succeed? && !s.expedited ==> s.workers[a.node].Running? && s.workers[a.node].frames >= t.Frames(a.node)
    ensures a.Notify? && LinkOf(t, s, a) != -1 && !s.expedited ==>
              Given(s, LinkOf(t, s, a)) + a.rest >= t.Frames(t.links[LinkOf(t, s, a)].dst)
  {
    hide Outputs;
    hide EarlyLinks;
  }

  // ---------------------------------------------------------------- frames

  /** Where a worker is on its way through its frames. */
  predicate InRange(t: Topology, n: string, w: Worker) {
    match w
    case Fetching(k) => k < t.Frames(n)
    case Running(k) => 1 <= k <= t.Frames(n)
    case Sharing(k, p) => 1 <= k < t.Frames(n) && p <= 2 * |EarlyLinks(t, n)|
    case _ => true
  }

  /** How many frames a worker has put on its early link number `j` by then, ... */
  function PutOn(w: Worker, j: nat): nat {
    match w
    case Fetching(k) => k
    case Running(k) => if k == 0 then 0 else k - 1
    case Sharing(k, p) => if p > j || k == 0 then k else k - 1
    case _ => 0
  }

  /** ... and whether it has told the child. */
  predicate ToldOn(w: Worker, early: nat, j: nat) {
    match w
    case Fetching(k) => k >= 1
    case Running(k) => k >= 2
    case Sharing(k, p) => k >= 2 || p > early + j
    case _ => false
  }

  ghost predicate RangeOk(t: Topology, s: State) {
    forall n :: n in s.workers ==> InRange(t, n, s.workers[n])
  }

  predicate PutOk(t: Topology, s: State, n: string, w: Worker) {
    Between(w) ==> forall j :: 0 <= j < |EarlyLinks(t, n)| ==>
                                 && Given(s, EarlyLinks(t, n)[j]) == PutOn(w, j)
                                 && (ToldOn(w, |EarlyLinks(t, n)|, j) ==> EarlyLinks(t, n)[j] in s.delivered)
  }

  ghost predicate SharedOk(t: Topology, s: State) {
    && (forall n :: n in s.workers ==> PutOk(t, s, n, s.workers[n]))
    && (forall i :: 0 <= i < |t.links| && t.links[i].src !in s.workers ==> Given(s, i) == 0)
  }

  /** How many frames a node must have been given by now; those of an expedited pipeline make do with less. */
  function TakenBy(t: Topology, s: State, n: string): nat
    requires n in s.workers
  {
    match s.workers[n]
    case Fetching(k) => k
    case Running(k) => k
    case Sharing(k, _) => k
    case Notifying(_) => if s.expedited then 0 else t.Frames(n)
    case Done => if s.expedited then 0 else t.Frames(n)
    case Failed => 0
  }

  /** A frame-by-frame node behind another node has taken no more frames than were put there. */
  ghost predicate TakenOk(t: Topology, s: State) {
    forall n, i :: n in s.workers && t.Sigframe(n) && i in t.InternalInputs(n) ==> TakenBy(t, s, n) <= Given(s, i)
  }

  /** Without an expedition a link that was counted has a frame, and has them all once its source is past it. */
  ghost predicate ArrivedOk(t: Topology, s: State) {
    !s.expedited ==> forall i :: 0 <= i < |t.links| && t.links[i].kind.InternalLink? ==> ArrivedAt(t, s, i)
  }

  ghost predicate ArrivedAt(t: Topology, s: State, i: int)
    requires 0 <= i < |t.links|
  {
    (i in s.delivered ==> Given(s, i) >= 1) && (Passed(t, s, i) ==> Given(s, i) >= t.Frames(t.links[i].dst))
  }

  /** A link that was counted before its source came past it is an early one, of a node with several frames. */
  ghost predicate EarlyOk(t: Topology, s: State) {
    forall i :: i in s.delivered && 0 <= i < |t.links| && t.links[i].kind.InternalLink? ==> EarlyCounted(t, s, i)
  }

  ghost predicate EarlyCounted(t: Topology, s: State, i: int)
    requires 0 <= i < |t.links|
  {
    Passed(t, s, i) || (i in EarlyLinks(t, t.links[i].src) && t.Frames(t.links[i].src) >= 2)
  }

  lemma RangeKept(t: Topology, s: State, a: Step)
    requires RangeOk(t, s) && Enabled(t, s, a)
    ensures RangeOk(t, Apply(t, s, a))
  {
    StepWorkers(t, s, a);
    if OfWorker(a) {
      StepGuard(t, s, a);
    }
    hide Apply;
    hide Enabled;
    var s' := Apply(t, s, a);
    forall n | n in s'.workers ensures InRange(t, n, s'.workers[n]) {
      if OfWorker(a) && n == a.node {
        MoveInRange(t, s, n, a);
      }
    }
  }

  lemma MoveInRange(t: Topology, s: State, n: string, a: Step)
    requires n in s.workers && InRange(t, n, s.workers[n]) && OfWorker(a) && a.node == n && Guard(t, n, s.workers[n], a)
    ensures InRange(t, n, NextWorker(s.workers[n], a))
  {
  }

  /** A worker takes frames by fetching only, and is done only when it has all. */
  lemma MoveTaken(t: Topology, s: State, s': State, n: string, a: Step)
    requires n in s.workers && OfWorker(a) && a.node == n && Guard(t, n, s.workers[n], a)
    requires s'.workers == s.workers[n := NextWorker(s.workers[n], a)] && s'.expedited == s.expedited
    requires a.Fetch?
    ensures TakenBy(t, s', n) == TakenBy(t, s, n) + 1
  {
    hide EarlyLinks;
    hide Outputs;
  }

  lemma MoveTakenSame(t: Topology, s: State, s': State, n: string, a: Step)
    requires n in s.workers && OfWorker(a) && a.node == n && Guard(t, n, s.workers[n], a) && !a.Fetch?
    requires s'.workers == s.workers[n := NextWorker(s.workers[n], a)] && s'.expedited == s.expedited
    requires a.Succeed? && !s.expedited ==> s.workers[n].Running? && s.workers[n].frames >= t.Frames(n)
    ensures TakenBy(t, s', n) <= TakenBy(t, s, n)
  {
    hide EarlyLinks;
    hide Outputs;
  }

  lemma TakenKept(t: Topology, s: State, a: Step)
    requires TakenOk(t, s) && Enabled(t, s, a)
    ensures TakenOk(t, Apply(t, s, a))
  {
    StepWorkers(t, s, a);
    StepExpedited(t, s, a);
    if OfWorker(a) {
      StepGuard(t, s, a);
    }
    var s' := Apply(t, s, a);
    forall i | i != -1 ensures Given(s', i) >= Given(s, i) {
      StepGiven(t, s, a, i);
    }
    hide Apply;
    hide Enabled;
    hide LinkOf;
    hide EarlyLinks;
    hide Outputs;
    hide Guard;
    hide NextWorker;
    forall n, i | n in s'.workers && t.Sigframe(n) && i in t.InternalInputs(n) ensures TakenBy(t, s', n) <= Given(s', i) {
      if OfWorker(a) && n == a.node {
        if a.Fetch? {
          assert s.workers[n].Fetching? && Given(s, i) > s.workers[n].frames;
          MoveTaken(t, s, s', n, a);
        } else {
          MoveTakenSame(t, s, s', n, a);
        }
      }
    }
  }

  /** What a worker's own step does to the frames it has put on a link. */
  lemma MovePut(t: Topology, n: string, w: Worker, a: Step, j: nat)
    requires OfWorker(a) && Guard(t, n, w, a) && InRange(t, n, w) && Between(w) && Between(NextWorker(w, a))
    requires j < |EarlyLinks(t, n)|
    ensures PutOn(NextWorker(w, a), j) == PutOn(w, j) + if a.Push? && j == w.pos then 1 else 0
    ensures ToldOn(NextWorker(w, a), |EarlyLinks(t, n)|, j)
            <==> ToldOn(w, |EarlyLinks(t, n)|, j) || (a.Early? && w.pos == |EarlyLinks(t, n)| + j)
  {
  }

  /** On which early link a worker's step puts frames, or tells the child. */
  lemma MoveLink(t: Topology, s: State, a: Step, j: nat)
    requires OfWorker(a) && a.node in s.workers && Guard(t, a.node, s.workers[a.node], a)
    requires Between(s.workers[a.node]) && j < |EarlyLinks(t, a.node)|
    ensures var w := s.workers[a.node];
            && (EarlyLinks(t, a.node)[j] == LinkOf(t, s, a) && FramesOn(a) > 0 <==> a.Push? && j == w.pos)
            && (a.Early? && w.pos == |EarlyLinks(t, a.node)| + j ==> EarlyLinks(t, a.node)[j] == LinkOf(t, s, a))
  {
    hide Outputs;
  }

  lemma OwnPut(t: Topology, s: State, a: Step)
    requires Inv(t, s) && Enabled(t, s, a) && OfWorker(a) && a.node in s.workers && RangeOk(t, s) && !Apply(t, s, a).fault
    requires PutOk(t, s, a.node, s.workers[a.node]) && Between(s.workers[a.node])
    ensures PutOk(t, Apply(t, s, a), a.node, NextWorker(s.workers[a.node], a))
  {
    StepGuard(t, s, a);
    StepDelivered(t, s, a);
    hide Enabled;
    hide Apply;
    hide LinkOf;
    hide EarlyLinks;
    hide PutOn;
    hide ToldOn;
    hide Guard;
    var n, w, s' := a.node, s.workers[a.node], Apply(t, s, a);
    assert InRange(t, n, w);
    hide Inv;
    hide RangeOk;
    hide InRange;
    hide NextWorker;
    if Between(NextWorker(w, a)) {
      forall j | 0 <= j < |EarlyLinks(t, n)|
        ensures Given(s', EarlyLinks(t, n)[j]) == PutOn(NextWorker(w, a), j)
        ensures ToldOn(NextWorker(w, a), |EarlyLinks(t, n)|, j) ==> EarlyLinks(t, n)[j] in s'.delivered
      {
        MovePut(t, n, w, a, j);
        MoveLink(t, s, a, j);
        StepGiven(t, s, a, EarlyLinks(t, n)[j]);
      }
    }
  }

  lemma OtherPut(t: Topology, s: State, a: Step, n: string)
    requires Enabled(t, s, a) && n in s.workers && (OfWorker(a) ==> n != a.node)
    requires PutOk(t, s, n, s.workers[n])
    ensures PutOk(t, Apply(t, s, a), n, s.workers[n])
  {
    StepDelivered(t, s, a);
    hide Enabled;
    hide Apply;
    hide LinkOf;
    hide EarlyLinks;
    hide PutOn;
    hide ToldOn;
    forall j | 0 <= j < |EarlyLinks(t, n)|
      ensures Given(Apply(t, s, a), EarlyLinks(t, n)[j]) == Given(s, EarlyLinks(t, n)[j])
    {
      StepGiven(t, s, a, EarlyLinks(t, n)[j]);
    }
  }

  lemma StartPut(t: Topology, s: State, n: string)
    requires SharedOk(t, s) && n !in s.workers
    ensures PutOk(t, s, n, Fetching(0))
  {
    forall j | 0 <= j < |EarlyLinks(t, n)| ensures Given(s, EarlyLinks(t, n)[j]) == 0 {
      assert t.links[EarlyLinks(t, n)[j]].src == n;
    }
  }

  lemma SharedKept(t: Topology, s: State, a: Step)
    requires Inv(t, s) && SharedOk(t, s) && RangeOk(t, s) && Enabled(t, s, a) && !Apply(t, s, a).fault
    ensures SharedOk(t, Apply(t, s, a))
  {
    var s' := Apply(t, s, a);
    hide Inv;
    hide RangeOk;
    hide Enabled;
    hide Apply;
    hide PutOk;
    forall n | n in s'.workers ensures PutOk(t, s', n, s'.workers[n]) {
      PutKept(t, s, a, n);
    }
    forall i | 0 <= i < |t.links| && t.links[i].src !in s'.workers ensures Given(s', i) == 0 {
      NotGiven(t, s, a, i);
    }
  }

  lemma NotGiven(t: Topology, s: State, a: Step, i: int)
    requires SharedOk(t, s) && Enabled(t, s, a) && 0 <= i < |t.links| && t.links[i].src !in Apply(t, s, a).workers
    ensures Given(Apply(t, s, a), i) == 0
  {
    StepWorkers(t, s, a);
    StepGiven(t, s, a, i);
    hide Enabled;
    hide Apply;
    hide PutOk;
    hide Given;
  }

  lemma PutKept(t: Topology, s: State, a: Step, n: string)
    requires Inv(t, s) && SharedOk(t, s) && RangeOk(t, s) && Enabled(t, s, a) && !Apply(t, s, a).fault
    requires n in Apply(t, s, a).workers
    ensures PutOk(t, Apply(t, s, a), n, Apply(t, s, a).workers[n])
  {
    var s' := Apply(t, s, a);
    StepWorkers(t, s, a);
    if OfWorker(a) && n == a.node {
      hide *;
      MoverPut(t, s, a);
    } else if n in s.workers && s'.workers[n] == s.workers[n] {
      assert PutOk(t, s, n, s.workers[n]);
      hide *;
      OtherPut(t, s, a, n);
    } else {
      HandStep(t, s);
      assert s.dispatcher.node !in s.workers;
      hide *;
      StartPut(t, s, n);
      SamePut(t, s, s', n, Fetching(0));
    }
  }

  lemma SamePut(t: Topology, s: State, s': State, n: string, w: Worker)
    requires PutOk(t, s, n, w) && s'.given == s.given && s'.delivered == s.delivered
    ensures PutOk(t, s', n, w)
  {
  }

  lemma MoverPut(t: Topology, s: State, a: Step)
    requires Inv(t, s) && SharedOk(t, s) && RangeOk(t, s) && Enabled(t, s, a) && OfWorker(a)
    requires a.node in s.workers && !Apply(t, s, a).fault
    ensures PutOk(t, Apply(t, s, a), a.node, NextWorker(s.workers[a.node], a))
  {
    StepGuard(t, s, a);
    hide Enabled;
    hide Apply;
    hide EarlyLinks;
    if Between(s.workers[a.node]) {
      OwnPut(t, s, a);
    }
  }

  /** A step makes a source come past a link only by walking past it. */
  lemma StepPasses(t: Topology, s: State, a: Step, i: int)
    requires Inv(t, s) && Enabled(t, s, a) && 0 <= i < |t.links| && t.links[i].kind.InternalLink?
    ensures Passed(t, Apply(t, s, a), i) <==> Passed(t, s, i) || (a.Notify? && i == LinkOf(t, s, a))
  {
    StepWorkers(t, s, a);
    if OfWorker(a) {
      StepGuard(t, s, a);
    }
    assert a.Hand? ==> s.dispatcher.node !in s.workers;
    if OfWorker(a) && t.links[i].src == a.node {
      hide *;
      OwnPasses(t, s, Apply(t, s, a), a, i);
    } else {
      hide Inv;
      hide Enabled;
      hide Apply;
      hide EarlyLinks;
      hide Outputs;
      hide Guard;
    }
  }

  lemma OwnPasses(t: Topology, s: State, s': State, a: Step, i: int)
    requires OfWorker(a) && a.node in s.workers && Guard(t, a.node, s.workers[a.node], a)
    requires 0 <= i < |t.links| && t.links[i].kind.InternalLink? && t.links[i].src == a.node
    requires s'.workers == s.workers[a.node := NextWorker(s.workers[a.node], a)]
    ensures Passed(t, s', i) <==> Passed(t, s, i) || (a.Notify? && i == LinkOf(t, s, a))
  {
    if a.Notify? {
      NotifyPasses(t, s, s', a, i);
    } else {
      hide EarlyLinks;
      hide LinkOf;
      if a.Signal? {
        assert LeavesNode(t.links[i], a.node);
        assert i in Outputs(t, a.node);
      }
    }
  }

  lemma NotifyPasses(t: Topology, s: State, s': State, a: Step, i: int)
    requires a.Notify? && a.node in s.workers && Guard(t, a.node, s.workers[a.node], a)
    requires 0 <= i < |t.links| && t.links[i].kind.InternalLink? && t.links[i].src == a.node
    requires s'.workers == s.workers[a.node := NextWorker(s.workers[a.node], a)]
    ensures Passed(t, s', i) <==> Passed(t, s, i) || i == LinkOf(t, s, a)
  {
    hide EarlyLinks;
    var k := s.workers[a.node].next;
    hide Outputs;
    if Passed(t, s', i) && !Passed(t, s, i) {
      assert Outputs(t, a.node)[k] == i;
    }
    if i == LinkOf(t, s, a) {
      assert Outputs(t, a.node)[k] == i;
    }
  }

  /** A link that an early notice counts. */
  lemma EarlyFacts(t: Topology, s: State, a: Step)
    requires Enabled(t, s, a) && a.Early? && RangeOk(t, s) && SharedOk(t, s)
    ensures var i := LinkOf(t, s, a);
            && i != -1 && i in EarlyLinks(t, a.node) && t.links[i].src == a.node && t.Frames(a.node) >= 2
            && Given(s, i) >= 1
  {
    StepGuard(t, s, a);
    hide Enabled;
    var n, w := a.node, s.workers[a.node];
    assert InRange(t, n, w) && PutOk(t, s, n, w);
    hide EarlyLinks;
    var j := w.pos - |EarlyLinks(t, n)|;
    assert EarlyAt(t, n, w.pos) == EarlyLinks(t, n)[j] && Given(s, EarlyLinks(t, n)[j]) == PutOn(w, j);
  }

  lemma ArrivedStep(t: Topology, s: State, a: Step, i: int)
    requires Inv(t, s) && SharedOk(t, s) && RangeOk(t, s) && Enabled(t, s, a) && !s.expedited
    requires 0 <= i < |t.links| && t.links[i].kind.InternalLink? && ArrivedAt(t, s, i)
    ensures ArrivedAt(t, Apply(t, s, a), i)
  {
    StepDelivered(t, s, a);
    StepGiven(t, s, a, i);
    StepPasses(t, s, a, i);
    if a.Early? {
      EarlyFacts(t, s, a);
    } else if a.Notify? {
      StepGuard(t, s, a);
    }
    hide Inv;
    hide Apply;
    hide Enabled;
    hide Passed;
    hide LinkOf;
    hide EarlyLinks;
    hide Outputs;
  }

  lemma ArrivedKept(t: Topology, s: State, a: Step)
    requires Inv(t, s) && ArrivedOk(t, s) && SharedOk(t, s) && RangeOk(t, s) && Enabled(t, s, a)
    ensures ArrivedOk(t, Apply(t, s, a))
  {
    StepExpedited(t, s, a);
    hide Inv;
    hide SharedOk;
    hide RangeOk;
    hide Apply;
    hide Enabled;
    hide ArrivedAt;
    if !Apply(t, s, a).expedited {
      forall i | 0 <= i < |t.links| && t.links[i].kind.InternalLink? ensures ArrivedAt(t, Apply(t, s, a), i) {
        ArrivedStep(t, s, a, i);
      }
    }
  }

  lemma EarlyStep(t: Topology, s: State, a: Step, i: int)
    requires Inv(t, s) && SharedOk(t, s) && RangeOk(t, s) && Enabled(t, s, a)
    requires 0 <= i < |t.links| && t.links[i].kind.InternalLink? && i in Apply(t, s, a).delivered
    requires i in s.delivered ==> EarlyCounted(t, s, i)
    ensures EarlyCounted(t, Apply(t, s, a), i)
  {
    StepDelivered(t, s, a);
    StepPasses(t, s, a, i);
    if a.Early? {
      EarlyFacts(t, s, a);
    }
    hide Inv;
    hide Apply;
    hide Enabled;
    hide Passed;
    hide LinkOf;
    hide EarlyLinks;
    hide Outputs;
  }

  lemma EarlyKept(t: Topology, s: State, a: Step)
    requires Inv(t, s) && EarlyOk(t, s) && SharedOk(t, s) && RangeOk(t, s) && Enabled(t, s, a)
    ensures EarlyOk(t, Apply(t, s, a))
  {
    hide Inv;
    hide SharedOk;
    hide RangeOk;
    hide Apply;
    hide Enabled;
    hide EarlyCounted;
    var s' := Apply(t, s, a);
    forall i | i in s'.delivered && 0 <= i < |t.links| && t.links[i].kind.InternalLink? ensures EarlyCounted(t, s', i) {
      EarlyStep(t, s, a, i);
    }
  }

  // ---------------------------------------------------------------- no wake-up is lost

  /** A dispatcher asleep, and not yet told to look again, has a node in flight to wait for; if a node has been queued
      meanwhile, one that has finished is still to say its last word. */
  ghost predicate WakeOk(s: State) {
    s.dispatcher == Waiting(false) ==>
      s.c.running != 0 && (s.c.runSequence != [] ==> exists n :: n in s.workers && s.workers[n].Notifying?)
  }

  lemma WakeKept(t: Topology, s: State, a: Step)
    requires WakeOk(s) && Enabled(t, s, a)
    ensures WakeOk(Apply(t, s, a))
  {
    StepWorkers(t, s, a);
    StepWakes(t, s, a);
    if OfWorker(a) {
      StepGuard(t, s, a);
    }
    hide Enabled;
    hide Apply;
    hide EarlyLinks;
    hide Outputs;
    hide LinkOf;
    var s' := Apply(t, s, a);
    if s'.dispatcher == Waiting(false) && s'.c.runSequence != [] {
      if OfWorker(a) && s'.workers[a.node].Notifying? {
      } else {
        var n :| n in s.workers && s.workers[n].Notifying?;
        assert n in s'.workers && s'.workers[n].Notifying?;
      }
    }
  }

  /** The dispatcher sleeps on only if nothing it looks at has changed, or the node that changed it has yet to speak. */
  lemma StepWakes(t: Topology, s: State, a: Step)
    requires Enabled(t, s, a)
    ensures var s' := Apply(t, s, a);
            s'.dispatcher == Waiting(false) ==>
              || (s'.c.running != 0 && s'.c.runSequence == [])
              || (s.dispatcher == Waiting(false) && s'.c.running == s.c.running
                  && (s'.c.runSequence == s.c.runSequence || a.Notify?) && !a.Signal?)
  {
    hide Starved;
    hide Outputs;
    hide EarlyLinks;
  }

  // ---------------------------------------------------------------- the order of the queue

  /** The sources of a node's internal inputs were queued before it. */
  ghost predicate OrderOk(t: Topology, s: State) {
    forall p :: 0 <= p < |Queued(s)| ==> SourcesBefore(t, Queued(s), p)
  }

  ghost predicate SourcesBefore(t: Topology, q: seq<string>, p: int)
    requires 0 <= p < |q|
  {
    forall i :: i in t.InternalInputs(q[p]) ==> t.links[i].src in q[..p]
  }

  lemma OrderKept(t: Topology, s: State, a: Step)
    requires Enabled(t, s, a) && Inv(t, Apply(t, s, a)) && OrderOk(t, s)
    ensures OrderOk(t, Apply(t, s, a))
  {
    var s' := Apply(t, s, a);
    StepHistory(t, s, a, s');
    hide Apply;
    hide Enabled;
    var q, q' := Queued(s), Queued(s');
    forall p | 0 <= p < |q'| ensures SourcesBefore(t, q', p) {
      if p < |q| {
        assert q[p] == q'[p] && q[..p] == q'[..p] && SourcesBefore(t, q, p);
      } else {
        LastSources(t, s, s', p);
      }
    }
  }

  lemma LastSources(t: Topology, s: State, s': State, p: nat)
    requires Inv(t, s') && s'.taken == s.taken && p == |Queued(s)| < |Queued(s')|
    ensures SourcesBefore(t, Queued(s'), p)
  {
    var n := Queued(s')[p];
    assert Fulfilled(t, s', n);
    forall i | i in t.InternalInputs(n) ensures t.links[i].src in Queued(s')[..p] {
      assert i in s'.delivered && t.links[i].src in s'.workers;
      assert t.links[i].src in s'.taken && s'.taken <= Queued(s')[..p];
    }
  }

  // ---------------------------------------------------------------- every run

  ghost predicate FlowOk(t: Topology, s: State) {
    RangeOk(t, s) && SharedOk(t, s) && TakenOk(t, s) && ArrivedOk(t, s) && EarlyOk(t, s) && WakeOk(s) && OrderOk(t, s)
  }

  lemma FlowStep(t: Topology, s: State, a: Step, s': State)
    requires t.Accepted() && Inv(t, s) && FlowOk(t, s) && Stepped(t, s, a, s')
    ensures FlowOk(t, s')
  {
    StepInv(t, s, a, s');
    assert !s'.fault;
    hide *;
    FlowParts(t, s);
    FlowParts(t, s');
    SteppedParts(t, s, a, s');
    RangeKept(t, s, a);
    SharedKept(t, s, a);
    TakenKept(t, s, a);
    ArrivedKept(t, s, a);
    EarlyKept(t, s, a);
    WakeKept(t, s, a);
    OrderKept(t, s, a);
  }

  lemma FlowParts(t: Topology, s: State)
    ensures FlowOk(t, s) <==> RangeOk(t, s) && SharedOk(t, s) && TakenOk(t, s) && ArrivedOk(t, s) && EarlyOk(t, s)
                              && WakeOk(s) && OrderOk(t, s)
  {
    hide RangeOk;
    hide SharedOk;
    hide TakenOk;
    hide ArrivedOk;
    hide EarlyOk;
    hide WakeOk;
    hide OrderOk;
  }

  lemma SteppedParts(t: Topology, s: State, a: Step, s': State)
    ensures Stepped(t, s, a, s') ==> Enabled(t, s, a) && s' == Apply(t, s, a)
  {
    hide Enabled;
    hide Apply;
  }

  lemma FlowInitial(t: Topology, s: State)
    requires Initial(t, s)
    ensures FlowOk(t, s)
  {
    forall p | 0 <= p < |Queued(s)| ensures SourcesBefore(t, Queued(s), p) {
      assert Queued(s)[p] in s.c.runSequence;
    }
  }

  lemma {:induction false} FlowInv(t: Topology, states: seq<State>, steps: seq<Step>, k: nat)
    requires Run(t, states, steps) && k < |states|
    ensures Inv(t, states[k]) && FlowOk(t, states[k]) && WakeOk(states[k])
  {
    hide Initial;
    hide Stepped;
    hide Inv;
    hide FlowOk;
    hide Topology.Accepted;
    RunInv(t, states, steps, k);
    if k == 0 {
      FlowInitial(t, states[0]);
    } else {
      FlowInv(t, states, steps, k - 1);
      FlowStep(t, states[k - 1], steps[k - 1], states[k]);
    }
    FlowParts(t, states[k]);
  }
}
