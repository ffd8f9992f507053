/** How runs of the scheduler end: that all do, and exactly when one ends with threads that sleep for ever. */
module SchedulerEnds {
  import opened Collections
  import opened Links
  import opened Scheduler
  import opened SchedulerRuns
  import opened SchedulerFlow

  // ---------------------------------------------------------------- sleeping for ever

  /** No thread has a step; only the application could still do something. */
  ghost predicate Stuck(t: Topology, s: State) {
    forall a :: Enabled(t, s, a) ==> a.Expedite?
  }

  /** The dispatcher is asleep with nothing queued, and every node in flight sleeps on an empty queue. */
  ghost predicate Asleep(t: Topology, s: State) {
    && s.dispatcher == Waiting(false) && s.c.runSequence == [] && InFlight(s) != {}
    && forall n :: n in InFlight(s) ==> Starved(t, s, n)
  }

  lemma WorkerStep(t: Topology, s: State, n: string) returns (a: Step)
    requires WorkersOk(t, s) && n in InFlight(s) && !Starved(t, s, n)
    ensures Enabled(t, s, a) && OfWorker(a) && !a.Fail?
  {
    hide Outputs;
    hide EarlyLinks;
    var e := |EarlyLinks(t, n)|;
    match s.workers[n]
    case Fetching(_) => a := Fetch(n);
    case Running(k) => a := if k < t.Frames(n) then Share(n) else Succeed(n);
    case Sharing(_, p) => a := if p < e then Push(n) else if p < 2 * e then Early(n) else Resume(n);
    case Notifying(j) =>
      if j < |Outputs(t, n)| {
        var link := t.links[Outputs(t, n)[j]];
        a := Notify(n, if link.kind.SinkLink? then 0 else t.Frames(link.dst));
      } else {
        a := Signal(n);
      }
  }

  lemma NextStep(t: Topology, s: State) returns (a: Step)
    requires Inv(t, s) && WakeOk(s) && !s.dispatcher.Finished? && !Asleep(t, s)
    ensures Enabled(t, s, a) && !a.Fail? && !a.Expedite?
  {
    match s.dispatcher
    case Testing => a := Test;
    case Taking => a := Take;
    case Handing(_) => a := Hand;
    case Counting(_) => a := Count;
    case Waiting(notified) =>
      if notified {
        a := Wake;
      } else {
        assert InFlight(s) != {};
        var n: string;
        if s.c.runSequence != [] {
          n :| n in s.workers && s.workers[n].Notifying?;
        } else {
          n :| n in InFlight(s) && !Starved(t, s, n);
        }
        a := WorkerStep(t, s, n);
      }
  }

  lemma StarvedStays(t: Topology, s: State, a: Step)
    requires t.Accepted() && Enabled(t, s, a) && OfWorker(a)
    ensures !Starved(t, s, a.node)
  {
    hide Outputs;
    hide EarlyLinks;
    if Starved(t, s, a.node) {
      StarvedInside(t, s, a.node);
    }
  }

  lemma StarvedInside(t: Topology, s: State, n: string)
    requires t.Accepted() && Starved(t, s, n)
    ensures !FromApplication(t, n)
  {
    var i :| i in t.InternalInputs(n) && Given(s, i) <= s.workers[n].frames;
    assert i in t.Inputs(n);
    forall j | j in t.Inputs(n) ensures !t.links[j].kind.SourceLink? {
      assert i == j;
    }
  }

  lemma AsleepStuck(t: Topology, s: State)
    requires t.Accepted() && Asleep(t, s)
    ensures Stuck(t, s)
  {
    hide Topology.Accepted;
    forall a | Enabled(t, s, a) ensures a.Expedite? {
      if OfWorker(a) {
        WorkersInFlight(t, s, a);
        StarvedStays(t, s, a);
      }
    }
  }

  lemma WorkersInFlight(t: Topology, s: State, a: Step)
    requires Enabled(t, s, a) && OfWorker(a)
    ensures a.node in InFlight(s)
  {
    hide Outputs;
    hide EarlyLinks;
    hide Starved;
  }

  /** Before the dispatcher has finished, no thread has a step if and only if the dispatcher is asleep with nothing
      queued and every node in flight is a frame-by-frame node asleep on an empty queue behind another node. */
  lemma StuckExactly(t: Topology, states: seq<State>, steps: seq<Step>, k: nat)
    requires Run(t, states, steps) && k < |states| && !states[k].dispatcher.Finished?
    ensures Stuck(t, states[k]) <==> Asleep(t, states[k])
  {
    FlowInv(t, states, steps, k);
    var s := states[k];
    assert t.Accepted();
    if Asleep(t, s) {
      hide *;
      AsleepStuck(t, s);
    } else {
      hide Enabled;
      hide Inv;
      hide FlowOk;
      hide WakeOk;
      var a := NextStep(t, s);
    }
  }

  predicate Feeds(t: Topology, m: string, n: string) {
    exists i :: i in t.InternalInputs(n) && t.links[i].src == m
  }

  /** A chain of sleeping nodes, each fed by the next, up to a node that has failed. */
  ghost predicate BehindFailed(t: Topology, s: State, chain: seq<string>) {
    && |chain| >= 2 && chain[|chain| - 1] in s.workers && s.workers[chain[|chain| - 1]].Failed?
    && (forall j :: 0 <= j < |chain| - 1 ==> Starved(t, s, chain[j]))
    && (forall j :: 0 < j < |chain| ==> Feeds(t, chain[j], chain[j - 1]))
  }

  lemma StarvedSource(t: Topology, s: State, p: nat) returns (m: string, q: nat)
    requires Inv(t, s) && FlowOk(t, s) && !s.expedited && p < |Queued(s)| && Starved(t, s, Queued(s)[p])
    ensures q < p && Queued(s)[q] == m && m in s.workers && Feeds(t, m, Queued(s)[p])
    ensures s.workers[m].Failed? || m in InFlight(s)
  {
    var n := Queued(s)[p];
    var i :| i in t.InternalInputs(n) && Given(s, i) <= s.workers[n].frames;
    assert Fulfilled(t, s, n) && InRange(t, n, s.workers[n]) && SourcesBefore(t, Queued(s), p);
    assert ArrivedAt(t, s, i) && !Passed(t, s, i);
    m := t.links[i].src;
    q :| 0 <= q < p && Queued(s)[q] == m;
  }

  lemma ChainGrows(t: Topology, s: State, n: string, rest: seq<string>)
    requires BehindFailed(t, s, rest) && Starved(t, s, n) && Feeds(t, rest[0], n)
    ensures BehindFailed(t, s, [n] + rest)
  {
    hide Starved;
    hide Feeds;
    var chain := [n] + rest;
    assert forall j :: 0 < j < |chain| ==> chain[j] == rest[j - 1];
  }

  lemma {:induction false} SleepsBehindFailure(t: Topology, s: State, p: nat) returns (chain: seq<string>)
    requires Inv(t, s) && FlowOk(t, s) && !s.expedited
    requires forall n :: n in InFlight(s) ==> Starved(t, s, n)
    requires p < |Queued(s)| && Queued(s)[p] in InFlight(s)
    ensures BehindFailed(t, s, chain) && chain[0] == Queued(s)[p]
    decreases p
  {
    var m, q := StarvedSource(t, s, p);
    hide Inv;
    hide FlowOk;
    hide Starved;
    hide Feeds;
    hide Queued;
    if s.workers[m].Failed? {
      chain := [Queued(s)[p], m];
    } else {
      var rest := SleepsBehindFailure(t, s, q);
      ChainGrows(t, s, Queued(s)[p], rest);
      chain := [Queued(s)[p]] + rest;
    }
  }

  /** When no thread has a step left, and the application has not expedited, every node still in flight sleeps behind
      a node that has failed. */
  lemma StuckBehindFailure(t: Topology, states: seq<State>, steps: seq<Step>, k: nat, n: string)
    returns (chain: seq<string>)
    requires Run(t, states, steps) && k < |states| && !states[k].dispatcher.Finished? && !states[k].expedited
    requires Stuck(t, states[k]) && n in InFlight(states[k])
    ensures BehindFailed(t, states[k], chain) && chain[0] == n
  {
    FlowInv(t, states, steps, k);
    StuckExactly(t, states, steps, k);
    var s := states[k];
    assert n in Queued(s);
    var p :| 0 <= p < |Queued(s)| && Queued(s)[p] == n;
    hide Inv;
    hide FlowOk;
    chain := SleepsBehindFailure(t, s, p);
  }

  /** So without a failure and without an expedition some thread has a step, other than to fail, until the dispatcher
      has finished. */
  lemma FlowsUnlessFailed(t: Topology, states: seq<State>, steps: seq<Step>, k: nat) returns (a: Step)
    requires Run(t, states, steps) && k < |states| && !states[k].dispatcher.Finished?
    requires !states[k].c.hasError && !states[k].expedited
    ensures Enabled(t, states[k], a) && !a.Fail? && !a.Expedite?
  {
    FlowInv(t, states, steps, k);
    StuckExactly(t, states, steps, k);
    var s := states[k];
    if Asleep(t, s) {
      var n :| n in InFlight(s);
      var chain := StuckBehindFailure(t, states, steps, k, n);
      assert false;
    }
    a := NextStep(t, s);
  }

  // ---------------------------------------------------------------- no run goes on for ever

  /** The rounds a node has still to make. */
  function Rounds(t: Topology, n: string, frames: nat): nat
    requires frames <= t.Frames(n)
    decreases t.Frames(n) - frames
  {
    if frames == t.Frames(n) then 0 else 2 * |EarlyLinks(t, n)| + 3 + Rounds(t, n, frames + 1)
  }

  /** At most so many steps are left to a worker. */
  function StepsLeft(t: Topology, n: string, w: Worker): int {
    var out := |Outputs(t, n)|;
    match w
    case Fetching(k) => if k <= t.Frames(n) then Rounds(t, n, k) + out + 3 else 0
    case Running(k) => if 1 <= k <= t.Frames(n) then Rounds(t, n, k - 1) + out + 2 else 0
    case Sharing(k, p) => if 1 <= k <= t.Frames(n) then Rounds(t, n, k - 1) + out + 1 - p else 0
    case Notifying(j) => out + 1 - j
    case _ => 0
  }

  /** Four for each step of a node's worker, which may wake the dispatcher; and eight for getting it there. */
  function Due(t: Topology, s: State, n: string): int {
    if n in s.workers then 4 * StepsLeft(t, n, s.workers[n])
    else
      4 * StepsLeft(t, n, Fetching(0))
      + if n in s.taken then 0 else if n in s.c.runSequence then 8 else 16
  }

  function DispatcherDue(d: Dispatcher): int {
    match d
    case Finished => 0
    case Waiting(notified) => if notified then 4 else 1
    case Taking => 2
    case Testing => 3
    case Counting(_) => 5
    case Handing(_) => 6
  }

  function Destinations(t: Topology): set<string> {
    set i | 0 <= i < |t.links| :: t.links[i].dst
  }

  ghost function AllDue(t: Topology, s: State): map<string, int> {
    map n | n in Destinations(t) :: Due(t, s, n)
  }

  ghost function StepsDue(t: Topology, s: State): int {
    Sum(AllDue(t, s)) + DispatcherDue(s.dispatcher) + if s.expedited then 0 else 1
  }

  lemma WorkerStepsLeft(t: Topology, n: string, w: Worker, a: Step)
    requires OfWorker(a) && InRange(t, n, w) && Guard(t, n, w, a)
    ensures StepsLeft(t, n, NextWorker(w, a)) < StepsLeft(t, n, w)
  {
    hide EarlyLinks;
    hide Outputs;
  }

  lemma StepQueue(t: Topology, s: State, a: Step)
    requires Enabled(t, s, a) && OfWorker(a)
    ensures var s' := Apply(t, s, a); s'.taken == s.taken && s.c.runSequence <= s'.c.runSequence
  {
    hide Starved;
    hide Outputs;
    hide EarlyLinks;
    hide NextWorker;
    if a.Early? || a.Notify? {
      StepDelivers(t, s, a);
    }
  }

  lemma StepDelivers(t: Topology, s: State, a: Step)
    requires Enabled(t, s, a) && (a.Early? || a.Notify?)
    ensures var s' := Apply(t, s, a); s'.taken == s.taken && s.c.runSequence <= s'.c.runSequence
  {
    hide Starved;
    hide Outputs;
    hide EarlyLinks;
  }

  lemma StepDispatcher(t: Topology, s: State, a: Step)
    requires Enabled(t, s, a) && OfWorker(a)
    ensures Apply(t, s, a).dispatcher == s.dispatcher || (s.dispatcher.Waiting? && Apply(t, s, a).dispatcher == Waiting(true))
  {
    hide Starved;
    hide Outputs;
    hide EarlyLinks;
  }

  lemma QueuedDestinations(t: Topology, s: State, n: string)
    requires Inv(t, s) && (n in Queued(s) || n in s.workers)
    ensures n in Destinations(t) && (n in s.workers ==> n in s.taken)
  {
    assert n in Queued(s);
    assert Fulfilled(t, s, n);
    assert exists i :: i in t.Inputs(n);
  }

  /** A worker's step brings it nearer to its end, and no other node further away. */
  lemma DueFalls(t: Topology, s: State, s': State, n: string, w: Worker, m: string)
    requires s'.workers == s.workers[n := w] && s'.taken == s.taken && s.c.runSequence <= s'.c.runSequence
    requires n in s.workers && StepsLeft(t, n, w) < StepsLeft(t, n, s.workers[n])
    ensures Due(t, s', m) <= Due(t, s, m) && (m == n ==> Due(t, s', m) + 4 <= Due(t, s, m))
  {
    hide StepsLeft;
  }

  lemma MoverFalls(t: Topology, s: State, a: Step)
    requires RangeOk(t, s) && Enabled(t, s, a) && OfWorker(a)
    ensures a.node in s.workers && Apply(t, s, a).workers == s.workers[a.node := NextWorker(s.workers[a.node], a)]
    ensures StepsLeft(t, a.node, NextWorker(s.workers[a.node], a)) < StepsLeft(t, a.node, s.workers[a.node])
  {
    StepWorkers(t, s, a);
    StepGuard(t, s, a);
    hide Enabled;
    hide Apply;
    hide StepsLeft;
    hide Guard;
    hide NextWorker;
    assert InRange(t, a.node, s.workers[a.node]);
    WorkerStepsLeft(t, a.node, s.workers[a.node], a);
  }

  lemma WorkerDue(t: Topology, s: State, a: Step)
    requires Inv(t, s) && RangeOk(t, s) && Enabled(t, s, a) && OfWorker(a)
    ensures StepsDue(t, Apply(t, s, a)) < StepsDue(t, s)
  {
    var n, s' := a.node, Apply(t, s, a);
    MoverFalls(t, s, a);
    StepQueue(t, s, a);
    StepDispatcher(t, s, a);
    StepExpedited(t, s, a);
    QueuedDestinations(t, s, n);
    hide Inv;
    hide RangeOk;
    hide Enabled;
    hide Apply;
    hide StepsLeft;
    hide Due;
    hide NextWorker;
    forall m | m in Destinations(t) ensures Due(t, s', m) <= Due(t, s, m) {
      DueFalls(t, s, s', n, NextWorker(s.workers[n], a), m);
    }
    DueFalls(t, s, s', n, NextWorker(s.workers[n], a), n);
    hide *;
    DueSum(t, s, s', n, 4);
    LessDue(t, s, s');
  }

  lemma LessDue(t: Topology, s: State, s': State)
    requires Sum(AllDue(t, s')) + 4 <= Sum(AllDue(t, s)) && s'.expedited == s.expedited
    requires s'.dispatcher == s.dispatcher || (s.dispatcher.Waiting? && s'.dispatcher == Waiting(true))
    ensures StepsDue(t, s') < StepsDue(t, s)
  {
    hide AllDue;
    hide Sum;
  }

  lemma HeadIsNew(t: Topology, s: State, n: string)
    requires Inv(t, s) && s.c.runSequence != [] && n == s.c.runSequence[0]
    ensures n !in s.taken && n !in s.workers && n in Destinations(t)
  {
    var q, k := Queued(s), |s.taken|;
    assert q[k] == n && n in q;
    forall j | 0 <= j < k ensures s.taken[j] != n {
      assert q[j] == s.taken[j];
    }
    QueuedDestinations(t, s, n);
  }

  lemma TakeStep(t: Topology, s: State)
    requires Enabled(t, s, Take)
    ensures var s' := Apply(t, s, Take); var n := s.c.runSequence[0];
            && s'.workers == s.workers && s'.taken == s.taken + [n] && s.c.runSequence == [n] + s'.c.runSequence
            && s'.expedited == s.expedited && s.dispatcher.Taking? && s'.dispatcher.Handing?
  {
  }

  lemma TakenDue(t: Topology, s: State, s': State, n: string, m: string)
    requires s'.workers == s.workers && s'.taken == s.taken + [n] && s.c.runSequence == [n] + s'.c.runSequence
    requires n !in s.taken && n !in s.workers
    ensures Due(t, s', m) == Due(t, s, m) - if m == n then 8 else 0
  {
    hide StepsLeft;
  }

  lemma TakeDue(t: Topology, s: State)
    requires Inv(t, s) && Enabled(t, s, Take)
    ensures StepsDue(t, Apply(t, s, Take)) < StepsDue(t, s)
  {
    var n, s' := s.c.runSequence[0], Apply(t, s, Take);
    TakeStep(t, s);
    HeadIsNew(t, s, n);
    hide Inv;
    hide Enabled;
    hide Apply;
    hide Due;
    forall m | m in Destinations(t) ensures Due(t, s', m) == Due(t, s, m) - if m == n then 8 else 0 {
      TakenDue(t, s, s', n, m);
    }
    hide Destinations;
    hide AllDue;
    DueSum(t, s, s', n, 8);
  }

  lemma DueSum(t: Topology, s: State, s': State, n: string, d: nat)
    requires n in Destinations(t) && Due(t, s', n) + d <= Due(t, s, n)
    requires forall m :: m in Destinations(t) ==> Due(t, s', m) <= Due(t, s, m)
    ensures Sum(AllDue(t, s')) + d <= Sum(AllDue(t, s))
  {
    hide Due;
    hide Destinations;
    SumFalls(AllDue(t, s), AllDue(t, s'), n, d);
  }

  lemma SameDue(t: Topology, s: State, s': State)
    requires forall n :: n in Destinations(t) ==> Due(t, s', n) == Due(t, s, n)
    ensures AllDue(t, s') == AllDue(t, s)
  {
    hide Due;
  }

  lemma DispatcherStepDue(t: Topology, s: State, a: Step)
    requires Inv(t, s) && Enabled(t, s, a) && !OfWorker(a) && !a.Take?
    ensures StepsDue(t, Apply(t, s, a)) < StepsDue(t, s)
  {
    var s' := Apply(t, s, a);
    assert a.Hand? ==> s.dispatcher.node !in s.workers && s.dispatcher.node in s.taken;
    DispatcherFrame(t, s, a);
    hide Inv;
    hide Enabled;
    hide Apply;
    forall n | n in Destinations(t) ensures Due(t, s', n) == Due(t, s, n) {
      hide StepsLeft;
    }
    hide Due;
    SameDue(t, s, s');
    hide AllDue;
  }

  lemma DispatcherFrame(t: Topology, s: State, a: Step)
    requires Enabled(t, s, a) && !OfWorker(a) && !a.Take?
    ensures var s' := Apply(t, s, a);
            && s'.taken == s.taken && s'.c.runSequence == s.c.runSequence
            && (s'.workers == s.workers || (a.Hand? && s'.workers == s.workers[s.dispatcher.node := Fetching(0)]))
            && DispatcherDue(s'.dispatcher) + (if s'.expedited then 0 else 1)
               < DispatcherDue(s.dispatcher) + (if s.expedited then 0 else 1)
  {
    hide Starved;
    hide Outputs;
    hide EarlyLinks;
    hide Deliver;
  }

  lemma StepDue(t: Topology, s: State, a: Step, s': State)
    requires Inv(t, s) && RangeOk(t, s) && Stepped(t, s, a, s')
    ensures StepsDue(t, s') < StepsDue(t, s)
  {
    hide Inv;
    hide RangeOk;
    hide Enabled;
    hide Apply;
    hide StepsDue;
    if OfWorker(a) {
      WorkerDue(t, s, a);
    } else if a.Take? {
      TakeDue(t, s);
    } else {
      DispatcherStepDue(t, s, a);
    }
  }

  lemma NaturalLeft(t: Topology, s: State, n: string)
    requires n in s.workers ==> InRange(t, n, s.workers[n])
    requires n in s.workers && s.workers[n].Notifying? ==> s.workers[n].next <= |Outputs(t, n)|
    ensures Due(t, s, n) >= 0
  {
    hide EarlyLinks;
    hide Outputs;
  }

  lemma DueNatural(t: Topology, s: State)
    requires Inv(t, s) && RangeOk(t, s)
    ensures StepsDue(t, s) >= 0
  {
    forall n ensures Due(t, s, n) >= 0 {
      assert n in s.workers ==> InRange(t, n, s.workers[n]);
      NaturalLeft(t, s, n);
    }
    hide Due;
    hide Inv;
    hide RangeOk;
    SumNatural(AllDue(t, s));
  }

  /** Every run is over after a number of steps that the pipeline and the state it starts in determine. */
  lemma {:induction false} RunsEnd(t: Topology, states: seq<State>, steps: seq<Step>, k: nat)
    requires Run(t, states, steps) && k < |states|
    ensures 0 <= StepsDue(t, states[k]) <= StepsDue(t, states[0]) - k
  {
    hide Initial;
    hide Stepped;
    hide Inv;
    hide StepsDue;
    FlowInv(t, states, steps, k);
    DueNatural(t, states[k]) by {
      hide RangeOk;
    }
    if k > 0 {
      RunsEnd(t, states, steps, k - 1);
      FlowInv(t, states, steps, k - 1);
      hide RangeOk;
      StepDue(t, states[k - 1], steps[k - 1], states[k]);
    }
  }

  // ---------------------------------------------------------------- when a run may end asleep

  /** Threads that sleep for ever, though nobody has expedited anything. */
  ghost predicate SleepsForEver(t: Topology, s: State) {
    !s.dispatcher.Finished? && !s.expedited && Stuck(t, s)
  }

  /** A node that is executed and has more than one frame to take may hand the first to a frame-by-frame node that waits
      for more. */
  ghost predicate MayStrand(t: Topology, n: string, j: nat) {
    && j < |EarlyLinks(t, n)| && Fed(t, n) && t.links[EarlyLinks(t, n)[j]].dst in t.known
    && t.Frames(n) >= 2 && t.Frames(t.links[EarlyLinks(t, n)[j]].dst) >= 2
  }

  ghost predicate MaySleep(t: Topology) {
    exists n, j :: MayStrand(t, n, j)
  }

  lemma AsleepStrands(t: Topology, states: seq<State>, steps: seq<Step>, k: nat)
    requires Run(t, states, steps) && k < |states| && SleepsForEver(t, states[k])
    ensures MaySleep(t)
  {
    FlowInv(t, states, steps, k);
    StuckExactly(t, states, steps, k);
    var s := states[k];
    var n :| n in InFlight(s);
    var chain := StuckBehindFailure(t, states, steps, k, n);
    var m, f := chain[|chain| - 2], chain[|chain| - 1];
    assert Feeds(t, chain[|chain| - 1], chain[|chain| - 1 - 1]);
    assert Starved(t, s, chain[|chain| - 2]);
    FailedFed(t, states, steps, k, f);
    StrandedBy(t, s, m, f);
  }

  lemma FailedFed(t: Topology, states: seq<State>, steps: seq<Step>, k: nat, n: string)
    requires Run(t, states, steps) && k < |states| && n in states[k].workers
    ensures Fed(t, n)
  {
    hide Run;
    forall nodes | Closed(t, nodes) ensures n in nodes {
      RunWithinClosed(t, states, steps, k, nodes);
    }
  }

  lemma StrandedBy(t: Topology, s: State, m: string, f: string)
    requires t.Accepted() && Inv(t, s) && FlowOk(t, s) && !s.expedited && Starved(t, s, m) && Feeds(t, f, m)
    requires f in s.workers && s.workers[f].Failed? && Fed(t, f)
    ensures MaySleep(t)
  {
    var i :| i in t.InternalInputs(m) && t.links[i].src == f;
    OnlyInput(t, i);
    assert Given(s, i) <= s.workers[m].frames < t.Frames(m) by {
      assert InRange(t, m, s.workers[m]);
    }
    assert m in Queued(s) && Fulfilled(t, s, m) && m in t.known;
    assert ArrivedAt(t, s, i) && EarlyCounted(t, s, i) && !Passed(t, s, i);
    hide Inv;
    hide FlowOk;
    hide EarlyLinks;
    var j :| 0 <= j < |EarlyLinks(t, f)| && EarlyLinks(t, f)[j] == i;
    assert MayStrand(t, f, j);
  }

  // ----- A run that does -----

  lemma InitialExists(t: Topology) returns (s: State)
    ensures Initial(t, s)
  {
    var counts := CountsUpTo(t, |t.links|);
    CountsAll(t);
    var q := Listing(set n | n in counts && counts[n] == 0);
    var c := Counters(q, map n | n in counts && counts[n] != 0 :: counts[n], 0, false);
    s := State(c, Testing, map[], [], {}, false, map[], false);
  }

  lemma Appended(t: Topology, states: seq<State>, steps: seq<Step>, a: Step) returns (states': seq<State>)
    requires Run(t, states, steps) && Enabled(t, states[|steps|], a)
    ensures states' == states + [Apply(t, states[|steps|], a)] && Run(t, states', steps + [a])
  {
    states' := states + [Apply(t, states[|steps|], a)];
    hide Enabled;
    hide Apply;
    var steps' := steps + [a];
    forall k | 0 <= k < |steps'| ensures Stepped(t, states'[k], steps'[k], states'[k + 1]) {
      if k < |steps| {
        assert Stepped(t, states[k], steps[k], states[k + 1]);
      }
    }
  }

  predicate Harmless(steps: seq<Step>, from: nat) {
    forall j :: from <= j < |steps| ==> !steps[j].Fail? && !steps[j].Expedite?
  }

  lemma Ended(t: Topology, states: seq<State>, steps: seq<Step>)
    requires Run(t, states, steps) && !states[|steps|].expedited
    requires states[|steps|].dispatcher.Finished? || Asleep(t, states[|steps|])
    ensures states[|steps|].dispatcher.Finished? || SleepsForEver(t, states[|steps|])
  {
    hide Initial;
    hide Stepped;
    hide Asleep;
    if !states[|steps|].dispatcher.Finished? {
      StuckExactly(t, states, steps, |steps|);
    }
  }

  /** Otherwise there is one more step, and fewer are left. */
  lemma OneMore(t: Topology, states: seq<State>, steps: seq<Step>) returns (states': seq<State>, a: Step)
    requires Run(t, states, steps) && !states[|steps|].expedited
    requires !states[|steps|].dispatcher.Finished? && !Asleep(t, states[|steps|])
    ensures Run(t, states', steps + [a]) && states <= states' && !states'[|steps| + 1].expedited
    ensures !a.Fail? && !a.Expedite?
    ensures 0 <= StepsDue(t, states'[|steps| + 1]) < StepsDue(t, states[|steps|])
  {
    var s := states[|steps|];
    FlowInv(t, states, steps, |steps|);
    FlowParts(t, s);
    hide FlowOk;
    hide Inv;
    a := NextStep(t, s);
    states' := Appended(t, states, steps, a);
    StepExpedited(t, s, a);
    hide *;
    SteppedTo(t, s, a);
    StepDue(t, s, a, Apply(t, s, a));
    RunsEnd(t, states', steps + [a], |steps| + 1);
  }

  /** A run can always be taken to its end without a further failure. */
  lemma {:induction false} Settle(t: Topology, states: seq<State>, steps: seq<Step>)
    returns (states': seq<State>, steps': seq<Step>)
    requires Run(t, states, steps) && !states[|steps|].expedited
    ensures Run(t, states', steps') && steps <= steps' && states <= states' && Harmless(steps', |steps|)
    ensures var s := states'[|steps'|]; !s.expedited && (s.dispatcher.Finished? || SleepsForEver(t, s))
    decreases StepsDue(t, states[|steps|])
  {
    var s := states[|steps|];
    assert |states| == |steps| + 1;
    states', steps' := states, steps;
    if s.dispatcher.Finished? || Asleep(t, s) {
      Ended(t, states, steps);
    } else {
      hide *;
      var more, a := OneMore(t, states, steps);
      states', steps' := Settle(t, more, steps + [a]);
      HarmlessMore(steps', |steps|, a);
    }
  }

  lemma SteppedTo(t: Topology, s: State, a: Step)
    requires Enabled(t, s, a)
    ensures Stepped(t, s, a, Apply(t, s, a))
  {
  }

  lemma HarmlessMore(steps: seq<Step>, from: nat, a: Step)
    requires Harmless(steps, from + 1) && from < |steps| && steps[from] == a && !a.Fail? && !a.Expedite?
    ensures Harmless(steps, from)
  {
  }

  lemma StepError(t: Topology, s: State, a: Step)
    requires Enabled(t, s, a) && !a.Fail?
    ensures Apply(t, s, a).c.hasError == s.c.hasError
  {
    match a
    case Early(n) => EarlyHistory(t, s, n);
    case Notify(n, rest) => NotifyHistory(t, s, n, rest);
    case _ =>
      hide Starved;
      hide Outputs;
      hide EarlyLinks;
      hide Deliver;
      hide CutShort;
      hide AllTaken;
  }

  lemma {:induction false} HarmlessRun(t: Topology, states: seq<State>, steps: seq<Step>, from: nat, k: nat)
    requires Run(t, states, steps) && Harmless(steps, from) && from <= k < |states| && !states[from].expedited
    ensures states[k].c.hasError == states[from].c.hasError && !states[k].expedited
    decreases k
  {
    hide Initial;
    hide Enabled;
    hide Apply;
    if from < k {
      assert Stepped(t, states[k - 1], steps[k - 1], states[k]);
      HarmlessRun(t, states, steps, from, k - 1);
      StepError(t, states[k - 1], steps[k - 1]);
      StepExpedited(t, states[k - 1], steps[k - 1]);
    }
  }

  /** The node has fetched its second frame. */
  predicate PastFirst(s: State, n: string) {
    n in s.workers && match s.workers[n]
                      case Fetching(k) => k >= 2
                      case Running(k) => k >= 2
                      case Sharing(k, _) => k >= 2
                      case _ => true
  }

  lemma FirstPast(t: Topology, s: State, a: Step, n: string)
    requires Enabled(t, s, a) && !a.Fail? && !s.expedited && t.Frames(n) >= 2 && RangeOk(t, s)
    requires !PastFirst(s, n) && PastFirst(Apply(t, s, a), n)
    ensures n in Apply(t, s, a).workers && Apply(t, s, a).workers[n] == Running(2)
  {
    StepWorkers(t, s, a);
    if OfWorker(a) {
      StepGuard(t, s, a);
    }
    hide Enabled;
    hide Apply;
    hide Outputs;
    hide EarlyLinks;
  }

  lemma {:induction false} SecondFrame(t: Topology, states: seq<State>, steps: seq<Step>, n: string, k: nat) returns (j: nat)
    requires Run(t, states, steps) && Harmless(steps, 0) && k < |states| && !states[0].expedited
    requires t.Frames(n) >= 2 && PastFirst(states[k], n)
    ensures j <= k && n in states[j].workers && states[j].workers[n] == Running(2)
  {
    assert states[0].workers == map[];
    FlowInv(t, states, steps, k - 1);
    HarmlessRun(t, states, steps, 0, k - 1);
    if PastFirst(states[k - 1], n) {
      j := SecondFrame(t, states, steps, n, k - 1);
    } else {
      assert Stepped(t, states[k - 1], steps[k - 1], states[k]);
      hide Run;
      hide Enabled;
      hide Apply;
      FirstPast(t, states[k - 1], steps[k - 1], n);
      j := k;
    }
  }

  /** A node that will be started, and wait for ever for a frame of a failed one. */
  ghost predicate Doomed(t: Topology, s: State, i: int) {
    && 0 <= i < |t.links| && t.links[i].kind.InternalLink? && t.Sigframe(t.links[i].dst)
    && t.links[i].dst in t.known && t.links[i].dst in Queued(s)
    && t.links[i].src in s.workers && s.workers[t.links[i].src].Failed?
    && Given(s, i) < t.Frames(t.links[i].dst)
    && (t.links[i].dst in s.workers ==> Between(s.workers[t.links[i].dst]))
  }

  /** A node with fewer frames than it wants goes on as it is. */
  lemma GoesOn(t: Topology, s: State, a: Step)
    requires Enabled(t, s, a) && OfWorker(a) && !a.Fail? && !s.expedited
    requires a.node in s.workers && Between(s.workers[a.node]) && TakenBy(t, s, a.node) < t.Frames(a.node)
    ensures Between(NextWorker(s.workers[a.node], a))
  {
    StepGuard(t, s, a);
    hide Enabled;
    hide Outputs;
    hide EarlyLinks;
  }

  lemma StaysFailed(t: Topology, s: State, a: Step)
    requires Enabled(t, s, a) && OfWorker(a)
    ensures a.node in s.workers && !s.workers[a.node].Failed?
  {
    StepGuard(t, s, a);
    hide Enabled;
    hide Outputs;
    hide EarlyLinks;
  }

  lemma HandsNew(t: Topology, s: State)
    requires Inv(t, s) && s.dispatcher.Handing?
    ensures s.dispatcher.node !in s.workers
  {
  }

  lemma DoomedWorker(t: Topology, s: State, a: Step, i: int)
    requires Inv(t, s) && TakenOk(t, s) && Enabled(t, s, a) && !a.Fail? && !s.expedited && Doomed(t, s, i)
    ensures var m, n, s' := t.links[i].dst, t.links[i].src, Apply(t, s, a);
            && (m in s'.workers ==> Between(s'.workers[m]))
            && n in s'.workers && s'.workers[n].Failed? && (OfWorker(a) ==> a.node != n)
  {
    var m := t.links[i].dst;
    assert i in t.InternalInputs(m);
    assert m in s.workers ==> TakenBy(t, s, m) <= Given(s, i);
    hide TakenOk;
    hide TakenBy;
    hide Queued;
    StepWorkers(t, s, a);
    if a.Hand? {
      HandsNew(t, s);
    }
    hide Inv;
    hide Enabled;
    hide Apply;
    hide NextWorker;
    hide LinkOf;
    hide EarlyLinks;
    hide Outputs;
    if OfWorker(a) {
      StaysFailed(t, s, a);
      if a.node == m {
        GoesOn(t, s, a);
      }
    }
  }

  lemma DoomedKept(t: Topology, s: State, a: Step, i: int)
    requires Inv(t, s) && TakenOk(t, s) && Enabled(t, s, a) && !a.Fail? && !s.expedited && Doomed(t, s, i)
    ensures Doomed(t, Apply(t, s, a), i)
  {
    var m, s' := t.links[i].dst, Apply(t, s, a);
    DoomedWorker(t, s, a, i);
    StepGiven(t, s, a, i);
    StepHistory(t, s, a, s');
    hide Inv;
    hide TakenOk;
    hide Enabled;
    hide Apply;
    hide Outputs;
    hide EarlyLinks;
    hide Queued;
    hide LinkOf;
    assert m in Queued(s');
  }

  lemma {:induction false} DoomedRun(t: Topology, states: seq<State>, steps: seq<Step>, from: nat, k: nat, i: int)
    requires Run(t, states, steps) && Harmless(steps, from) && from <= k < |states|
    requires !states[from].expedited && Doomed(t, states[from], i)
    ensures Doomed(t, states[k], i)
    decreases k
  {
    hide Initial;
    hide Enabled;
    hide Apply;
    hide Doomed;
    hide Inv;
    hide FlowOk;
    if from < k {
      assert Stepped(t, states[k - 1], steps[k - 1], states[k]);
      DoomedRun(t, states, steps, from, k - 1, i);
      HarmlessRun(t, states, steps, from, k - 1);
      FlowInv(t, states, steps, k - 1);
      FlowParts(t, states[k - 1]);
      DoomedKept(t, states[k - 1], steps[k - 1], i);
    }
  }

  /** The second frame fails after the first was handed on. */
  lemma FailureDooms(t: Topology, s: State, n: string, j: nat)
    requires t.Accepted() && Inv(t, s) && FlowOk(t, s) && !s.c.hasError && !s.expedited && MayStrand(t, n, j)
    requires n in s.workers && s.workers[n] == Running(2)
    ensures Enabled(t, s, Fail(n)) && Doomed(t, Apply(t, s, Fail(n)), EarlyLinks(t, n)[j])
  {
    var i, s' := EarlyLinks(t, n)[j], Apply(t, s, Fail(n));
    var m := t.links[i].dst;
    FirstHandedOn(t, s, n, j);
    assert m != n && (m in s.workers ==> !s.workers[m].Failed?);
    FailStep(t, s, n);
    hide Inv;
    hide FlowOk;
    hide Fed;
    hide Enabled;
    hide Apply;
    hide EarlyLinks;
    hide Queued;
  }

  lemma FailStep(t: Topology, s: State, n: string)
    requires n in s.workers && s.workers[n].Running?
    ensures Enabled(t, s, Fail(n))
    ensures var s' := Apply(t, s, Fail(n));
            s'.workers == s.workers[n := Failed] && s'.given == s.given && Queued(s') == Queued(s)
  {
  }

  /** With the second frame in hand, the first has been put on the early link, and its child queued. */
  lemma FirstHandedOn(t: Topology, s: State, n: string, j: nat)
    requires t.Accepted() && Inv(t, s) && FlowOk(t, s) && !s.c.hasError && !s.expedited && j < |EarlyLinks(t, n)|
    requires n in s.workers && s.workers[n] == Running(2)
    ensures var i := EarlyLinks(t, n)[j]; var m := t.links[i].dst;
            Given(s, i) == 1 && m in Queued(s) && (m in s.workers ==> TakenBy(t, s, m) <= 1)
  {
    var i := EarlyLinks(t, n)[j];
    var m := t.links[i].dst;
    OnlyInput(t, i);
    assert PutOk(t, s, n, s.workers[n]);
    assert Given(s, i) == 1 && i in s.delivered;
    assert Fulfilled(t, s, m);
  }

  lemma DoomedUnfinished(t: Topology, s: State, i: int)
    requires Inv(t, s) && Doomed(t, s, i)
    ensures !s.dispatcher.Finished?
  {
    var m := t.links[i].dst;
    if m in s.workers {
      assert m in InFlight(s);
    }
  }

  /** A run without failures ends with every fed node executed. */
  lemma EndsWell(t: Topology) returns (states: seq<State>, steps: seq<Step>)
    requires t.Accepted()
    ensures Run(t, states, steps) && Harmless(steps, 0) && !states[0].expedited
    ensures forall n :: Fed(t, n) ==> PastFirst(states[|steps|], n)
  {
    var s := InitialExists(t);
    states, steps := [s], [];
    assert Run(t, states, steps);
    assert !s.c.hasError && !s.expedited;
    states, steps := Settle(t, states, steps);
    assert states[0] == s;
    HarmlessRun(t, states, steps, 0, |steps|);
    if !states[|steps|].dispatcher.Finished? {
      var a := FlowsUnlessFailed(t, states, steps, |steps|);
      assert false;
    }
    ExecutesExactlyFed(t, states, steps, |steps|);
  }

  lemma StrandsAsleep(t: Topology, n: string, j: nat) returns (states: seq<State>, steps: seq<Step>)
    requires t.Accepted() && MayStrand(t, n, j)
    ensures Run(t, states, steps) && SleepsForEver(t, states[|steps|])
  {
    var states0, steps0 := EndsWell(t);
    var k := SecondFrame(t, states0, steps0, n, |steps0|);
    HarmlessRun(t, states0, steps0, 0, k);
    RunSoFar(t, states0, steps0, k);
    states, steps := FailsAt(t, states0[..k + 1], steps0[..k], n, j);
  }

  lemma FailsAt(t: Topology, states: seq<State>, steps: seq<Step>, n: string, j: nat)
    returns (states': seq<State>, steps': seq<Step>)
    requires Run(t, states, steps) && MayStrand(t, n, j)
    requires var s := states[|steps|]; !s.c.hasError && !s.expedited && n in s.workers && s.workers[n] == Running(2)
    ensures Run(t, states', steps') && SleepsForEver(t, states'[|steps'|])
  {
    var k := |steps|;
    FlowInv(t, states, steps, k);
    hide FlowOk;
    hide Inv;
    hide MayStrand;
    hide Doomed;
    FailureDooms(t, states[k], n, j);
    var more := Appended(t, states, steps, Fail(n));
    StepExpedited(t, states[k], Fail(n));
    hide Run;
    hide Apply;
    hide Enabled;
    states', steps' := Settle(t, more, steps + [Fail(n)]);
    DoomedRun(t, states', steps', k + 1, |steps'|, EarlyLinks(t, n)[j]);
    FlowInv(t, states', steps', |steps'|);
    DoomedUnfinished(t, states'[|steps'|], EarlyLinks(t, n)[j]);
  }

  lemma RunSoFar(t: Topology, states: seq<State>, steps: seq<Step>, k: nat)
    requires Run(t, states, steps) && k <= |steps|
    ensures Run(t, states[..k + 1], steps[..k])
  {
    hide Enabled;
    hide Apply;
    hide Initial;
    forall j | 0 <= j < k ensures Stepped(t, states[..k + 1][j], steps[..k][j], states[..k + 1][j + 1]) {
      assert Stepped(t, states[j], steps[j], states[j + 1]);
    }
  }

  /** Some run ends with threads asleep for ever if and only if some node that is executed, with more than one frame to
      take, has an early link to a node that the session knows and that waits for more than one. */
  lemma SleepsExactly(t: Topology)
    requires t.Accepted()
    ensures (exists states, steps :: Run(t, states, steps) && SleepsForEver(t, states[|steps|])) <==> MaySleep(t)
  {
    if MaySleep(t) {
      var n, j :| MayStrand(t, n, j);
      var states, steps := StrandsAsleep(t, n, j);
    }
    forall states, steps | Run(t, states, steps) && SleepsForEver(t, states[|steps|]) ensures MaySleep(t) {
      AsleepStrands(t, states, steps, |steps|);
    }
  }

  /** Two frame-by-frame nodes in a row, the first of them in place and handing on its inputs. */
  function TwoInARow(source: Link, middle: Link, frames: nat): Topology {
    var mask := NodeMask(true, true, false, false, false, true, false);
    Topology([source, middle], map[middle.src := mask, middle.dst := mask.(inplace := false)],
             {middle.src, middle.dst}, map[middle.src := frames, middle.dst := frames])
  }

  predicate InARow(source: Link, middle: Link) {
    source.kind.SourceLink? && middle.kind.InternalLink? && source.dst == middle.src && middle.src != middle.dst
  }

  lemma MiddleIsOutput(source: Link, middle: Link, frames: nat)
    requires InARow(source, middle)
    ensures Outputs(TwoInARow(source, middle, frames), middle.src) == [1]
  {
    var t, n := TwoInARow(source, middle, frames), middle.src;
    assert OutputsUpTo(t, n, 0) == [] && OutputsUpTo(t, n, 1) == [] && OutputsUpTo(t, n, 2) == [1];
  }

  lemma MiddleIsEarly(source: Link, middle: Link, frames: nat)
    requires InARow(source, middle)
    ensures EarlyLinks(TwoInARow(source, middle, frames), middle.src) == [1]
  {
    MiddleIsOutput(source, middle, frames);
    hide Outputs;
    var t, n := TwoInARow(source, middle, frames), middle.src;
    assert Passes(t, n) && HandsOn(t, n) && EarlyChild(t, t.links[1]);
    assert |t.links| == 2 && LeavesNode(t.links[1], n);
    hide Passes;
    hide HandsOn;
    hide EarlyChild;
    hide TwoInARow;
    OneAmong(t, n);
  }

  lemma OneAmong(t: Topology, n: string)
    requires |t.links| == 2 && LeavesNode(t.links[1], n) && HandsOn(t, n) && EarlyChild(t, t.links[1])
    ensures EarlyAmong(t, n, [1]) == [1]
  {
    hide HandsOn;
    hide EarlyChild;
    assert [1][..0] == [] && EarlyAmong(t, n, []) == [];
  }

  lemma FirstIsFed(source: Link, middle: Link, frames: nat)
    requires InARow(source, middle)
    ensures TwoInARow(source, middle, frames).Accepted() && Fed(TwoInARow(source, middle, frames), middle.src)
  {
    var t, n := TwoInARow(source, middle, frames), middle.src;
    assert t.InternalInputs(n) == {} && 0 in t.Inputs(n);
  }

  /** The first node fails after it has handed on a frame, and the second sleeps for ever. */
  lemma TwoInARowSleep(source: Link, middle: Link, frames: nat) returns (states: seq<State>, steps: seq<Step>)
    requires InARow(source, middle) && frames >= 2
    ensures var t := TwoInARow(source, middle, frames); Run(t, states, steps) && SleepsForEver(t, states[|steps|])
  {
    var t := TwoInARow(source, middle, frames);
    assert t.Frames(middle.src) >= 2 && t.Frames(middle.dst) >= 2 && t.links[1].dst in t.known;
    FirstIsFed(source, middle, frames);
    MiddleIsEarly(source, middle, frames);
    hide TwoInARow;
    hide Fed;
    hide EarlyLinks;
    hide Run;
    hide SleepsForEver;
    hide Topology.Accepted;
    assert MayStrand(t, middle.src, 0);
    states, steps := StrandsAsleep(t, middle.src, 0);
  }
}
