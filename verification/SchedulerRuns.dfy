/** All interleavings of the dispatcher with the node workers, and what every run keeps. */
module SchedulerRuns {
  import opened Collections
  import opened Links
  import opened Scheduler

  datatype Dispatcher =
    | Testing                  // about to read the loop condition
    | Taking                   // about to pop the head of the queue
    | Handing(node: string)    // popped, not yet given to its worker
    | Counting(found: bool)    // given to its worker (if there is one), not yet counted
    | Waiting(notified: bool)  // asleep in the condition variable, or woken and about to look again
    | Finished

  datatype Worker =
    | Fetching(frames: nat)            // about to take a frame, after so many
    | Running(frames: nat)             // running the plugin on the last of so many
    | Sharing(frames: nat, pos: nat)   // between frames: hands one on, along each early link, then tells each child
    | Notifying(next: nat)             // finished, walking its output links
    | Done
    | Failed

  /** `taken` records the nodes popped so far, `delivered` the links whose count was dropped, `given` how many frames
      have been put into the queue behind a link. `fault` is set where the code would look up an instance that is
      not in the map. */
  datatype State = State(
    c: Counters, dispatcher: Dispatcher, workers: map<string, Worker>,
    taken: seq<string>, delivered: set<int>, fault: bool, given: map<int, nat>, expedited: bool)

  datatype Step =
    | Test | Take | Hand | Count | Wake
    | Fetch(node: string)
    | Share(node: string) | Push(node: string) | Early(node: string) | Resume(node: string)
    | Succeed(node: string) | Fail(node: string)
    | Notify(node: string, rest: nat)  // one output link of a finished node, and the frames left for it
    | Signal(node: string)
    | Expedite                         // the application waits for no more frames

  function Queued(s: State): seq<string> { s.taken + s.c.runSequence }

  function InFlight(s: State): set<string> {
    set n | n in s.workers && !s.workers[n].Done? && !s.workers[n].Failed?
  }

  /** An in-place node hands its input images on: one output link, not to a sink of any kind. */
  predicate IsInplace(t: Topology, n: string) {
    && n in t.masks && t.masks[n].inplace
    && |Outputs(t, n)| == 1
    && var l := t.links[Outputs(t, n)[0]];
       !l.kind.SinkLink? && !(l.dst in t.masks && t.masks[l.dst].virtualSink)
  }

  predicate Passes(t: Topology, n: string) {
    IsInplace(t, n) || (n in t.masks && t.masks[n].virtual)
  }

  /** Virtual nodes hand their input images on, and so do in-place nodes whose one output link ends neither at the
      application nor at a virtual sink. */
  ghost predicate MustHandOn(t: Topology, n: string) {
    && n in t.masks
    && (t.masks[n].virtual || (t.masks[n].inplace && exists i :: OnlyOutput(t, n, i) && LeadsOn(t, t.links[i])))
  }

  ghost predicate OnlyOutput(t: Topology, n: string, i: int) {
    0 <= i < |t.links| && forall j :: 0 <= j < |t.links| ==> (LeavesNode(t.links[j], n) <==> j == i)
  }

  predicate LeadsOn(t: Topology, l: Link) {
    !l.kind.SinkLink? && !(l.dst in t.masks && t.masks[l.dst].virtualSink)
  }

  lemma PassesMeans(t: Topology, n: string)
    ensures Passes(t, n) <==> MustHandOn(t, n)
  {
    var outs := Outputs(t, n);
    if |outs| == 1 {
      forall j | 0 <= j < |t.links| ensures LeavesNode(t.links[j], n) <==> j == outs[0] {
        assert LeavesNode(t.links[j], n) ==> j in outs;
      }
      assert OnlyOutput(t, n, outs[0]);
    }
    if i :| OnlyOutput(t, n, i) {
      assert LeavesNode(t.links[i], n) && i in outs;
      forall k | 0 <= k < |outs| ensures outs[k] == i {
      }
      OneMember(outs, i);
    }
  }

  lemma OneMember(s: seq<int>, i: int)
    requires i in s && (forall k :: 0 <= k < |s| ==> s[k] == i) && forall j, k :: 0 <= j < k < |s| ==> s[j] < s[k]
    ensures s == [i]
  {
    FirstTwo(s);
  }

  lemma FirstTwo(s: seq<int>)
    requires forall j, k :: 0 <= j < k < |s| ==> s[j] < s[k]
    ensures |s| >= 2 ==> s[0] < s[1]
  {
  }

  /** The links, in order, on which a node hands a frame on between two frames of its own: every output of a node that
      passes its inputs on, the first output of any other; in both cases if it leads to a frame-by-frame node. */
  function EarlyLinks(t: Topology, n: string): (r: seq<int>)
    ensures forall j :: 0 <= j < |r| ==> 0 <= r[j] < |t.links| && LeavesNode(t.links[r[j]], n) && EarlyChild(t, t.links[r[j]])
    ensures forall j, k :: 0 <= j < k < |r| ==> r[j] < r[k]
  {
    EarlyAmong(t, n, if Passes(t, n) then Outputs(t, n) else if Outputs(t, n) == [] then [] else Outputs(t, n)[..1])
  }

  predicate EarlyChild(t: Topology, l: Link) {
    !l.kind.SinkLink? && t.Sigframe(l.dst)
  }

  function EarlyAmong(t: Topology, n: string, links: seq<int>): (r: seq<int>)
    requires forall j :: 0 <= j < |links| ==> 0 <= links[j] < |t.links| && LeavesNode(t.links[links[j]], n)
    requires forall j, k :: 0 <= j < k < |links| ==> links[j] < links[k]
    ensures forall j :: 0 <= j < |r| ==> r[j] in links && EarlyChild(t, t.links[r[j]])
    ensures forall j, k :: 0 <= j < k < |r| ==> r[j] < r[k]
  {
    if links == [] || !HandsOn(t, n) then []
    else
      var last := links[|links| - 1];
      EarlyAmong(t, n, links[..|links| - 1]) + if EarlyChild(t, t.links[last]) then [last] else []
  }

  predicate HandsOn(t: Topology, n: string) {
    n in t.masks && if Passes(t, n) then t.masks[n].releaseInput else t.masks[n].releaseOutput
  }

  /** In terms of the mode bits: a node that hands its inputs on does so early on all its outputs if it releases inputs
      early, and any other node on its first output if it releases outputs early; towards frame-by-frame nodes only. */
  lemma EarlyMeans(t: Topology, n: string, i: int)
    ensures i in EarlyLinks(t, n) <==>
            && 0 <= i < |t.links| && t.links[i].src == n && t.links[i].kind.InternalLink?
            && t.links[i].dst in t.masks && t.masks[t.links[i].dst].sigframe
            && n in t.masks
            && if MustHandOn(t, n) then t.masks[n].releaseInput
               else t.masks[n].releaseOutput && forall j :: 0 <= j < i ==> !LeavesNode(t.links[j], n)
  {
    PassesMeans(t, n);
    FromMeans(t, n, i);
    AmongMeans(t, n, EarlyFrom(t, n), i);
    assert EarlyLinks(t, n) == EarlyAmong(t, n, EarlyFrom(t, n));
    hide MustHandOn;
    hide EarlyAmong;
    hide EarlyLinks;
    hide EarlyFrom;
    hide Passes;
  }

  function EarlyFrom(t: Topology, n: string): (r: seq<int>)
    ensures forall j :: 0 <= j < |r| ==> 0 <= r[j] < |t.links| && LeavesNode(t.links[r[j]], n)
    ensures forall j, k :: 0 <= j < k < |r| ==> r[j] < r[k]
  {
    if Passes(t, n) then Outputs(t, n) else if Outputs(t, n) == [] then [] else Outputs(t, n)[..1]
  }

  lemma FromMeans(t: Topology, n: string, i: int)
    ensures i in EarlyFrom(t, n) <==>
            && 0 <= i < |t.links| && LeavesNode(t.links[i], n)
            && (Passes(t, n) || forall j :: 0 <= j < i ==> !LeavesNode(t.links[j], n))
  {
    hide Passes;
    var outs := Outputs(t, n);
    if 0 <= i < |t.links| && LeavesNode(t.links[i], n) {
      assert i in outs;
      FirstOutput(t, n, i);
    }
  }

  lemma FirstOutput(t: Topology, n: string, i: int)
    requires i in Outputs(t, n)
    ensures i in Outputs(t, n)[..1] <==> forall j :: 0 <= j < i ==> !LeavesNode(t.links[j], n)
  {
    var outs := Outputs(t, n);
    assert LeavesNode(t.links[outs[0]], n);
    forall j | 0 <= j < outs[0] ensures !LeavesNode(t.links[j], n) {
      assert LeavesNode(t.links[j], n) ==> j in outs;
    }
  }

  lemma {:induction false} AmongMeans(t: Topology, n: string, links: seq<int>, i: int)
    requires forall j :: 0 <= j < |links| ==> 0 <= links[j] < |t.links| && LeavesNode(t.links[links[j]], n)
    requires forall j, k :: 0 <= j < k < |links| ==> links[j] < links[k]
    ensures i in EarlyAmong(t, n, links) <==> i in links && HandsOn(t, n) && EarlyChild(t, t.links[i])
  {
    if links != [] {
      var m := |links| - 1;
      AmongMeans(t, n, links[..m], i);
      assert links == links[..m] + [links[m]];
      hide HandsOn;
      hide EarlyChild;
    }
  }

  /** The link whose child is told at a position behind the frames. */
  function EarlyAt(t: Topology, n: string, pos: nat): (i: int)
    requires |EarlyLinks(t, n)| <= pos < 2 * |EarlyLinks(t, n)|
    ensures 0 <= i < |t.links| && LeavesNode(t.links[i], n) && EarlyChild(t, t.links[i])
  {
    EarlyLinks(t, n)[pos - |EarlyLinks(t, n)|]
  }

  function Given(s: State, i: int): nat {
    if i in s.given then s.given[i] else 0
  }

  /** A frame-by-frame node asleep on an empty queue behind another node. */
  predicate Starved(t: Topology, s: State, n: string) {
    && n in s.workers && s.workers[n].Fetching? && t.Sigframe(n)
    && exists i :: i in t.InternalInputs(n) && Given(s, i) <= s.workers[n].frames
  }

  /** The last frame that a node makes do with. */
  predicate AllTaken(t: Topology, s: State, n: string)
    requires n in s.workers
  {
    s.workers[n].Running? && (s.workers[n].frames >= t.Frames(n) || (s.expedited && s.workers[n].frames > 1))
  }

  predicate FromApplication(t: Topology, n: string) {
    exists i :: i in t.Inputs(n) && t.links[i].kind.SourceLink?
  }

  /** A node that waits for frames of the application finds, after an expedition, that none will come: it makes do with
      what it has, or fails. */
  predicate CutShort(t: Topology, s: State, n: string) {
    n in s.workers && s.expedited && s.workers[n].Fetching? && FromApplication(t, n)
  }

  predicate Enabled(t: Topology, s: State, a: Step) {
    match a
    case Test => s.dispatcher.Testing?
    case Take => s.dispatcher.Taking? && s.c.runSequence != []
    case Hand => s.dispatcher.Handing?
    case Count => s.dispatcher.Counting?
    case Wake => s.dispatcher == Waiting(true)
    case Fetch(n) => n in s.workers && s.workers[n].Fetching? && !Starved(t, s, n)
    case Share(n) => n in s.workers && s.workers[n].Running? && s.workers[n].frames < t.Frames(n)
    case Push(n) => n in s.workers && s.workers[n].Sharing? && s.workers[n].pos < |EarlyLinks(t, n)|
    case Early(n) => n in s.workers && s.workers[n].Sharing?
                     && |EarlyLinks(t, n)| <= s.workers[n].pos < 2 * |EarlyLinks(t, n)|
    case Resume(n) => n in s.workers && s.workers[n].Sharing? && s.workers[n].pos >= 2 * |EarlyLinks(t, n)|
    case Succeed(n) => n in s.workers && (AllTaken(t, s, n) || (CutShort(t, s, n) && s.workers[n].frames > 0))
    case Fail(n) => n in s.workers && (s.workers[n].Running? || CutShort(t, s, n))
    case Notify(n, rest) =>
      n in s.workers && s.workers[n].Notifying? && s.workers[n].next < |Outputs(t, n)|
      && var i := Outputs(t, n)[s.workers[n].next];
         if t.links[i].kind.SinkLink? then rest == 0
         else s.expedited || Given(s, i) + rest >= t.Frames(t.links[i].dst)
    case Signal(n) => n in s.workers && s.workers[n].Notifying? && s.workers[n].next == |Outputs(t, n)|
    case Expedite => !s.expedited
  }

  function Deliver(t: Topology, s: State, i: int): State
    requires 0 <= i < |t.links|
  {
    var next := t.links[i].dst;
    if next in s.c.dependence
    then s.(c := Delivered(s.c, next), delivered := s.delivered + {i})
    else s.(fault := true)
  }

  function Handed(s: State, i: int, frames: nat): State {
    s.(given := s.given[i := Given(s, i) + frames])
  }

  /** The dispatcher is told to look again. */
  function Notified(s: State): State {
    if s.dispatcher.Waiting? then s.(dispatcher := Waiting(true)) else s
  }

  function Moved(s: State, n: string, w: Worker): State {
    s.(workers := s.workers[n := w])
  }

  /** The frames of a link are in its queue before the link is counted; only then is the dispatcher told, at once when
      a frame is handed on early, and with the last word of the node otherwise. */
  function Apply(t: Topology, s: State, a: Step): State
    requires Enabled(t, s, a)
  {
    match a
    case Test => s.(dispatcher := if s.c.runSequence == [] then Finished else Taking)
    case Take =>
      var n := s.c.runSequence[0];
      s.(c := s.c.(runSequence := s.c.runSequence[1..]), taken := s.taken + [n], dispatcher := Handing(n))
    case Hand =>
      var n := s.dispatcher.node;
      if n in t.known
      then Moved(s, n, Fetching(0)).(dispatcher := Counting(true))
      else s.(dispatcher := Counting(false))
    case Count =>
      var c := if s.dispatcher.found then Counted(s.c) else s.c;
      s.(c := c, dispatcher := if c.runSequence != [] || c.running == 0 then Testing else Waiting(false))
    case Wake => s.(dispatcher := if s.c.runSequence != [] || s.c.running == 0 then Testing else Waiting(false))
    case Fetch(n) => Moved(s, n, Running(s.workers[n].frames + 1))
    case Share(n) => Moved(s, n, Sharing(s.workers[n].frames, 0))
    case Push(n) =>
      var w := s.workers[n];
      Handed(Moved(s, n, w.(pos := w.pos + 1)), EarlyLinks(t, n)[w.pos], 1)
    case Early(n) =>
      var w := s.workers[n];
      var s' := Deliver(t, Moved(s, n, w.(pos := w.pos + 1)), EarlyAt(t, n, w.pos));
      if s'.c.runSequence == s.c.runSequence then s' else Notified(s')
    case Resume(n) => Moved(s, n, Fetching(s.workers[n].frames))
    case Succeed(n) => Moved(s, n, Notifying(0))
    case Fail(n) => Notified(Moved(s, n, Failed).(c := SignalledError(s.c)))
    case Notify(n, rest) =>
      var k := s.workers[n].next;
      var i := Outputs(t, n)[k];
      var s' := Moved(s, n, Notifying(k + 1));
      if t.links[i].kind.SinkLink? then s' else Deliver(t, Handed(s', i, rest), i)
    case Signal(n) => Notified(Moved(s, n, Done).(c := SignalledOk(s.c)))
    case Expedite => s.(expedited := true)
  }

  ghost predicate Initial(t: Topology, s: State) {
    && Ready(t, s.c)
    && s.dispatcher == Testing && s.workers == map[] && s.taken == [] && s.delivered == {} && !s.fault
    && s.given == map[] && !s.expedited
  }

  /** A run from an accepted topology: state `k + 1` results from step `k`. */
  ghost predicate Run(t: Topology, states: seq<State>, steps: seq<Step>) {
    && t.Accepted()
    && |states| == |steps| + 1
    && Initial(t, states[0])
    && forall k :: 0 <= k < |steps| ==> Stepped(t, states[k], steps[k], states[k + 1])
  }

  predicate Stepped(t: Topology, s: State, a: Step, s': State) {
    Enabled(t, s, a) && s' == Apply(t, s, a)
  }

  // ---------------------------------------------------------------- the invariant

  /** The source of link `i` has finished and already walked past it. */
  ghost predicate Passed(t: Topology, s: State, i: int)
    requires 0 <= i < |t.links|
  {
    var n := t.links[i].src;
    && n in s.workers
    && (s.workers[n].Done? ||
        (s.workers[n].Notifying? && exists j :: 0 <= j < s.workers[n].next && j < |Outputs(t, n)|
                                                && Outputs(t, n)[j] == i))
  }

  ghost predicate Fulfilled(t: Topology, s: State, n: string) {
    t.Inputs(n) != {} && t.InternalInputs(n) <= s.delivered
  }

  ghost predicate QueueOk(t: Topology, s: State) {
    && NoDuplicates(Queued(s))
    && (forall n :: n in Queued(s) ==> Fulfilled(t, s, n))
    && (!s.c.hasError ==> forall n :: Fulfilled(t, s, n) ==> n in Queued(s))
  }

  ghost predicate CountOk(t: Topology, s: State) {
    && (forall n :: n in s.c.dependence <==> t.InternalInputs(n) != {})
    && (!s.c.hasError ==>
          forall n :: n in s.c.dependence ==> CountRight(t, s.delivered, n, s.c.dependence[n]))
  }

  /** A node waits for as many links as have not been delivered; the one link of a frame-by-frame node may
      be delivered many times. */
  predicate CountRight(t: Topology, delivered: set<int>, n: string, left: int) {
    if t.Sigframe(n) then
      if t.InternalInputs(n) <= delivered then left <= 0 else left == 1
    else left == |t.InternalInputs(n) - delivered|
  }

  ghost predicate DeliveredOk(t: Topology, s: State) {
    && (forall i :: i in s.delivered ==> 0 <= i < |t.links| && t.links[i].kind.InternalLink?
                                         && t.links[i].src in s.workers)
    && (forall i :: i in s.delivered && !t.Sigframe(t.links[i].dst) ==> Passed(t, s, i))
    && (forall i :: 0 <= i < |t.links| && t.links[i].kind.InternalLink? && Passed(t, s, i) ==> i in s.delivered)
  }

  ghost predicate WorkersOk(t: Topology, s: State) {
    && (forall n :: n in s.workers ==> n in s.taken && n in t.known)
    && (forall n :: n in s.taken && n in t.known ==> n in s.workers || s.dispatcher == Handing(n))
    && (s.dispatcher.Handing? ==> s.dispatcher.node in s.taken && s.dispatcher.node !in s.workers)
    && (forall n :: n in s.workers && s.workers[n].Notifying? ==> s.workers[n].next <= |Outputs(t, n)|)
    && (s.c.hasError <==> exists n :: n in s.workers && s.workers[n].Failed?)
  }

  /** The in-flight count, off by one while a handed-over node is not yet counted. */
  ghost predicate RunningOk(s: State) {
    && s.c.running == |InFlight(s)| - (if s.dispatcher == Counting(true) then 1 else 0)
    && (s.dispatcher.Testing? ==> s.c.runSequence != [] || s.c.running == 0)
    && (s.dispatcher.Taking? ==> s.c.runSequence != [])
    && (s.dispatcher.Finished? ==> s.c.runSequence == [] && s.c.running == 0)
  }

  ghost predicate Inv(t: Topology, s: State) {
    && QueueOk(t, s) && CountOk(t, s) && DeliveredOk(t, s) && WorkersOk(t, s) && RunningOk(s) && !s.fault
  }

  // ---------------------------------------------------------------- it is inductive

  lemma InitialInv(t: Topology, s: State)
    requires t.Accepted() && Initial(t, s)
    ensures Inv(t, s)
  {
    hide CountRight;
    forall n | n in s.c.dependence ensures CountRight(t, s.delivered, n, s.c.dependence[n]) {
      InitialCount(t, n);
    }
    assert InFlight(s) == {};
  }

  lemma InitialCount(t: Topology, n: string)
    requires t.Accepted() && t.InternalInputs(n) != {}
    ensures CountRight(t, {}, n, |t.InternalInputs(n)|)
  {
    Inhabited(t.InternalInputs(n));
    var i :| i in t.InternalInputs(n);
    if t.Sigframe(n) {
      forall j | j in t.InternalInputs(n) ensures j == i {
        assert j in t.Inputs(n) && i in t.Inputs(n);
      }
      assert t.InternalInputs(n) == {i};
    }
    assert t.InternalInputs(n) - {} == t.InternalInputs(n);
  }

  /** Queue and counts depend on the history, the deliveries, the count map and the error flag only. */
  lemma QueueFrame(t: Topology, s: State, s': State)
    requires QueueOk(t, s) && CountOk(t, s)
    requires Queued(s') == Queued(s) && s'.delivered == s.delivered
    requires s'.c.dependence == s.c.dependence && (s.c.hasError ==> s'.c.hasError)
    ensures QueueOk(t, s') && CountOk(t, s')
  {
    forall n ensures Fulfilled(t, s', n) == Fulfilled(t, s, n) {
    }
  }

  /** The dispatcher's own steps leave counts and deliveries alone. */
  lemma TakeKeeps(t: Topology, s: State, a: Step)
    requires Inv(t, s) && Enabled(t, s, a) && a.Take?
    ensures Inv(t, Apply(t, s, a))
  {
    var s' := Apply(t, s, a);
    assert Queued(s') == Queued(s);
    QueueFrame(t, s, s');
    assert InFlight(s') == InFlight(s);
    assert s.c.runSequence[0] == Queued(s)[|s.taken|];
    assert forall k :: 0 <= k < |s.taken| ==> s.taken[k] == Queued(s)[k];
    assert WorkersOk(t, s');
  }

  lemma HandKeeps(t: Topology, s: State, a: Step)
    requires Inv(t, s) && Enabled(t, s, a) && a.Hand?
    ensures Inv(t, Apply(t, s, a))
  {
    var s' := Apply(t, s, a);
    assert Queued(s') == Queued(s);
    HandWorkers(t, s, a);
    HandPasses(t, s, a);
    hide WorkersOk;
    hide RunningOk;
    hide Passed;
    QueueFrame(t, s, s');
  }

  lemma HandStep(t: Topology, s: State)
    requires Enabled(t, s, Hand)
    ensures var s' := Apply(t, s, Hand); var n := s.dispatcher.node;
            s' == (if n in t.known then Moved(s, n, Fetching(0)) else s).(dispatcher := Counting(n in t.known))
  {
  }

  lemma HandWorkers(t: Topology, s: State, a: Step)
    requires WorkersOk(t, s) && RunningOk(s) && Enabled(t, s, a) && a.Hand?
    ensures WorkersOk(t, Apply(t, s, a)) && RunningOk(Apply(t, s, a))
  {
    HandStep(t, s);
    assert s.dispatcher.Handing?;
    hide Apply;
    hide Enabled;
    hide Outputs;
    var s' := Apply(t, s, a);
    var n := s.dispatcher.node;
    if n in t.known {
      assert InFlight(s') == InFlight(s) + {n};
      if s.c.hasError {
        var f :| f in s.workers && s.workers[f].Failed?;
        assert s'.workers[f].Failed?;
      }
    } else {
      assert InFlight(s') == InFlight(s);
    }
  }

  lemma HandPasses(t: Topology, s: State, a: Step)
    requires WorkersOk(t, s) && Enabled(t, s, a) && a.Hand?
    ensures forall i :: 0 <= i < |t.links| ==> Passed(t, Apply(t, s, a), i) == Passed(t, s, i)
  {
  }

  lemma DispatcherKeeps(t: Topology, s: State, a: Step)
    requires Inv(t, s) && Enabled(t, s, a) && (a.Test? || a.Count? || a.Wake? || a.Expedite?)
    ensures Inv(t, Apply(t, s, a))
  {
    var s' := Apply(t, s, a);
    QueueFrame(t, s, s');
    assert InFlight(s') == InFlight(s);
  }

  /** Delivering a link that has not been delivered, or any link into a frame-by-frame node. */
  ghost predicate MayDeliver(t: Topology, s: State, i: int) {
    && t.Accepted() && QueueOk(t, s) && CountOk(t, s)
    && 0 <= i < |t.links| && t.links[i].kind.InternalLink?
    && (i in s.delivered ==> t.Sigframe(t.links[i].dst))
  }

  lemma OnlyInput(t: Topology, i: int)
    requires t.Accepted() && 0 <= i < |t.links| && t.links[i].kind.InternalLink?
    ensures i in t.InternalInputs(t.links[i].dst) && i in t.Inputs(t.links[i].dst)
    ensures t.Sigframe(t.links[i].dst) ==> t.InternalInputs(t.links[i].dst) == {i}
  {
    var next := t.links[i].dst;
    if t.Sigframe(next) {
      forall j | j in t.InternalInputs(next) ensures j == i {
        assert j in t.Inputs(next) && i in t.Inputs(next);
      }
    }
  }

  lemma OtherNodes(t: Topology, delivered: set<int>, i: int, n: string)
    requires 0 <= i < |t.links| && t.links[i].dst != n
    ensures t.InternalInputs(n) - (delivered + {i}) == t.InternalInputs(n) - delivered
    ensures t.InternalInputs(n) <= delivered + {i} <==> t.InternalInputs(n) <= delivered
  {
    assert i !in t.InternalInputs(n);
  }

  lemma DeliverCount(t: Topology, s: State, i: int)
    requires MayDeliver(t, s, i)
    ensures var s' := Deliver(t, s, i);
            CountOk(t, s') && s' == s.(c := s'.c, delivered := s.delivered + {i})
  {
    hide QueueOk;
    hide CountRight;
    hide Topology.InternalInputs;
    hide Topology.Inputs;
    hide Topology.Accepted;
    var s' := Deliver(t, s, i);
    OnlyInput(t, i);
    forall n | n in s'.c.dependence && !s'.c.hasError ensures CountRight(t, s'.delivered, n, s'.c.dependence[n]) {
      DeliverCountAt(t, s.delivered, i, n, s.c.dependence[n]);
    }
  }

  lemma DeliverCountAt(t: Topology, delivered: set<int>, i: int, n: string, left: int)
    requires t.Accepted() && 0 <= i < |t.links| && t.links[i].kind.InternalLink? && CountRight(t, delivered, n, left)
    requires i in delivered ==> t.Sigframe(t.links[i].dst)
    ensures CountRight(t, delivered + {i}, n, if n == t.links[i].dst then left - 1 else left)
  {
    OnlyInput(t, i);
    if n != t.links[i].dst {
      OtherNodes(t, delivered, i, n);
    } else if !t.Sigframe(n) {
      assert t.InternalInputs(n) - (delivered + {i}) == t.InternalInputs(n) - delivered - {i};
    }
  }

  /** The count reaches zero exactly when the last missing link arrives, and then the node is new. */
  lemma DeliverQueues(t: Topology, s: State, i: int)
    requires MayDeliver(t, s, i) && !s.c.hasError
    ensures var s' := Deliver(t, s, i);
            var next := t.links[i].dst;
            var due := next !in Queued(s) && t.InternalInputs(next) <= s'.delivered;
            Queued(s') == if due then Queued(s) + [next] else Queued(s)
  {
    var next := t.links[i].dst;
    OnlyInput(t, i);
    DeliverCount(t, s, i);
    var s' := Deliver(t, s, i);
    if !t.Sigframe(next) {
      assert i in t.InternalInputs(next) - s.delivered;
      var rest := t.InternalInputs(next) - s'.delivered;
      assert |rest| == 0 <==> rest == {};
    }
    assert s.taken + (s.c.runSequence + [next]) == Queued(s) + [next];
  }

  lemma QueueExtended(t: Topology, s: State, s': State, next: string)
    requires QueueOk(t, s) && s'.c.hasError == s.c.hasError
    requires forall n :: n != next ==> Fulfilled(t, s, n) == Fulfilled(t, s', n)
    requires Fulfilled(t, s, next) ==> Fulfilled(t, s', next)
    requires Queued(s') == if !s.c.hasError && next !in Queued(s) && Fulfilled(t, s', next)
                           then Queued(s) + [next] else Queued(s)
    ensures QueueOk(t, s')
  {
    var q, q' := Queued(s), Queued(s');
    assert forall n :: n in q' ==> n in q || n == next;
  }

  lemma DeliverKeeps(t: Topology, s: State, i: int)
    requires MayDeliver(t, s, i)
    ensures var s' := Deliver(t, s, i);
            QueueOk(t, s') && CountOk(t, s') && s' == s.(c := s'.c, delivered := s.delivered + {i})
            && s'.c.running == s.c.running && s'.c.hasError == s.c.hasError && s.c.runSequence <= s'.c.runSequence
            && (s.c.hasError ==> s'.c.runSequence == s.c.runSequence)
  {
    var s' := Deliver(t, s, i);
    var next := t.links[i].dst;
    DeliverCount(t, s, i);
    OnlyInput(t, i);
    if !s.c.hasError {
      DeliverQueues(t, s, i);
    }
    forall n | n != next ensures Fulfilled(t, s, n) == Fulfilled(t, s', n) {
      OtherNodes(t, s.delivered, i, n);
    }
    QueueExtended(t, s, s', next);
  }

  /** Neither telling the dispatcher nor putting frames into queues matters to the invariant. */
  lemma NotifiedKeeps(t: Topology, s: State)
    requires Inv(t, s)
    ensures Inv(t, Notified(s)) && Notified(s).workers == s.workers
  {
    var s' := Notified(s);
    QueueFrame(t, s, s');
    assert InFlight(s') == InFlight(s);
    assert forall i :: 0 <= i < |t.links| ==> Passed(t, s', i) == Passed(t, s, i);
  }

  predicate Between(w: Worker) { w.Fetching? || w.Running? || w.Sharing? }

  /** A node that takes, runs or shares a frame. */
  lemma MoveKeeps(t: Topology, s: State, n: string, w: Worker, s': State)
    requires Inv(t, s) && n in s.workers && Between(s.workers[n]) && Between(w)
    requires s' == Moved(s, n, w).(given := s'.given)
    ensures Inv(t, s')
  {
    QueueFrame(t, s, s');
    hide QueueOk;
    hide CountOk;
    assert InFlight(s') == InFlight(s);
    assert RunningOk(s');
    hide RunningOk;
    hide InFlight;
    assert forall i :: 0 <= i < |t.links| ==> Passed(t, s', i) == Passed(t, s, i);
    hide Passed;
    MoveWorkers(t, s, n, w, s');
    hide WorkersOk;
  }

  lemma MoveWorkers(t: Topology, s: State, n: string, w: Worker, s': State)
    requires WorkersOk(t, s) && n in s.workers && Between(s.workers[n]) && Between(w)
    requires s' == Moved(s, n, w).(given := s'.given)
    ensures WorkersOk(t, s')
  {
    if s.c.hasError {
      var f :| f in s.workers && s.workers[f].Failed?;
      assert s'.workers[f].Failed?;
    }
  }

  lemma DeliverEarly(t: Topology, s: State, n: string, i: int)
    requires t.Accepted() && Inv(t, s) && n in s.workers && Between(s.workers[n])
    requires 0 <= i < |t.links| && LeavesNode(t.links[i], n) && EarlyChild(t, t.links[i])
    ensures Inv(t, Deliver(t, s, i))
  {
    assert n in InFlight(s);
    EarlyDelivered(t, s, n, i);
    assert t.links[i].kind.InternalLink?;
    hide *;
    DeliverKeeps(t, s, i);
    DeliveredRest(t, s, Deliver(t, s, i), n, i);
  }

  lemma EarlyDelivered(t: Topology, s: State, n: string, i: int)
    requires t.Accepted() && Inv(t, s)
    requires 0 <= i < |t.links| && LeavesNode(t.links[i], n) && EarlyChild(t, t.links[i])
    ensures MayDeliver(t, s, i)
  {
    hide QueueOk;
    hide CountOk;
    hide DeliveredOk;
    hide WorkersOk;
    hide RunningOk;
  }

  lemma DeliveredRest(t: Topology, s: State, s': State, n: string, i: int)
    requires Inv(t, s) && QueueOk(t, s') && CountOk(t, s') && s' == s.(c := s'.c, delivered := s.delivered + {i})
    requires s'.c.running == s.c.running && s'.c.hasError == s.c.hasError && s.c.runSequence <= s'.c.runSequence
    requires n in InFlight(s) && 0 <= i < |t.links| && t.links[i].kind.InternalLink? && t.Sigframe(t.links[i].dst)
    requires t.links[i].src == n
    ensures Inv(t, s')
  {
    hide QueueOk;
    hide CountOk;
    assert WorkersOk(t, s');
    assert InFlight(s') == InFlight(s);
    hide WorkersOk;
    assert |InFlight(s)| > 0;
    assert RunningOk(s');
    hide RunningOk;
    assert forall e :: 0 <= e < |t.links| ==> Passed(t, s', e) == Passed(t, s, e);
    hide Passed;
  }

  lemma EarlyKeeps(t: Topology, s: State, a: Step)
    requires t.Accepted() && Inv(t, s) && Enabled(t, s, a) && a.Early?
    ensures Inv(t, Apply(t, s, a))
  {
    hide Inv;
    hide Topology.Accepted;
    hide Deliver;
    var n := a.node;
    var w := s.workers[n];
    var m := Moved(s, n, w.(pos := w.pos + 1));
    var i := EarlyAt(t, n, w.pos);
    assert Between(w) && Between(w.(pos := w.pos + 1)) && m.workers[n] == w.(pos := w.pos + 1);
    assert n in s.workers && m == Moved(s, n, w.(pos := w.pos + 1)).(given := m.given);
    assert Apply(t, s, a) == Deliver(t, m, i) || Apply(t, s, a) == Notified(Deliver(t, m, i));
    hide *;
    MoveKeeps(t, s, n, w.(pos := w.pos + 1), m);
    DeliverEarly(t, m, n, i);
    NotifiedKeeps(t, Deliver(t, m, i));
  }

  /** A finished node after stepping past its next output link, with the rest of the frames handed on, before that
      link is counted. */
  function Advanced(t: Topology, s: State, n: string, rest: nat): State
    requires n in s.workers && s.workers[n].Notifying? && s.workers[n].next < |Outputs(t, n)|
  {
    var m := Moved(s, n, Notifying(s.workers[n].next + 1));
    var i := Outputs(t, n)[s.workers[n].next];
    if t.links[i].kind.SinkLink? then m else Handed(m, i, rest)
  }

  lemma AdvancePasses(t: Topology, s: State, n: string, rest: nat)
    requires Enabled(t, s, Notify(n, rest))
    ensures var i := Outputs(t, n)[s.workers[n].next];
            LeavesNode(t.links[i], n) && Passed(t, Advanced(t, s, n, rest), i) && !Passed(t, s, i)
            && forall e :: 0 <= e < |t.links| && e != i ==> Passed(t, Advanced(t, s, n, rest), e) == Passed(t, s, e)
  {
    hide Outputs;
    var k := s.workers[n].next;
    var m := Advanced(t, s, n, rest);
    assert m.workers[n].next == k + 1;
    forall e | 0 <= e < |t.links| && e != Outputs(t, n)[k] ensures Passed(t, m, e) == Passed(t, s, e) {
      if t.links[e].src == n {
        assert forall j :: 0 <= j < k + 1 && Outputs(t, n)[j] == e ==> j < k;
      }
    }
  }

  lemma AdvanceKeeps(t: Topology, s: State, n: string, rest: nat)
    requires QueueOk(t, s) && CountOk(t, s) && WorkersOk(t, s) && RunningOk(s)
    requires n in s.workers && s.workers[n].Notifying? && s.workers[n].next < |Outputs(t, n)|
    ensures var m := Advanced(t, s, n, rest); QueueOk(t, m) && CountOk(t, m) && WorkersOk(t, m) && RunningOk(m)
  {
    var m := Advanced(t, s, n, rest);
    assert m.workers == s.workers[n := Notifying(s.workers[n].next + 1)] && m == s.(workers := m.workers, given := m.given);
    QueueFrame(t, s, m);
    hide QueueOk;
    hide CountOk;
    hide Advanced;
    assert InFlight(m) == InFlight(s);
    if s.c.hasError {
      var f :| f in s.workers && s.workers[f].Failed?;
      assert m.workers[f].Failed?;
    }
  }

  lemma NotifyDelivered(t: Topology, s: State, m: State, s': State, i: int)
    requires DeliveredOk(t, s)
    requires 0 <= i < |t.links| && t.links[i].kind.InternalLink? && Passed(t, m, i)
    requires forall e :: 0 <= e < |t.links| && e != i ==> Passed(t, m, e) == Passed(t, s, e)
    requires s'.workers == m.workers && m.workers.Keys == s.workers.Keys && s'.delivered == s.delivered + {i}
    ensures DeliveredOk(t, s')
  {
    forall e | 0 <= e < |t.links| ensures Passed(t, s', e) == Passed(t, m, e) {
    }
  }

  lemma NotifyDelivers(t: Topology, s: State, n: string, rest: nat, i: int)
    requires t.Accepted() && Inv(t, s) && Enabled(t, s, Notify(n, rest))
    requires i == Outputs(t, n)[s.workers[n].next] && t.links[i].kind.InternalLink?
    ensures MayDeliver(t, Advanced(t, s, n, rest), i) && DeliveredOk(t, Deliver(t, Advanced(t, s, n, rest), i))
  {
    var m := Advanced(t, s, n, rest);
    assert m.workers.Keys == s.workers.Keys && m.delivered == s.delivered && 0 <= i < |t.links|;
    AdvancePasses(t, s, n, rest);
    AdvanceKeeps(t, s, n, rest);
    assert MayDeliver(t, m, i) by {
      hide CountOk;
      hide QueueOk;
      hide WorkersOk;
      assert Passed(t, s, i) || i !in s.delivered || t.Sigframe(t.links[i].dst);
    }
    hide *;
    DeliverCount(t, m, i);
    NotifyDelivered(t, s, m, Deliver(t, m, i), i);
  }

  lemma NotifyKeeps(t: Topology, s: State, n: string, rest: nat, s': State)
    requires t.Accepted() && Inv(t, s) && Enabled(t, s, Notify(n, rest)) && s' == Apply(t, s, Notify(n, rest))
    ensures Inv(t, s')
  {
    var m, i := Advanced(t, s, n, rest), Outputs(t, n)[s.workers[n].next];
    NotifyStep(t, s, n, rest);
    AdvanceKeeps(t, s, n, rest);
    if t.links[i].kind.SinkLink? {
      AdvancePasses(t, s, n, rest);
      hide Apply;
      hide Enabled;
      hide Advanced;
      hide Passed;
      hide QueueOk;
      hide CountOk;
      hide WorkersOk;
      hide RunningOk;
    } else {
      NotifyDelivers(t, s, n, rest, i);
      hide *;
      DeliverKeeps(t, m, i);
      DeliveredInv(t, m, s', n, i);
    }
  }

  lemma NotifyStep(t: Topology, s: State, n: string, rest: nat)
    requires Enabled(t, s, Notify(n, rest)) && !s.fault
    ensures var m, i := Advanced(t, s, n, rest), Outputs(t, n)[s.workers[n].next];
            && Apply(t, s, Notify(n, rest)) == (if t.links[i].kind.SinkLink? then m else Deliver(t, m, i))
            && !m.fault && m.delivered == s.delivered && m.workers.Keys == s.workers.Keys && n in InFlight(m)
  {
    hide Outputs;
    hide Deliver;
  }

  lemma DeliveredInv(t: Topology, m: State, s': State, n: string, i: int)
    requires WorkersOk(t, m) && RunningOk(m) && n in InFlight(m) && !m.fault
    requires QueueOk(t, s') && CountOk(t, s') && DeliveredOk(t, s') && s' == m.(c := s'.c, delivered := m.delivered + {i})
    requires s'.c.running == m.c.running && s'.c.hasError == m.c.hasError && m.c.runSequence <= s'.c.runSequence
    ensures Inv(t, s')
  {
    hide QueueOk;
    hide CountOk;
    hide DeliveredOk;
    assert WorkersOk(t, s');
    hide WorkersOk;
    assert InFlight(s') == InFlight(m);
    assert |InFlight(m)| > 0;
  }

  /** What success, failure and the last word of a node do before the dispatcher is told. */
  function Settled(t: Topology, s: State, a: Step): State
    requires Enabled(t, s, a) && (a.Succeed? || a.Fail? || a.Signal?)
  {
    match a
    case Succeed(n) => Moved(s, n, Notifying(0))
    case Fail(n) => Moved(s, n, Failed).(c := SignalledError(s.c))
    case Signal(n) => Moved(s, n, Done).(c := SignalledOk(s.c))
  }

  lemma OutcomeKeeps(t: Topology, s: State, a: Step)
    requires Inv(t, s) && Enabled(t, s, a) && (a.Succeed? || a.Fail? || a.Signal?)
    ensures Inv(t, Apply(t, s, a))
  {
    var s' := Settled(t, s, a);
    OutcomeFields(t, s, a);
    OutcomePasses(t, s, a);
    OutcomeWorkers(t, s, a);
    OutcomeRunning(t, s, a);
    hide Apply;
    hide Enabled;
    hide Settled;
    hide WorkersOk;
    hide RunningOk;
    hide Queued;
    assert DeliveredOk(t, s') by {
      hide Passed;
      hide QueueOk;
      hide CountOk;
    }
    hide DeliveredOk;
    assert QueueOk(t, s') && CountOk(t, s') by {
      QueueFrame(t, s, s');
    }
    assert Inv(t, s');
    hide *;
    NotifiedKeeps(t, s');
  }

  lemma OutcomeFields(t: Topology, s: State, a: Step)
    requires Enabled(t, s, a) && (a.Succeed? || a.Fail? || a.Signal?)
    ensures var s' := Settled(t, s, a);
            && (Apply(t, s, a) == s' || Apply(t, s, a) == Notified(s'))
            && Queued(s') == Queued(s) && s'.delivered == s.delivered && s'.c.dependence == s.c.dependence
            && (s.c.hasError ==> s'.c.hasError) && s'.fault == s.fault && s'.workers.Keys == s.workers.Keys
  {
  }

  lemma OutcomeRunning(t: Topology, s: State, a: Step)
    requires RunningOk(s) && Enabled(t, s, a) && (a.Succeed? || a.Fail? || a.Signal?)
    ensures RunningOk(Settled(t, s, a))
  {
    var s' := Settled(t, s, a);
    assert a.node in InFlight(s);
    assert InFlight(s') == if a.Succeed? then InFlight(s) else InFlight(s) - {a.node};
  }

  lemma OutcomePasses(t: Topology, s: State, a: Step)
    requires Enabled(t, s, a) && (a.Succeed? || a.Fail? || a.Signal?)
    ensures forall i :: 0 <= i < |t.links| && t.links[i].kind.InternalLink? ==>
                          Passed(t, Settled(t, s, a), i) == Passed(t, s, i)
  {
    forall i | 0 <= i < |t.links| && t.links[i].kind.InternalLink?
      ensures Passed(t, Settled(t, s, a), i) == Passed(t, s, i)
    {
      if a.Signal? && t.links[i].src == a.node {
        assert LeavesNode(t.links[i], a.node);
        assert i in Outputs(t, a.node);
      }
    }
  }

  lemma OutcomeWorkers(t: Topology, s: State, a: Step)
    requires WorkersOk(t, s) && Enabled(t, s, a) && (a.Succeed? || a.Fail? || a.Signal?)
    ensures WorkersOk(t, Settled(t, s, a))
  {
    var s' := Settled(t, s, a);
    if s.c.hasError {
      var f :| f in s.workers && s.workers[f].Failed?;
      assert s'.workers[f].Failed?;
    }
    if a.Fail? {
      assert s'.workers[a.node].Failed?;
    }
  }

  lemma StepInv(t: Topology, s: State, a: Step, s': State)
    requires t.Accepted() && Inv(t, s) && Stepped(t, s, a, s')
    ensures Inv(t, s')
  {
    match a
    case Fetch(n) => MoveKeeps(t, s, n, s'.workers[n], s');
    case Share(n) => MoveKeeps(t, s, n, s'.workers[n], s');
    case Push(n) => MoveKeeps(t, s, n, s'.workers[n], s');
    case Resume(n) => MoveKeeps(t, s, n, s'.workers[n], s');
    case Early(_) => EarlyKeeps(t, s, a);
    case Notify(n, rest) => NotifyKeeps(t, s, n, rest, s');
    case Succeed(_) => OutcomeKeeps(t, s, a);
    case Fail(_) => OutcomeKeeps(t, s, a);
    case Signal(_) => OutcomeKeeps(t, s, a);
    case Take => TakeKeeps(t, s, a);
    case Hand => HandKeeps(t, s, a);
    case _ => DispatcherKeeps(t, s, a);
  }

  // ---------------------------------------------------------------- what every run keeps

  lemma {:induction false} RunInv(t: Topology, states: seq<State>, steps: seq<Step>, k: nat)
    requires Run(t, states, steps) && k < |states|
    ensures Inv(t, states[k])
  {
    if k == 0 {
      InitialInv(t, states[0]);
    } else {
      RunInv(t, states, steps, k - 1);
      StepInv(t, states[k - 1], steps[k - 1], states[k]);
    }
  }

  /** No instance is queued twice, the head of an empty queue is never taken, and the dependency of a
      notified child is always on record. A queued ordinary node has had every internal input handed
      over by a finished source; a queued frame-by-frame node has at least a running source. */
  lemma QueuedOnceAfterInputs(t: Topology, states: seq<State>, steps: seq<Step>, k: nat)
    requires Run(t, states, steps) && k < |states|
    ensures var s := states[k];
            && NoDuplicates(Queued(s)) && !s.fault && (s.dispatcher.Taking? ==> s.c.runSequence != [])
            && forall n, i :: n in Queued(s) && i in t.InternalInputs(n) ==>
                                && i in s.delivered
                                && t.links[i].src in s.workers
                                && (!t.Sigframe(n) ==> Passed(t, s, i))
  {
    RunInv(t, states, steps, k);
    var s := states[k];
    forall n, i | n in Queued(s) && i in t.InternalInputs(n)
      ensures i in s.delivered && t.links[i].src in s.workers && (!t.Sigframe(n) ==> Passed(t, s, i))
    {
      assert Fulfilled(t, s, n);
    }
  }

  /** Whenever the wait condition is tested the running count is the number of nodes in flight, so the
      loop is left only when nothing is queued and nothing runs. */
  lemma WaitSeesInFlight(t: Topology, states: seq<State>, steps: seq<Step>, k: nat)
    requires Run(t, states, steps) && k < |states|
    ensures var s := states[k];
            && (!s.dispatcher.Counting? ==> s.c.running == |InFlight(s)|)
            && (s.dispatcher == Counting(true) ==> s.c.running == |InFlight(s)| - 1)
            && (s.dispatcher.Finished? ==> s.c.runSequence == [] && InFlight(s) == {})
  {
    RunInv(t, states, steps, k);
  }

  predicate Extends(q: seq<string>, q': seq<string>) {
    q' == q || (|q'| == |q| + 1 && q'[..|q|] == q)
  }

  lemma DeliverHistory(t: Topology, s: State, i: int)
    requires 0 <= i < |t.links|
    ensures var s' := Deliver(t, s, i);
            Queued(s') == Queued(s) || (!s.c.hasError && Queued(s') == Queued(s) + [t.links[i].dst])
  {
    assert s.taken + (s.c.runSequence + [t.links[i].dst]) == Queued(s) + [t.links[i].dst];
  }

  lemma EarlyHistory(t: Topology, s: State, n: string)
    requires Enabled(t, s, Early(n))
    ensures var s' := Apply(t, s, Early(n));
            && s'.workers.Keys == s.workers.Keys && s'.c.hasError == s.c.hasError
            && (s.c.hasError ==> Queued(s') == Queued(s)) && Extends(Queued(s), Queued(s')) && s'.taken == s.taken
  {
    hide Starved;
    hide EarlyLinks;
    hide Outputs;
    var w := s.workers[n];
    var m := Moved(s, n, w.(pos := w.pos + 1));
    assert Queued(m) == Queued(s);
    DeliverHistory(t, m, EarlyAt(t, n, w.pos));
  }

  lemma NotifyHistory(t: Topology, s: State, n: string, rest: nat)
    requires Enabled(t, s, Notify(n, rest))
    ensures var s' := Apply(t, s, Notify(n, rest));
            && s'.workers.Keys == s.workers.Keys && s'.c.hasError == s.c.hasError
            && (s.c.hasError ==> Queued(s') == Queued(s)) && Extends(Queued(s), Queued(s')) && s'.taken == s.taken
  {
    var m := Advanced(t, s, n, rest);
    assert Queued(m) == Queued(s);
    DeliverHistory(t, m, Outputs(t, n)[s.workers[n].next]);
  }

  /** One step appends at most one node to the history, and none after an error. */
  lemma StepHistory(t: Topology, s: State, a: Step, s': State)
    requires Stepped(t, s, a, s')
    ensures s.c.hasError ==> s'.c.hasError && Queued(s') == Queued(s)
    ensures if a.Early? || a.Notify? then Extends(Queued(s), Queued(s')) && s'.taken == s.taken else Queued(s') == Queued(s)
    ensures !a.Hand? ==> s'.workers.Keys == s.workers.Keys
  {
    match a
    case Early(n) => EarlyHistory(t, s, n);
    case Notify(n, rest) => NotifyHistory(t, s, n, rest);
    case Fetch(_) => BetweenHistory(t, s, a);
    case Share(_) => BetweenHistory(t, s, a);
    case Push(_) => BetweenHistory(t, s, a);
    case Resume(_) => BetweenHistory(t, s, a);
    case _ =>
      hide Starved;
      hide Outputs;
      hide EarlyLinks;
      hide Deliver;
      hide CutShort;
      hide AllTaken;
  }

  lemma BetweenHistory(t: Topology, s: State, a: Step)
    requires Enabled(t, s, a) && (a.Fetch? || a.Share? || a.Push? || a.Resume?)
    ensures var s' := Apply(t, s, a); s'.c == s.c && s'.taken == s.taken && s'.workers.Keys == s.workers.Keys
  {
    hide Starved;
    hide EarlyLinks;
  }

  /** Once a node has failed, no node is added to what was queued. */
  lemma {:induction false} ErrorFreezesQueue(t: Topology, states: seq<State>, steps: seq<Step>, j: nat, k: nat)
    requires Run(t, states, steps) && j <= k < |states| && states[j].c.hasError
    ensures states[k].c.hasError && Queued(states[k]) == Queued(states[j])
  {
    hide Apply;
    hide Enabled;
    hide Initial;
    hide Queued;
    if j < k {
      ErrorFreezesQueue(t, states, steps, j, k - 1);
      StepHistory(t, states[k - 1], steps[k - 1], states[k]);
    }
  }

  /** Closed under execution: a known instance whose internal inputs all come from the set is in it. */
  ghost predicate Closed(t: Topology, nodes: set<string>) {
    forall n | n in t.known && t.Inputs(n) != {}
      :: (forall i :: i in t.InternalInputs(n) ==> t.links[i].src in nodes) ==> n in nodes
  }

  /** Transitively fed by source links: in every closed set. */
  ghost predicate Fed(t: Topology, n: string) {
    forall nodes :: Closed(t, nodes) ==> n in nodes
  }

  ghost predicate WithinClosed(t: Topology, s: State, nodes: set<string>) {
    && (forall n :: n in Queued(s) && n in t.known ==> n in nodes)
    && (forall n :: n in s.workers ==> n in nodes)
  }

  lemma StepWithinClosed(t: Topology, s: State, a: Step, s': State, nodes: set<string>)
    requires Closed(t, nodes) && WithinClosed(t, s, nodes)
    requires Stepped(t, s, a, s') && WorkersOk(t, s) && QueueOk(t, s') && DeliveredOk(t, s')
    ensures WithinClosed(t, s', nodes)
  {
    StepHistory(t, s, a, s');
    if a.Hand? {
      assert s.dispatcher.node in Queued(s);
    } else {
      forall n | n in Queued(s') && n in t.known ensures n in nodes {
        assert Fulfilled(t, s', n);
        forall i | i in t.InternalInputs(n) ensures t.links[i].src in nodes {
          assert i in s'.delivered;
        }
      }
    }
  }

  lemma InitialWithinClosed(t: Topology, s: State, nodes: set<string>)
    requires Initial(t, s) && Closed(t, nodes)
    ensures WithinClosed(t, s, nodes)
  {
    assert Queued(s) == s.c.runSequence;
    forall n | n in s.c.runSequence && n in t.known ensures n in nodes {
      assert t.InternalInputs(n) == {};
    }
  }

  lemma {:induction false} RunWithinClosed(t: Topology, states: seq<State>, steps: seq<Step>, k: nat, nodes: set<string>)
    requires Run(t, states, steps) && k < |states| && Closed(t, nodes)
    ensures WithinClosed(t, states[k], nodes)
  {
    InitialWithinClosed(t, states[0], nodes);
    var j := 0;
    while j < k
      invariant 0 <= j <= k
      invariant WithinClosed(t, states[j], nodes)
    {
      RunInv(t, states, steps, j);
      RunInv(t, states, steps, j + 1);
      StepWithinClosed(t, states[j], steps[j], states[j + 1], nodes);
      j := j + 1;
    }
  }

  lemma FinishedClosed(t: Topology, s: State)
    requires Inv(t, s) && s.dispatcher.Finished? && !s.c.hasError
    ensures Closed(t, s.workers.Keys)
  {
    assert Queued(s) == s.taken;
    forall n | n in t.known && t.Inputs(n) != {}
               && forall i :: i in t.InternalInputs(n) ==> t.links[i].src in s.workers.Keys
      ensures n in s.workers.Keys
    {
      forall i | i in t.InternalInputs(n) ensures i in s.delivered {
        assert t.links[i].src !in InFlight(s);
        assert Passed(t, s, i);
      }
      assert Fulfilled(t, s, n);
    }
  }

  /** A run that ends without an error has executed exactly the nodes fed by source links. */
  lemma ExecutesExactlyFed(t: Topology, states: seq<State>, steps: seq<Step>, k: nat)
    requires Run(t, states, steps) && k < |states|
    requires states[k].dispatcher.Finished? && !states[k].c.hasError
    ensures forall n :: n in states[k].workers <==> Fed(t, n)
    ensures forall n :: n in states[k].workers ==> states[k].workers[n] == Done
  {
    RunInv(t, states, steps, k);
    var s := states[k];
    FinishedClosed(t, s);
    forall n ensures n in s.workers <==> Fed(t, n) {
      if n in s.workers {
        forall nodes | Closed(t, nodes) ensures n in nodes {
          RunWithinClosed(t, states, steps, k, nodes);
        }
      }
    }
    forall n | n in s.workers ensures s.workers[n] == Done {
      assert n !in InFlight(s);
    }
  }
}
