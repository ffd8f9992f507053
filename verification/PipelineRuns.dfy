/** Scheduler and images together: what each thread does with images, one queue or count at a time, and what is
    left when the dispatcher has finished and cleaned up. */
module PipelineRuns {
  import opened Collections
  import opened Scheduler
  import opened Links
  import R = SchedulerRuns
  import E = SchedulerEnds
  import F = SchedulerFlow
  import B = Buffers

  /** The threads that touch images: those of the application that submit frames, the one that works for a
      node, and the one that dispatches and, when it has finished, cleans up. */
  datatype Thread = Application(id: int) | Worker(node: string) | Dispatcher

  /** Where a thread is in what it does with one image. */
  datatype Activity =
    | Free
    | Placing(image: int, to: B.Slot)                          // about to put it into a queue
    | Letting(image: int)                                      // about to release it
    | Sharing(image: int, children: seq<B.Slot>, more: bool)   // handing it to children; `more`: counted for the next

  /** What a popped image is for. */
  datatype Use = ToPlace(to: B.Slot) | ToRelease | ToShare(children: seq<B.Slot>)

  /** Where the dispatcher is with cleaning up: at the source queues, by port, behind `last`; at the queues of the nodes;
      or popping from a queue, with where it goes on. */
  datatype Cleaner =
    | NotYet
    | Sources(last: B.Option<int>)
    | Nodes(i: nat)
    | Popping(slot: B.Slot, next: Cleaner)

  /** The links; the queues of the nodes, in the order in which they are cleaned up; and the source ports that have a
      queue from the start. */
  datatype Pipeline = Pipeline(t: Topology, nodes: seq<B.Slot>, ports: set<int>)

  /** `visited` are the queues that have been cleaned up. */
  datatype State = State(
    run: R.State, space: B.Space, acts: map<Thread, Activity>, cleaner: Cleaner, visited: set<B.Slot>)

  datatype Step =
    | Schedule(step: R.Step)
    | Submit(app: int, image: int, port: int)
    | Grow(node: string, image: int)
    | Obtain(node: string, slot: B.Slot)
    | ObtainSink(node: string, image: int, sink: B.ImageType, slot: B.Slot)
    | Take(node: string, from: B.Slot, use: Use)
    | Continue(thread: Thread)
    | CloseEarly(port: int)
    | StartCleanup | CloseSource(port: int) | EndSources | OpenNode | PopQueue

  function Act(s: State, th: Thread): Activity {
    if th in s.acts then s.acts[th] else Free
  }

  function HandOf(a: Activity): multiset<int> {
    match a
    case Free => multiset{}
    case Placing(m, _) => multiset{m}
    case Letting(m) => multiset{m}
    case Sharing(m, _, more) => if more then multiset{m, m} else multiset{m}
  }

  // ----- What a worker may start -----

  /** Images of the node's input links go from their queues to the using queues; those come back to it, or go to
      the children of an in-place or virtual node; those of output links go to the child or to the application. */
  predicate MayTake(t: Topology, n: string, from: B.Slot, use: Use) {
    match use
    case ToPlace(to) =>
      || (exists i :: 0 <= i < |t.links| && t.links[i].dst == n && from == FetchedFrom(t.links[i])
                      && to == B.Using(n, t.links[i].dstPort))
      || (exists i :: 0 <= i < |t.links| && LeavesNode(t.links[i], n) && t.links[i].kind.InternalLink?
                      && from == B.Output(n, t.links[i].srcPort) && to == B.Input(t.links[i].dst, t.links[i].dstPort))
    case ToRelease =>
      || (from.Using? && from.node == n && !R.Passes(t, n))
      || (exists i :: 0 <= i < |t.links| && LeavesNode(t.links[i], n) && t.links[i].kind.SinkLink?
                      && from == B.Output(n, t.links[i].srcPort))
    case ToShare(children) => from.Using? && from.node == n && R.Passes(t, n) && children == B.ChildSlots(t, n)
  }

  function FetchedFrom(l: Link): B.Slot {
    if l.kind.SourceLink? then B.Source(l.srcPort) else B.Input(l.dst, l.dstPort)
  }

  /** The queues of a pipeline: one per source port, three per node port; a frame for another port makes one more. */
  ghost predicate HasQueues(p: Pipeline, queues: set<B.Slot>) {
    && NoDuplicates(p.nodes) && (forall q :: q in p.nodes ==> q in queues && !q.Source?)
    && (forall port :: port in p.ports ==> B.Source(port) in queues)
    && (forall q :: q in queues ==> q in p.nodes || q.Source?)
    && (forall i :: 0 <= i < |p.t.links| ==>
          && (p.t.links[i].kind.SourceLink? ==> p.t.links[i].srcPort in p.ports)
          && B.Output(p.t.links[i].src, p.t.links[i].srcPort) in queues
          && B.Input(p.t.links[i].dst, p.t.links[i].dstPort) in queues
          && B.Using(p.t.links[i].dst, p.t.links[i].dstPort) in queues)
  }

  // ----- Steps -----

  /** The operation that a busy thread performs next, and where it is then. */
  function NextOp(a: Activity): B.Op
    requires !a.Free?
  {
    match a
    case Placing(m, to) => B.Push(m, to)
    case Letting(m) => B.Release(m)
    case Sharing(m, children, more) =>
      if more && children != [] then B.Push(m, children[0]) else if children != [] then B.Share(m) else B.Release(m)
  }

  function NextAct(s: B.Space, a: Activity): Activity
    requires !a.Free?
  {
    match a
    case Placing(m, to) => if to in s.closed then Letting(m) else Free
    case Letting(_) => Free
    case Sharing(m, children, more) =>
      if more && children != [] then Sharing(m, children[1..], false)
      else if children != [] then Sharing(m, children, true) else Free
  }

  /** A worker speaks to the scheduler between images. */
  predicate Enabled(p: Pipeline, s: State, a: Step) {
    match a
    case Schedule(b) =>
      R.Enabled(p.t, s.run, b)
      && (F.OfWorker(b) ==> Act(s, Worker(b.node)).Free?)
    case Submit(i, m, _) => Act(s, Application(i)).Free? && m !in s.space.useCount
    case Grow(n, m) => Idle(s, n) && B.Enabled(s.space, B.Grow(m))
    case Obtain(n, slot) => Idle(s, n) && slot.Output? && slot in s.space.queues && B.Enabled(s.space, B.AcquireInternal)
    case ObtainSink(n, m, sink, slot) =>
      Idle(s, n) && slot.Output? && slot in s.space.queues && B.Enabled(s.space, B.AcquireSink(m, sink))
    case Take(n, from, use) => Idle(s, n) && from in s.space.queues && MayTake(p.t, n, from, use)
    case Continue(th) => !Act(s, th).Free? && B.Enabled(s.space, NextOp(Act(s, th)))
    case CloseEarly(port) => s.run.expedited && B.Source(port) in s.space.queues
    case StartCleanup => s.run.dispatcher.Finished? && s.cleaner.NotYet?
    case CloseSource(port) => s.cleaner.Sources? && IsNext(s.space, s.cleaner.last, port)
    case EndSources => s.cleaner.Sources? && forall q :: q in s.space.queues && q.Source? ==> !Beyond(s.cleaner.last, q.port)
    case OpenNode => s.cleaner.Nodes? && s.cleaner.i < |p.nodes|
    case PopQueue => s.cleaner.Popping? && s.cleaner.slot in s.space.queues && Act(s, Dispatcher).Free?
  }

  predicate Beyond(last: B.Option<int>, port: int) {
    last.None? || port > last.value
  }

  /** The first source queue, by port, that has not been come to. */
  predicate IsNext(space: B.Space, last: B.Option<int>, port: int) {
    && B.Source(port) in space.queues && Beyond(last, port)
    && forall q :: q in space.queues && q.Source? && Beyond(last, q.port) ==> port <= q.port
  }

  /** A node in flight whose thread is between images. */
  predicate Idle(s: State, n: string) {
    n in R.InFlight(s.run) && Act(s, Worker(n)).Free?
  }

  function Doing(s: State, th: Thread, op: B.Op, then': Activity): State
    requires B.Enabled(s.space, op)
  {
    s.(space := B.Apply(s.space, op), acts := s.acts[th := then'])
  }

  function Using(m: int, use: Use): Activity {
    match use
    case ToPlace(to) => Placing(m, to)
    case ToRelease => Letting(m)
    case ToShare(children) => Sharing(m, children, false)
  }

  function Apply(p: Pipeline, s: State, a: Step): State
    requires Enabled(p, s, a)
  {
    match a
    case Schedule(b) => s.(run := R.Apply(p.t, s.run, b))
    case Submit(i, m, port) => Doing(s, Application(i), B.Arrive(m), Placing(m, B.Source(port)))
    case Grow(_, m) => s.(space := B.Apply(s.space, B.Grow(m)))
    case Obtain(n, slot) => Doing(s, Worker(n), B.AcquireInternal, Placing(s.space.pool[0], slot))
    case ObtainSink(n, m, sink, slot) => Doing(s, Worker(n), B.AcquireSink(m, sink), Placing(m, slot))
    case Take(n, from, use) =>
      if s.space.queues[from] == [] then s
      else Doing(s, Worker(n), B.Pop(from), Using(s.space.queues[from][0], use))
    case Continue(th) => Doing(s, th, NextOp(Act(s, th)), NextAct(s.space, Act(s, th)))
    case CloseEarly(port) => s.(space := B.Apply(s.space, B.Close(B.Source(port))))
    case StartCleanup => s.(cleaner := Sources(B.None))
    case CloseSource(port) =>
      s.(space := B.Apply(s.space, B.Close(B.Source(port))),
         cleaner := Popping(B.Source(port), Sources(B.Some(port))))
    case EndSources => s.(cleaner := Nodes(0))
    case OpenNode => s.(cleaner := Popping(p.nodes[s.cleaner.i], Nodes(s.cleaner.i + 1)))
    case PopQueue =>
      var q := s.cleaner.slot;
      if s.space.queues[q] == [] then s.(cleaner := s.cleaner.next, visited := s.visited + {q})
      else Doing(s, Dispatcher, B.Pop(q), Letting(s.space.queues[q][0]))
  }

  ghost predicate Run(p: Pipeline, states: seq<State>, steps: seq<Step>) {
    && p.t.Accepted() && |states| == |steps| + 1
    && R.Initial(p.t, states[0].run) && B.Conserved(states[0].space) && states[0].space.hand == multiset{}
    && states[0].acts == map[] && states[0].cleaner == NotYet && states[0].visited == {}
    && HasQueues(p, states[0].space.queues.Keys) && states[0].space.closed == {}
    && forall k :: 0 <= k < |steps| ==> Stepped(p, states[k], steps[k], states[k + 1])
  }

  predicate Stepped(p: Pipeline, s: State, a: Step, s': State) {
    Enabled(p, s, a) && s' == Apply(p, s, a)
  }

  // ----- All hands together -----

  function Hands(acts: map<Thread, Activity>): map<Thread, multiset<int>> {
    map th | th in acts :: HandOf(acts[th])
  }

  ghost function AllHands(acts: map<Thread, Activity>): multiset<int> { Gathered(Hands(acts)) }

  /** One thread's part in them. */
  lemma HandUpdate(s: State, th: Thread, a: Activity)
    ensures AllHands(s.acts[th := a]) + HandOf(Act(s, th)) == AllHands(s.acts) + HandOf(a)
    ensures forall m :: HandOf(Act(s, th))[m] <= AllHands(s.acts)[m]
  {
    HandsUpdated(s.acts, th, a);
    assert HandOf(Act(s, th)) == if th in s.acts then Hands(s.acts)[th] else multiset{};
    assert th in s.acts <==> th in Hands(s.acts);
    hide HandOf;
    hide Hands;
    hide Act;
    OneHand(Hands(s.acts), th, HandOf(a), HandOf(Act(s, th)));
  }

  lemma HandsUpdated(acts: map<Thread, Activity>, th: Thread, a: Activity)
    ensures Hands(acts[th := a]) == Hands(acts)[th := HandOf(a)]
  {
    hide HandOf;
  }

  lemma OneHand(h: map<Thread, multiset<int>>, th: Thread, new': multiset<int>, old': multiset<int>)
    requires old' == if th in h then h[th] else multiset{}
    ensures Gathered(h[th := new']) + old' == Gathered(h) + new'
    ensures forall m :: old'[m] <= Gathered(h)[m]
  {
    if th in h {
      GatheredUpdate(h, th, new');
      GatheredAt(h, th);
    } else {
      GatheredAt(h[th := new'], th);
      assert h[th := new'] - {th} == h;
    }
  }

  lemma NothingInHand(acts: map<Thread, Activity>)
    requires forall th :: th in acts ==> acts[th].Free?
    ensures AllHands(acts) == multiset{}
  {
    GatheredNothing(Hands(acts));
  }

  // ----- What every run keeps -----

  ghost predicate TargetsOk(queues: set<B.Slot>, a: Activity) {
    match a
    case Placing(_, to) => to in queues || to.Source?
    case Sharing(_, children, more) =>
      (forall c :: c in children ==> c in queues && !c.Source?) && (more ==> children != [])
    case _ => true
  }

  /** What is held is what the threads are in the middle of; a worker is between images unless its node is in
      flight, the application only submits, the dispatcher only releases. */
  ghost predicate ActsOk(s: State) {
    && s.space.hand == AllHands(s.acts)
    && (forall th :: th in s.acts ==> ActOk(s, th, s.acts[th]))
  }

  ghost predicate ActOk(s: State, th: Thread, a: Activity) {
    && TargetsOk(s.space.queues.Keys, a)
    && match th
       case Application(_) => a.Free? || a.Letting? || (a.Placing? && a.to.Source?)
       case Worker(n) => (!a.Free? ==> n in R.InFlight(s.run)) && (a.Placing? ==> !a.to.Source?)
       case Dispatcher => a.Free? || (a.Letting? && s.cleaner.Popping?)
  }

  /** A queue that has been dealt with: empty, and closed if frames could still arrive there. */
  predicate Dealt(space: B.Space, q: B.Slot) {
    q in space.queues && space.queues[q] == [] && (q.Source? ==> q in space.closed)
  }

  /** The clean-up has come past the queue. */
  predicate Behind(p: Pipeline, c: Cleaner, q: B.Slot) {
    match c
    case NotYet => false
    case Sources(last) => q.Source? && !Beyond(last, q.port)
    case Nodes(i) => q.Source? || q in p.nodes[..if i <= |p.nodes| then i else |p.nodes|]
    case Popping(slot, next) => q != slot && (next.Sources? || next.Nodes?) && Behind(p, next, q)
  }

  /** A queue that was made after the clean-up had come past its port: nobody will look into it any more. */
  predicate Stranded(p: Pipeline, s: State, q: B.Slot) {
    q in s.space.queues && q.Source? && Behind(p, s.cleaner, q) && q !in s.visited
  }

  /** The queue that is popped from, and where the clean-up goes on. */
  ghost predicate PoppingOk(p: Pipeline, s: State)
    requires s.cleaner.Popping?
  {
    var slot, next := s.cleaner.slot, s.cleaner.next;
    && slot in s.space.queues
    && if slot.Source? then slot in s.space.closed && next == Sources(B.Some(slot.port))
       else next.Nodes? && 0 < next.i <= |p.nodes| && p.nodes[next.i - 1] == slot
  }

  ghost predicate CleanerOk(p: Pipeline, s: State) {
    && (s.cleaner.NotYet? ==> s.visited == {})
    && (!s.cleaner.NotYet? ==> s.run.dispatcher.Finished?)
    && (forall q :: q in s.visited ==> Dealt(s.space, q))
    && (s.cleaner.Nodes? ==> s.cleaner.i <= |p.nodes|)
    && (s.cleaner.Popping? ==> PoppingOk(p, s))
  }

  /** What the clean-up has come past has been dealt with, but for stranded queues, which hold an image. */
  ghost predicate PassedOk(p: Pipeline, s: State) {
    && (forall q :: q in p.nodes && Behind(p, s.cleaner, q) ==> q in s.visited)
    && (forall port :: port in p.ports && Behind(p, s.cleaner, B.Source(port)) ==> B.Source(port) in s.visited)
    && (forall q :: Stranded(p, s, q) ==> s.space.queues[q] != [])
  }

  ghost predicate Inv(p: Pipeline, s: State) {
    R.Inv(p.t, s.run) && B.Conserved(s.space) && ActsOk(s) && CleanerOk(p, s) && PassedOk(p, s)
    && HasQueues(p, s.space.queues.Keys) && s.space.closed <= s.space.queues.Keys
  }

  // ----- One operation -----

  /** Queues and their release are for good, and only source ports get new ones. */
  lemma SameQueues(s: B.Space, op: B.Op)
    requires B.Enabled(s, op)
    ensures s.queues.Keys <= B.Apply(s, op).queues.Keys && s.closed <= B.Apply(s, op).closed
    ensures forall q :: q in B.Apply(s, op).queues && q !in s.queues ==> q.Source? && op.Push? && op.slot == q
    ensures !op.Close? ==> B.Apply(s, op).closed == s.closed
  {
  }

  lemma PutDown(hand: multiset<int>, m: int)
    requires m in hand
    ensures hand - multiset{m} + multiset{m} == hand && hand - multiset{m} + multiset{m, m} == hand + multiset{m}
    ensures hand + multiset{m} + multiset{m} == hand + multiset{m, m}
  {
    assert multiset{m, m} == multiset{m} + multiset{m};
  }

  /** A busy thread's next operation changes what is held as it changes the thread's own hand. */
  lemma NextHand(s: B.Space, a: Activity)
    requires !a.Free? && TargetsOk(s.queues.Keys, a) && B.Enabled(s, NextOp(a)) && a.image in s.hand
    requires forall q :: q in s.closed ==> q.Source?
    ensures B.Apply(s, NextOp(a)).hand + HandOf(a) == s.hand + HandOf(NextAct(s, a))
    ensures TargetsOk(s.queues.Keys, NextAct(s, a))
  {
    if a.Sharing? && a.children != [] {
      assert a.children[0] in a.children;
      NextShare(s, a.image, a.children, a.more);
    } else {
      NextDone(s, a);
    }
  }

  lemma ReleaseHand(s: B.Space, m: int)
    requires B.Enabled(s, B.Release(m))
    ensures B.Apply(s, B.Release(m)).hand == s.hand - multiset{m}
  {
  }

  lemma PushHand(s: B.Space, m: int, q: B.Slot)
    requires B.Enabled(s, B.Push(m, q))
    ensures B.Apply(s, B.Push(m, q)).hand == if q in s.closed then s.hand else s.hand - multiset{m}
  {
  }

  lemma NextDone(s: B.Space, a: Activity)
    requires !a.Free? && B.Enabled(s, NextOp(a)) && a.image in s.hand
    requires a.Sharing? ==> a.children == [] && !a.more
    ensures B.Apply(s, NextOp(a)).hand + HandOf(a) == s.hand + HandOf(NextAct(s, a))
    ensures TargetsOk(s.queues.Keys, NextAct(s, a))
  {
    PutDown(s.hand, a.image);
    if a.Placing? {
      PushHand(s, a.image, a.to);
    } else {
      ReleaseHand(s, a.image);
    }
    hide B.Apply;
    hide B.Enabled;
  }

  lemma NextShare(s: B.Space, m: int, children: seq<B.Slot>, more: bool)
    requires children != [] && m in s.hand && B.Enabled(s, NextOp(Sharing(m, children, more))) && children[0] !in s.closed
    requires TargetsOk(s.queues.Keys, Sharing(m, children, more))
    ensures var a := Sharing(m, children, more);
            B.Apply(s, NextOp(a)).hand + HandOf(a) == s.hand + HandOf(NextAct(s, a)) && TargetsOk(s.queues.Keys, NextAct(s, a))
  {
    PutDown(s.hand, m);
    assert forall c :: c in children[1..] ==> c in children;
  }

  lemma StartHand(s: B.Space, op: B.Op, m: int)
    requires B.Enabled(s, op)
    requires match op
             case Arrive(i) => i == m
             case AcquireSink(i, _) => i == m
             case AcquireInternal => s.pool[0] == m
             case Pop(q) => s.queues[q][0] == m
             case _ => false
    ensures B.Apply(s, op).hand == s.hand + multiset{m}
  {
  }

  /** So what is held stays what the threads are in the middle of. */
  lemma HeldByActs(s: State, th: Thread, op: B.Op, a: Activity)
    requires s.space.hand == AllHands(s.acts) && B.Enabled(s.space, op)
    requires B.Apply(s.space, op).hand + HandOf(Act(s, th)) == s.space.hand + HandOf(a)
    ensures Doing(s, th, op, a).space.hand == AllHands(Doing(s, th, op, a).acts)
  {
    HandUpdate(s, th, a);
    hide B.Apply;
    hide B.Enabled;
    hide AllHands;
    hide HandOf;
    B.Cancel(B.Apply(s.space, op).hand, AllHands(s.acts[th := a]), HandOf(Act(s, th)));
  }

  /** The other threads are where they were. */
  lemma OthersKept(s: State, s': State, th: Thread, a: Activity)
    requires ActsOk(s) && s'.run == s.run && s'.cleaner == s.cleaner && s.space.queues.Keys <= s'.space.queues.Keys
    requires s'.acts == s.acts[th := a] && s'.space.hand == AllHands(s'.acts) && ActOk(s', th, a)
    ensures ActsOk(s')
  {
    hide AllHands;
    hide R.InFlight;
    forall other | other in s'.acts ensures ActOk(s', other, s'.acts[other]) {
      if other != th {
        assert ActOk(s, other, s.acts[other]);
        MoreQueues(s, s', other, s.acts[other]);
      }
    }
  }

  lemma MoreQueues(s: State, s': State, th: Thread, a: Activity)
    requires ActOk(s, th, a) && s'.run == s.run && s'.cleaner == s.cleaner
    requires s.space.queues.Keys <= s'.space.queues.Keys
    ensures ActOk(s', th, a)
  {
    hide R.InFlight;
  }

  lemma FreeOk(s: State, th: Thread)
    requires ActsOk(s)
    ensures ActOk(s, th, Act(s, th))
  {
    hide AllHands;
  }

  /** A thread that was between images starts on one. */
  lemma StartKeeps(s: State, th: Thread, op: B.Op, m: int, a: Activity)
    requires ActsOk(s) && Act(s, th).Free? && B.Enabled(s.space, op) && HandOf(a) == multiset{m}
    requires match op
             case Arrive(i) => i == m
             case AcquireSink(i, _) => i == m
             case AcquireInternal => s.space.pool[0] == m
             case Pop(q) => s.space.queues[q][0] == m
             case _ => false
    requires ActOk(s, th, a)
    ensures ActsOk(Doing(s, th, op, a))
  {
    StartHand(s.space, op, m);
    SameQueues(s.space, op);
    assert HandOf(Act(s, th)) == multiset{};
    hide *;
    DoingKeeps(s, th, op, a);
  }

  /** A busy thread goes on. */
  lemma ContinueKeeps(p: Pipeline, s: State, th: Thread)
    requires ActsOk(s) && B.Conserved(s.space) && Enabled(p, s, Continue(th))
    ensures ActsOk(Apply(p, s, Continue(th)))
  {
    var a := Act(s, th);
    var op, a' := NextOp(a), NextAct(s.space, a);
    ContinueStep(p, s, th);
    hide Enabled;
    hide Apply;
    hide B.Enabled;
    hide B.Apply;
    assert s.space.hand == AllHands(s.acts) && a.image in HandOf(a) && forall q :: q in s.space.closed ==> q.Source?;
    FreeOk(s, th);
    assert TargetsOk(s.space.queues.Keys, a);
    hide *;
    HandUpdate(s, th, a);
    assert HandOf(a)[a.image] > 0;
    NextHand(s.space, a);
    SameQueues(s.space, op);
    NextOk(s, th);
    DoingKeeps(s, th, op, a');
  }

  lemma ContinueStep(p: Pipeline, s: State, th: Thread)
    requires Enabled(p, s, Continue(th))
    ensures var a := Act(s, th);
            B.Enabled(s.space, NextOp(a)) && Apply(p, s, Continue(th)) == Doing(s, th, NextOp(a), NextAct(s.space, a))
  {
    hide B.Enabled;
    hide B.Apply;
    hide NextOp;
    hide NextAct;
    hide Doing;
  }

  /** A thread that has performed an operation, and holds what that left it with. */
  lemma DoingKeeps(s: State, th: Thread, op: B.Op, a: Activity)
    requires ActsOk(s) && B.Enabled(s.space, op) && ActOk(s, th, a)
    requires B.Apply(s.space, op).hand + HandOf(Act(s, th)) == s.space.hand + HandOf(a)
    requires s.space.queues.Keys <= B.Apply(s.space, op).queues.Keys
    ensures ActsOk(Doing(s, th, op, a))
  {
    assert s.space.hand == AllHands(s.acts) by {
      hide AllHands;
    }
    DoingFields(s, th, op, a);
    hide *;
    HeldByActs(s, th, op, a);
    MoreQueues(s, Doing(s, th, op, a), th, a);
    OthersKept(s, Doing(s, th, op, a), th, a);
  }

  lemma DoingFields(s: State, th: Thread, op: B.Op, a: Activity)
    requires B.Enabled(s.space, op)
    ensures var s' := Doing(s, th, op, a);
            && s'.run == s.run && s'.cleaner == s.cleaner && s'.space == B.Apply(s.space, op)
            && s'.acts == s.acts[th := a]
  {
    hide B.Enabled;
    hide B.Apply;
  }

  lemma NextOk(s: State, th: Thread)
    requires ActOk(s, th, Act(s, th)) && !Act(s, th).Free? && B.Conserved(s.space)
    requires TargetsOk(s.space.queues.Keys, NextAct(s.space, Act(s, th)))
    ensures ActOk(s, th, NextAct(s.space, Act(s, th)))
  {
    hide B.Conserved;
    hide R.InFlight;
  }

  // ----- Steps keep the invariant -----

  lemma StaysInFlight(t: Topology, s: R.State, b: R.Step, n: string)
    requires R.Enabled(t, s, b) && n in R.InFlight(s) && (F.OfWorker(b) ==> b.node != n)
    ensures n in R.InFlight(R.Apply(t, s, b))
  {
    F.StepWorkers(t, s, b);
    hide R.Enabled;
    hide R.Apply;
  }

  lemma ScheduleActs(p: Pipeline, s: State, b: R.Step)
    requires ActsOk(s) && Enabled(p, s, Schedule(b))
    ensures ActsOk(Apply(p, s, Schedule(b)))
  {
    hide AllHands;
    var s' := Apply(p, s, Schedule(b));
    forall th | th in s'.acts ensures ActOk(s', th, s'.acts[th]) {
      assert ActOk(s, th, s.acts[th]);
      if th.Worker? && !s.acts[th].Free? {
        assert Act(s, th) == s.acts[th];
        StaysInFlight(p.t, s.run, b, th.node);
      }
    }
  }

  /** Where a worker may put images, the queues exist and take them. */
  lemma TakeOk(p: Pipeline, s: State, n: string, from: B.Slot, use: Use, m: int)
    requires HasQueues(p, s.space.queues.Keys) && MayTake(p.t, n, from, use) && n in R.InFlight(s.run)
    ensures ActOk(s, Worker(n), Using(m, use)) && HandOf(Using(m, use)) == multiset{m}
  {
    hide R.InFlight;
    hide R.Passes;
    match use
    case ToPlace(_) =>
    case ToRelease =>
    case ToShare(children) =>
      forall c | c in children ensures c in s.space.queues && !c.Source? {
        var j :| 0 <= j < |children| && children[j] == c;
        assert 0 <= Outputs(p.t, n)[j] < |p.t.links|;
      }
  }

  lemma WorkerActs(p: Pipeline, s: State, a: Step)
    requires ActsOk(s) && HasQueues(p, s.space.queues.Keys) && Enabled(p, s, a)
    requires a.Obtain? || a.ObtainSink? || a.Take?
    ensures ActsOk(Apply(p, s, a))
  {
    hide AllHands;
    hide ActsOk;
    hide B.Apply;
    match a
    case Obtain(n, slot) =>
      StartKeeps(s, Worker(n), B.AcquireInternal, s.space.pool[0], Placing(s.space.pool[0], slot));
    case ObtainSink(n, m, sink, slot) =>
      StartKeeps(s, Worker(n), B.AcquireSink(m, sink), m, Placing(m, slot));
    case Take(n, from, use) => TakeActs(p, s, n, from, use);
  }

  lemma TakeActs(p: Pipeline, s: State, n: string, from: B.Slot, use: Use)
    requires ActsOk(s) && HasQueues(p, s.space.queues.Keys) && Enabled(p, s, Take(n, from, use))
    ensures ActsOk(Apply(p, s, Take(n, from, use)))
  {
    hide AllHands;
    hide ActsOk;
    hide B.Apply;
    if s.space.queues[from] != [] {
      var m := s.space.queues[from][0];
      TakeOk(p, s, n, from, use, m);
      hide MayTake;
      hide HasQueues;
      StartKeeps(s, Worker(n), B.Pop(from), m, Using(m, use));
    }
  }

  /** Steps that leave all threads where they are. */
  lemma ActsFrame(s: State, s': State)
    requires ActsOk(s) && s'.run == s.run && s'.acts == s.acts && s'.space.hand == s.space.hand
    requires s.space.queues.Keys <= s'.space.queues.Keys
    requires Act(s, Dispatcher).Free? || s'.cleaner == s.cleaner
    ensures ActsOk(s')
  {
    hide AllHands;
    hide R.InFlight;
    forall th | th in s'.acts ensures ActOk(s', th, s'.acts[th]) {
      assert ActOk(s, th, s.acts[th]);
      assert Act(s, th) == s.acts[th];
    }
  }

  predicate OfCleaner(a: Step) {
    a.StartCleanup? || a.CloseSource? || a.EndSources? || a.OpenNode? || a.PopQueue?
  }

  lemma CleanerActs(p: Pipeline, s: State, a: Step)
    requires ActsOk(s) && Enabled(p, s, a) && (a.Grow? || a.CloseEarly? || OfCleaner(a))
    ensures ActsOk(Apply(p, s, a))
  {
    var s' := Apply(p, s, a);
    FreeOk(s, Dispatcher);
    if a.PopQueue? && s.space.queues[s.cleaner.slot] != [] {
      var q := s.cleaner.slot;
      var m := s.space.queues[q][0];
      StartKeeps(s, Dispatcher, B.Pop(q), m, Letting(m));
    } else {
      ActsFrame(s, s');
    }
  }

  lemma ActsKept(p: Pipeline, s: State, a: Step)
    requires ActsOk(s) && B.Conserved(s.space) && HasQueues(p, s.space.queues.Keys) && Enabled(p, s, a)
    ensures ActsOk(Apply(p, s, a))
  {
    match a
    case Schedule(b) => ScheduleActs(p, s, b);
    case Submit(i, m, port) =>
      hide AllHands;
      StartKeeps(s, Application(i), B.Arrive(m), m, Placing(m, B.Source(port)));
    case Obtain(_, _) => WorkerActs(p, s, a);
    case ObtainSink(_, _, _, _) => WorkerActs(p, s, a);
    case Take(_, _, _) => WorkerActs(p, s, a);
    case Continue(th) => ContinueKeeps(p, s, th);
    case _ => CleanerActs(p, s, a);
  }

  /** The operation on images that a step performs, if it performs one. */
  function OpOf(p: Pipeline, s: State, a: Step): B.Option<B.Op>
    requires Enabled(p, s, a)
  {
    match a
    case Submit(_, m, _) => B.Some(B.Arrive(m))
    case Grow(_, m) => B.Some(B.Grow(m))
    case Obtain(_, _) => B.Some(B.AcquireInternal)
    case ObtainSink(_, m, sink, _) => B.Some(B.AcquireSink(m, sink))
    case Take(_, from, _) => if s.space.queues[from] == [] then B.None else B.Some(B.Pop(from))
    case Continue(th) => B.Some(NextOp(Act(s, th)))
    case CloseEarly(port) => B.Some(B.Close(B.Source(port)))
    case CloseSource(port) => B.Some(B.Close(B.Source(port)))
    case PopQueue => if s.space.queues[s.cleaner.slot] == [] then B.None else B.Some(B.Pop(s.cleaner.slot))
    case _ => B.None
  }

  lemma StepOp(p: Pipeline, s: State, a: Step)
    requires Enabled(p, s, a)
    ensures match OpOf(p, s, a)
            case Some(op) => B.Enabled(s.space, op) && Apply(p, s, a).space == B.Apply(s.space, op)
            case None => Apply(p, s, a).space == s.space
  {
    hide B.Apply;
    hide R.Enabled;
    hide R.Apply;
    hide MayTake;
    hide IsNext;
  }

  lemma SpaceKept(p: Pipeline, s: State, a: Step)
    requires B.Conserved(s.space) && Enabled(p, s, a) && s.space.closed <= s.space.queues.Keys
    ensures var space' := Apply(p, s, a).space;
            && B.Conserved(space') && s.space.queues.Keys <= space'.queues.Keys && s.space.closed <= space'.closed
            && space'.closed <= space'.queues.Keys && forall q :: q in space'.queues && q !in s.space.queues ==> q.Source?
  {
    StepOp(p, s, a);
    match OpOf(p, s, a)
    case Some(op) =>
      assert op.Close? ==> op.slot in s.space.queues;
      hide Enabled;
      hide Apply;
      hide OpOf;
      hide B.Apply;
      hide B.Enabled;
      hide B.Conserved;
      Operated(s.space, op);
      ClosedOnly(s.space, op);
    case None =>
  }

  lemma ClosedOnly(s: B.Space, op: B.Op)
    requires B.Enabled(s, op)
    ensures B.Apply(s, op).closed == if op.Close? then s.closed + {op.slot} else s.closed
  {
  }

  lemma Operated(s: B.Space, op: B.Op)
    requires B.Conserved(s) && B.Enabled(s, op)
    ensures B.Conserved(B.Apply(s, op)) && s.queues.Keys <= B.Apply(s, op).queues.Keys
    ensures forall q :: q in B.Apply(s, op).queues && q !in s.queues ==> q.Source?
  {
    SameQueues(s, op);
    hide B.Apply;
    hide B.Enabled;
    hide B.Conserved;
    B.ApplyConserves(s, op);
  }

  // ----- The dispatcher's clean-up -----

  lemma NoneInFlight(t: Topology, s: R.State)
    requires R.Inv(t, s) && s.dispatcher.Finished?
    ensures R.InFlight(s) == {}
  {
  }

  /** A finished scheduler with nothing in flight makes no step of its own. */
  lemma NoStepLeft(t: Topology, s: R.State, b: R.Step)
    requires R.Enabled(t, s, b) && s.dispatcher.Finished? && R.InFlight(s) == {}
    ensures b.Expedite?
  {
    if F.OfWorker(b) {
      E.WorkersInFlight(t, s, b);
    }
  }

  /** With nothing in flight only the application and the dispatcher still act, and they fill no queue that has
      been dealt with, nor empty one but that which is popped from. */
  lemma DealtStays(s: B.Space, op: B.Op, q: B.Slot)
    requires B.Enabled(s, op) && (op.Arrive? || op.Release? || op.Close? || op.Pop? || (op.Push? && op.slot.Source?))
    ensures Dealt(s, q) ==> Dealt(B.Apply(s, op), q)
    ensures q in s.queues && s.queues[q] != [] && op != B.Pop(q) ==> B.Apply(s, op).queues[q] != []
    ensures q in B.Apply(s, op).queues && q !in s.queues ==> op.Push? && op.slot == q && B.Apply(s, op).queues[q] != []
    ensures q in B.Apply(s, op).queues <==> q in s.queues || (op.Push? && op.slot == q && q !in s.closed)
  {
  }

  ghost predicate Quiet(s: State) {
    R.InFlight(s.run) == {} && ActsOk(s) && s.run.dispatcher.Finished?
  }

  lemma QuietStep(p: Pipeline, s: State, a: Step)
    requires Quiet(s) && Enabled(p, s, a)
    ensures !a.Grow? && !a.Obtain? && !a.ObtainSink? && !a.Take? && (a.Schedule? ==> a.step.Expedite?)
    ensures a.Continue? ==> a.thread.Application? || a.thread.Dispatcher?
    ensures a.Continue? ==> var op := NextOp(Act(s, a.thread)); op.Release? || (op.Push? && op.slot.Source?)
  {
    hide R.InFlight;
    hide AllHands;
    if a.Schedule? {
      NoStepLeft(p.t, s.run, a.step);
    }
    if a.Continue? {
      FreeOk(s, a.thread);
    }
  }

  lemma QuietOp(p: Pipeline, s: State, a: Step)
    requires Quiet(s) && Enabled(p, s, a)
    ensures match OpOf(p, s, a)
            case Some(op) => op.Arrive? || op.Release? || op.Close? || op.Pop? || (op.Push? && op.slot.Source?)
            case None => true
    ensures match OpOf(p, s, a)
            case Some(op) => (op.Pop? ==> s.cleaner.Popping? && op.slot == s.cleaner.slot)
                             && (op.Push? ==> a.Continue?) && (op.Close? ==> a.CloseEarly? || a.CloseSource?)
            case None => true
  {
    QuietStep(p, s, a);
    hide Quiet;
    hide R.Enabled;
    hide MayTake;
    hide IsNext;
    hide B.Enabled;
  }

  /** What the steps of a quiet pipeline leave of a queue. */
  lemma QueueKept(p: Pipeline, s: State, a: Step, q: B.Slot)
    requires Quiet(s) && Enabled(p, s, a)
    ensures var space' := Apply(p, s, a).space;
            && (Dealt(s.space, q) ==> Dealt(space', q))
            && (q in s.space.queues && s.space.queues[q] != [] && !(s.cleaner.Popping? && q == s.cleaner.slot) ==>
                  q in space'.queues && space'.queues[q] != [])
            && (q in space'.queues && q !in s.space.queues ==> space'.queues[q] != [])
            && (q in s.space.queues ==> q in space'.queues)
            && (q in space'.queues && q !in s.space.queues <==> MakesQueue(s, a, q))
  {
    StepOp(p, s, a);
    QuietOp(p, s, a);
    MakesByOp(p, s, a, q);
    match OpOf(p, s, a)
    case Some(op) =>
      hide *;
      DealtStays(s.space, op, q);
    case None =>
  }

  /** A frame that is put where there is no queue makes one. */
  predicate MakesQueue(s: State, a: Step, q: B.Slot) {
    && a.Continue? && !Act(s, a.thread).Free? && NextOp(Act(s, a.thread)).Push?
    && NextOp(Act(s, a.thread)).slot == q && q !in s.space.queues && q !in s.space.closed
  }

  lemma MakesByOp(p: Pipeline, s: State, a: Step, q: B.Slot)
    requires Quiet(s) && Enabled(p, s, a)
    ensures MakesQueue(s, a, q) <==> match OpOf(p, s, a)
                                     case Some(op) => op.Push? && op.slot == q && q !in s.space.queues && q !in s.space.closed
                                     case None => false
  {
    QuietOp(p, s, a);
    hide Quiet;
    hide R.Enabled;
    hide MayTake;
    hide IsNext;
    hide B.Enabled;
  }

  /** The clean-up comes past a queue by looking into it. */
  lemma BehindStep(p: Pipeline, s: State, a: Step, q: B.Slot)
    requires CleanerOk(p, s) && Enabled(p, s, a) && !s.cleaner.NotYet? && q in s.space.queues
    requires HasQueues(p, s.space.queues.Keys)
    ensures var s' := Apply(p, s, a);
            Behind(p, s'.cleaner, q) && q !in s'.visited <==> Behind(p, s.cleaner, q) && q !in s.visited
  {
    if OfCleaner(a) && !a.StartCleanup? {
      CleanerMove(p, s, a);
    }
    CleanerFrame(p, s, a);
    var c, c' := s.cleaner, Apply(p, s, a).cleaner;
    hide Enabled;
    hide Apply;
    hide Dealt;
    if c.Popping? {
      assert Behind(p, c, q) <==> q != c.slot && Behind(p, c.next, q);
    } else if c'.Popping? {
      assert Behind(p, c', q) <==> q != c'.slot && Behind(p, c'.next, q);
      if c.Nodes? {
        assert p.nodes[..c.i + 1] == p.nodes[..c.i] + [p.nodes[c.i]];
        assert p.nodes[c.i] !in p.nodes[..c.i];
      } else {
        if q.Source? {
          NoneBetween(s.space, c.last, a.port, q);
        }
        assert Behind(p, c'.next, q) <==> q.Source? && !Beyond(B.Some(a.port), q.port);
      }
    }
  }

  lemma NoneBetween(space: B.Space, last: B.Option<int>, port: int, q: B.Slot)
    requires IsNext(space, last, port) && q in space.queues && q.Source?
    ensures !Beyond(last, q.port) <==> q != B.Source(port) && !Beyond(B.Some(port), q.port)
  {
  }

  /** How the clean-up moves on. */
  lemma CleanerMove(p: Pipeline, s: State, a: Step)
    requires Enabled(p, s, a) && OfCleaner(a) && !a.StartCleanup?
    ensures var s' := Apply(p, s, a); var c, c' := s.cleaner, s'.cleaner;
            && (a.PopQueue? && c' != c ==>
                  c.Popping? && s.space.queues[c.slot] == [] && c' == c.next && s'.visited == s.visited + {c.slot})
            && (!a.PopQueue? || c' == c ==> s'.visited == s.visited)
            && (a.CloseSource? ==> c.Sources? && IsNext(s.space, c.last, a.port)
                                   && c' == Popping(B.Source(a.port), Sources(B.Some(a.port))))
            && (a.EndSources? ==> c.Sources? && c' == Nodes(0)
                                  && forall q :: q in s.space.queues && q.Source? ==> !Beyond(c.last, q.port))
            && (a.OpenNode? ==> c.Nodes? && c.i < |p.nodes| && c' == Popping(p.nodes[c.i], Nodes(c.i + 1)))
  {
    hide B.Enabled;
    hide B.Apply;
    hide IsNext;
  }

  lemma CleanerFrame(p: Pipeline, s: State, a: Step)
    requires Enabled(p, s, a)
    ensures !OfCleaner(a) ==> Apply(p, s, a).cleaner == s.cleaner && Apply(p, s, a).visited == s.visited
    ensures a.StartCleanup? ==> Apply(p, s, a) == s.(cleaner := Sources(B.None)) && s.run.dispatcher.Finished?
    ensures s.run.dispatcher.Finished? && (a.Schedule? ==> a.step.Expedite?) ==> Apply(p, s, a).run.dispatcher.Finished?
    ensures OfCleaner(a) && !a.StartCleanup? ==> !s.cleaner.NotYet?
  {
    hide MayTake;
    hide B.Enabled;
    hide B.Apply;
  }

  lemma StartOk(p: Pipeline, s: State, s': State)
    requires s.cleaner.NotYet? && s.visited == {}
    requires s'.visited == {} && (s'.cleaner.NotYet? || (s'.cleaner == Sources(B.None) && s'.run.dispatcher.Finished?))
    ensures CleanerOk(p, s') && PassedOk(p, s') && !Late(p, s) && !Late(p, s')
  {
  }

  /** Some queue is stranded. */
  ghost predicate Late(p: Pipeline, s: State) {
    exists q :: Stranded(p, s, q)
  }

  lemma Strandings(p: Pipeline, s: State, a: Step, q: B.Slot)
    requires Quiet(s) && CleanerOk(p, s) && Enabled(p, s, a) && !s.cleaner.NotYet?
    requires HasQueues(p, s.space.queues.Keys)
    ensures Stranded(p, Apply(p, s, a), q)
            <==> Stranded(p, s, q) || (MakesQueue(s, a, q) && q.Source? && Behind(p, s.cleaner, q))
  {
    QueueKept(p, s, a, q);
    CleanerFrame(p, s, a);
    assert q in s.visited ==> q in s.space.queues;
    hide Quiet;
    hide CleanerOk;
    hide Enabled;
    hide Apply;
    hide Dealt;
    if q in s.space.queues {
      BehindStep(p, s, a, q);
    }
  }

  lemma PassedKept(p: Pipeline, s: State, a: Step)
    requires Quiet(s) && CleanerOk(p, s) && PassedOk(p, s) && HasQueues(p, s.space.queues.Keys) && Enabled(p, s, a)
    requires !s.cleaner.NotYet?
    ensures PassedOk(p, Apply(p, s, a))
  {
    var s' := Apply(p, s, a);
    forall q | q in p.nodes && Behind(p, s'.cleaner, q) ensures q in s'.visited {
      BehindStep(p, s, a, q);
    }
    forall port | port in p.ports && Behind(p, s'.cleaner, B.Source(port)) ensures B.Source(port) in s'.visited {
      BehindStep(p, s, a, B.Source(port));
    }
    forall q | Stranded(p, s', q) ensures s'.space.queues[q] != [] {
      StrandedHolds(p, s, a, q);
    }
  }

  lemma StrandedHolds(p: Pipeline, s: State, a: Step, q: B.Slot)
    requires Quiet(s) && CleanerOk(p, s) && PassedOk(p, s) && HasQueues(p, s.space.queues.Keys) && Enabled(p, s, a)
    requires !s.cleaner.NotYet? && Stranded(p, Apply(p, s, a), q)
    ensures Apply(p, s, a).space.queues[q] != []
  {
    Strandings(p, s, a, q);
    QueueKept(p, s, a, q);
    hide Apply;
    hide Enabled;
    hide Quiet;
    hide CleanerOk;
  }

  lemma CleanerMoves(p: Pipeline, s: State, a: Step)
    requires Quiet(s) && CleanerOk(p, s) && Enabled(p, s, a) && !s.cleaner.NotYet? && HasQueues(p, s.space.queues.Keys)
    ensures CleanerOk(p, Apply(p, s, a))
  {
    var s' := Apply(p, s, a);
    QuietStep(p, s, a);
    CleanerFrame(p, s, a);
    forall q | q in s'.visited ensures Dealt(s'.space, q) {
      QueueKept(p, s, a, q);
    }
    SlotKept(p, s, a);
  }

  lemma SlotKept(p: Pipeline, s: State, a: Step)
    requires Quiet(s) && CleanerOk(p, s) && Enabled(p, s, a) && !s.cleaner.NotYet? && HasQueues(p, s.space.queues.Keys)
    ensures var s' := Apply(p, s, a);
            && (s'.cleaner.Nodes? ==> s'.cleaner.i <= |p.nodes|) && !s'.cleaner.NotYet?
            && (s'.cleaner.Popping? ==> PoppingOk(p, s'))
  {
    StepSlots(p, s, a);
    CleanerFrame(p, s, a);
    var s' := Apply(p, s, a);
    if OfCleaner(a) && !a.StartCleanup? {
      CleanerMove(p, s, a);
      hide Enabled;
      hide Apply;
      hide Quiet;
      hide Dealt;
      hide IsNext;
      if s'.cleaner != s.cleaner {
        if a.OpenNode? {
          assert p.nodes[s.cleaner.i] in p.nodes;
        }
      } else {
        SamePopping(p, s, s');
      }
    } else {
      assert !a.StartCleanup?;
      hide *;
      SamePopping(p, s, s');
    }
  }

  lemma SamePopping(p: Pipeline, s: State, s': State)
    requires CleanerOk(p, s) && s'.cleaner == s.cleaner && !s.cleaner.NotYet?
    requires s.space.queues.Keys <= s'.space.queues.Keys && s.space.closed <= s'.space.closed
    ensures (s'.cleaner.Nodes? ==> s'.cleaner.i <= |p.nodes|) && !s'.cleaner.NotYet?
    ensures s'.cleaner.Popping? ==> PoppingOk(p, s')
  {
    hide Dealt;
  }

  /** Queues stay, and stay released; the clean-up releases the one it comes to. */
  lemma StepSlots(p: Pipeline, s: State, a: Step)
    requires Enabled(p, s, a)
    ensures var space' := Apply(p, s, a).space;
            && s.space.queues.Keys <= space'.queues.Keys && s.space.closed <= space'.closed
            && (a.CloseSource? ==> B.Source(a.port) in space'.closed && B.Source(a.port) in s.space.queues)
  {
    StepOp(p, s, a);
    match OpOf(p, s, a)
    case Some(op) =>
      hide Apply;
      SameQueues(s.space, op);
      ClosedOnly(s.space, op);
    case None =>
  }

  lemma CleanerKept(p: Pipeline, s: State, a: Step)
    requires Inv(p, s) && Enabled(p, s, a)
    ensures CleanerOk(p, Apply(p, s, a)) && PassedOk(p, Apply(p, s, a))
  {
    CleanerFrame(p, s, a);
    if s.cleaner.NotYet? {
      hide Enabled;
      hide Apply;
      StartOk(p, s, Apply(p, s, a));
    } else {
      NoneInFlight(p.t, s.run);
      assert Quiet(s);
      hide *;
      InvParts(p, s);
      CleanerMoves(p, s, a);
      PassedKept(p, s, a);
    }
  }

  lemma InvParts(p: Pipeline, s: State)
    requires Inv(p, s)
    ensures CleanerOk(p, s) && PassedOk(p, s) && HasQueues(p, s.space.queues.Keys)
  {
    hide CleanerOk;
    hide PassedOk;
    hide HasQueues;
    hide R.Inv;
    hide ActsOk;
    hide B.Conserved;
  }

  lemma StepInv(p: Pipeline, s: State, a: Step, s': State)
    requires p.t.Accepted() && Inv(p, s) && Stepped(p, s, a, s')
    ensures Inv(p, s')
  {
    CleanerKept(p, s, a);
    RunKept(p, s, a);
    hide R.Inv;
    hide B.Conserved;
    hide CleanerOk;
    hide PassedOk;
    hide ActsOk;
    hide Enabled;
    hide Apply;
    ActsKept(p, s, a);
    SpaceKept(p, s, a);
    QueuesKept(p, s.space.queues.Keys, s'.space.queues.Keys);
    hide HasQueues;
  }

  lemma QueuesKept(p: Pipeline, queues: set<B.Slot>, queues': set<B.Slot>)
    requires HasQueues(p, queues) && queues <= queues' && forall q :: q in queues' && q !in queues ==> q.Source?
    ensures HasQueues(p, queues')
  {
  }

  lemma RunKept(p: Pipeline, s: State, a: Step)
    requires p.t.Accepted() && R.Inv(p.t, s.run) && Enabled(p, s, a)
    ensures R.Inv(p.t, Apply(p, s, a).run)
  {
    hide R.Inv;
    hide R.Enabled;
    hide R.Apply;
    hide Topology.Accepted;
    hide MayTake;
    hide IsNext;
    hide B.Enabled;
    hide B.Apply;
    if a.Schedule? {
      R.StepInv(p.t, s.run, a.step, R.Apply(p.t, s.run, a.step));
    }
  }

  lemma InitialOk(p: Pipeline, s: State)
    requires p.t.Accepted() && R.Initial(p.t, s.run) && B.Conserved(s.space) && s.space.hand == multiset{}
    requires s.acts == map[] && s.cleaner == NotYet && s.visited == {} && HasQueues(p, s.space.queues.Keys)
    requires s.space.closed == {}
    ensures Inv(p, s)
  {
    R.InitialInv(p.t, s.run);
    NothingInHand(s.acts);
    StartOk(p, s, s);
  }

  lemma {:induction false} RunInv(p: Pipeline, states: seq<State>, steps: seq<Step>, k: nat)
    requires Run(p, states, steps) && k < |states|
    ensures Inv(p, states[k])
  {
    hide Inv;
    hide Stepped;
    hide R.Initial;
    hide HasQueues;
    hide B.Conserved;
    hide Topology.Accepted;
    if k == 0 {
      InitialOk(p, states[0]);
    } else {
      RunInv(p, states, steps, k - 1);
      StepInv(p, states[k - 1], steps[k - 1], states[k]);
    }
  }

  // ----- The end of a pipeline -----

  /** The last queue has been dealt with. */
  predicate CleanedUp(p: Pipeline, s: State) {
    s.cleaner == Nodes(|p.nodes|)
  }

  ghost predicate NobodySubmitting(s: State) {
    forall i :: Act(s, Application(i)).Free?
  }

  ghost predicate AllHome(s: B.Space) {
    forall m :: m in s.kind ==> B.Home(s, m)
  }

  /** A frame gets a queue of its own when the clean-up has already come past its port: one that the pipeline never
      had, since all others are closed by then. */
  predicate Strands(p: Pipeline, s: State, a: Step) {
    && a.Continue? && !Act(s, a.thread).Free? && NextOp(Act(s, a.thread)).Push?
    && var q := NextOp(Act(s, a.thread)).slot;
       q.Source? && MakesQueue(s, a, q) && Behind(p, s.cleaner, q)
  }

  lemma LateStep(p: Pipeline, s: State, a: Step)
    requires Inv(p, s) && Enabled(p, s, a)
    ensures Late(p, Apply(p, s, a)) <==> Late(p, s) || Strands(p, s, a)
  {
    var s' := Apply(p, s, a);
    if s.cleaner.NotYet? {
      CleanerFrame(p, s, a);
      InvParts(p, s);
      StartOk(p, s, s');
    } else {
      NoneInFlight(p.t, s.run);
      assert Quiet(s);
      hide *;
      InvParts(p, s);
      LateMade(p, s, a);
    }
  }

  lemma LateMade(p: Pipeline, s: State, a: Step)
    requires Quiet(s) && CleanerOk(p, s) && HasQueues(p, s.space.queues.Keys) && Enabled(p, s, a) && !s.cleaner.NotYet?
    ensures Late(p, Apply(p, s, a)) <==> Late(p, s) || Strands(p, s, a)
  {
    var s' := Apply(p, s, a);
    forall q
      ensures Stranded(p, s', q) <==> Stranded(p, s, q) || (MakesQueue(s, a, q) && q.Source? && Behind(p, s.cleaner, q))
    {
      Strandings(p, s, a, q);
    }
    hide Quiet;
    hide CleanerOk;
    hide HasQueues;
    hide Enabled;
    hide Apply;
    hide Stranded;
    hide Behind;
    if Strands(p, s, a) {
      assert Stranded(p, s', NextOp(Act(s, a.thread)).slot);
    }
  }

  lemma {:induction false} LateRun(p: Pipeline, states: seq<State>, steps: seq<Step>, k: nat)
    requires Run(p, states, steps) && k < |states|
    ensures Late(p, states[k]) <==> exists j :: 0 <= j < k && Strands(p, states[j], steps[j])
  {
    hide Late;
    hide Strands;
    hide Inv;
    hide Enabled;
    hide Apply;
    if k == 0 {
      NotLateYet(p, states[0]);
    } else {
      LateRun(p, states, steps, k - 1);
      RunInv(p, states, steps, k - 1);
      assert Stepped(p, states[k - 1], steps[k - 1], states[k]);
      LateStep(p, states[k - 1], steps[k - 1]);
    }
  }

  lemma NotLateYet(p: Pipeline, s: State)
    requires s.cleaner.NotYet?
    ensures !Late(p, s)
  {
  }

  /** When the dispatcher has cleaned up, in whatever interleaving, no worker holds an image, nor does any queue the
      pipeline has had. When besides no frame is just being submitted, every frame of the application has been given
      back exactly once and every internal image is in the pool exactly once, if and only if no frame has been put
      into a new queue that the clean-up had come past. */
  lemma AllHomeInTheEnd(p: Pipeline, states: seq<State>, steps: seq<Step>, k: nat)
    requires Run(p, states, steps) && k < |states| && CleanedUp(p, states[k])
    ensures forall n :: Act(states[k], Worker(n)).Free?
    ensures forall q :: q in p.nodes || (q.Source? && q.port in p.ports) ==>
                          q in states[k].space.queues && states[k].space.queues[q] == []
    ensures NobodySubmitting(states[k]) ==>
              (AllHome(states[k].space) <==> forall j :: 0 <= j < k ==> !Strands(p, states[j], steps[j]))
  {
    var s := states[k];
    RunInv(p, states, steps, k);
    LateRun(p, states, steps, k);
    NoneInFlight(p.t, s.run);
    hide Run;
    hide Strands;
    WorkersFree(s);
    QueuesAtEnd(p, s);
    if NobodySubmitting(s) {
      AllFree(s);
      HomeUnlessLate(p, s);
    }
  }

  lemma WorkersFree(s: State)
    requires ActsOk(s) && R.InFlight(s.run) == {}
    ensures forall n :: Act(s, Worker(n)).Free?
  {
    hide AllHands;
    forall n ensures Act(s, Worker(n)).Free? {
      FreeOk(s, Worker(n));
    }
  }

  lemma QueuesAtEnd(p: Pipeline, s: State)
    requires CleanerOk(p, s) && PassedOk(p, s) && HasQueues(p, s.space.queues.Keys) && CleanedUp(p, s)
    ensures forall q :: q in p.nodes || (q.Source? && q.port in p.ports) ==> q in s.space.queues && s.space.queues[q] == []
    ensures !Late(p, s) ==> forall q :: q in s.space.queues ==> s.space.queues[q] == []
  {
    forall q | q in p.nodes || (q.Source? && q.port in p.ports) ensures q in s.space.queues && s.space.queues[q] == [] {
      assert p.nodes[..|p.nodes|] == p.nodes;
      assert Behind(p, s.cleaner, q) && q in s.visited;
    }
    if !Late(p, s) {
      forall q | q in s.space.queues && q !in p.nodes ensures s.space.queues[q] == [] {
        assert Behind(p, s.cleaner, q) && !Stranded(p, s, q);
      }
    }
  }

  lemma HomeUnlessLate(p: Pipeline, s: State)
    requires B.Conserved(s.space) && CleanerOk(p, s) && PassedOk(p, s) && HasQueues(p, s.space.queues.Keys)
    requires CleanedUp(p, s) && s.space.hand == multiset{}
    ensures AllHome(s.space) <==> !Late(p, s)
  {
    if Late(p, s) {
      var q :| Stranded(p, s, q);
      hide CleanerOk;
      hide HasQueues;
      HeldNotHome(s.space, q);
    } else {
      QueuesAtEnd(p, s);
      hide CleanerOk;
      hide HasQueues;
      hide B.Conserved;
      B.DrainedHome(s.space);
    }
  }

  lemma HeldNotHome(s: B.Space, q: B.Slot)
    requires B.Conserved(s) && q in s.queues && s.queues[q] != []
    ensures !AllHome(s)
  {
    var m := s.queues[q][0];
    B.QueuedHeld(s, q);
    assert B.AtHome(s, m);
    assert m in s.kind && !B.Home(s, m);
  }

  lemma AllFree(s: State)
    requires ActsOk(s) && NobodySubmitting(s) && s.cleaner.Nodes? && forall n :: Act(s, Worker(n)).Free?
    ensures s.space.hand == multiset{}
  {
    forall th | th in s.acts ensures s.acts[th].Free? {
      assert Act(s, th) == s.acts[th];
      FreeOk(s, th);
      match th
      case Application(i) => assert Act(s, Application(i)).Free?;
      case Worker(n) => assert Act(s, Worker(n)).Free?;
      case Dispatcher =>
    }
    NothingInHand(s.acts);
  }

  /** Once cleaned up a pipeline stays so: a frame that still arrives finds its queue closed and goes home, unless the
      pipeline never had a queue for its port. */
  lemma {:induction false} LateFramesGoHome(p: Pipeline, states: seq<State>, steps: seq<Step>, j: nat, k: nat)
    requires Run(p, states, steps) && j <= k < |states| && CleanedUp(p, states[j])
    ensures CleanedUp(p, states[k])
    ensures NobodySubmitting(states[k]) ==>
              (AllHome(states[k].space) <==> forall i :: 0 <= i < k ==> !Strands(p, states[i], steps[i]))
    decreases k
  {
    hide Strands;
    hide AllHome;
    hide NobodySubmitting;
    if j < k {
      LateFramesGoHome(p, states, steps, j, k - 1);
      assert Stepped(p, states[k - 1], steps[k - 1], states[k]);
      StaysClean(p, states[k - 1], steps[k - 1]);
    }
    AllHomeInTheEnd(p, states, steps, k);
  }

  lemma StaysClean(p: Pipeline, s: State, a: Step)
    requires CleanedUp(p, s) && Enabled(p, s, a)
    ensures CleanedUp(p, Apply(p, s, a))
  {
    CleanerFrame(p, s, a);
    if OfCleaner(a) && !a.StartCleanup? {
      CleanerMove(p, s, a);
    }
  }

  // ----- Nobody gets stuck -----

  /** A busy thread can always go on, and comes to the end of what it does with its image. */
  lemma CanContinue(p: Pipeline, states: seq<State>, steps: seq<Step>, k: nat, th: Thread)
    requires Run(p, states, steps) && k < |states| && !Act(states[k], th).Free?
    ensures Enabled(p, states[k], Continue(th))
    ensures Remaining(NextAct(states[k].space, Act(states[k], th))) < Remaining(Act(states[k], th))
  {
    var s := states[k];
    RunInv(p, states, steps, k);
    hide Run;
    hide R.Inv;
    hide CleanerOk;
    hide PassedOk;
    hide HasQueues;
    hide B.Conserved;
    assert ActsOk(s) && B.Conserved(s.space);
    hide *;
    FreeOk(s, th);
    BusyHolds(s, th);
    NextEnabled(s, th);
    ContinueEnabled(p, s, th);
  }

  lemma ContinueEnabled(p: Pipeline, s: State, th: Thread)
    requires !Act(s, th).Free? && B.Enabled(s.space, NextOp(Act(s, th)))
    ensures Enabled(p, s, Continue(th))
  {
  }

  lemma BusyHolds(s: State, th: Thread)
    requires ActsOk(s) && B.Conserved(s.space) && !Act(s, th).Free?
    ensures B.Enabled(s.space, B.Release(Act(s, th).image))
  {
    HandUpdate(s, th, Free);
    var m := Act(s, th).image;
    assert HandOf(Act(s, th))[m] > 0;
    B.HandKnown(s.space, m);
  }

  lemma NextEnabled(s: State, th: Thread)
    requires !Act(s, th).Free? && ActOk(s, th, Act(s, th)) && B.Enabled(s.space, B.Release(Act(s, th).image))
    ensures B.Enabled(s.space, NextOp(Act(s, th)))
    ensures Remaining(NextAct(s.space, Act(s, th))) < Remaining(Act(s, th))
  {
    hide R.InFlight;
  }

  function Remaining(a: Activity): nat {
    match a
    case Free => 0
    case Letting(_) => 1
    case Placing(_, _) => 2
    case Sharing(_, children, more) => 2 * |children| + if more then 1 else 2
  }

  /** Nor does the dispatcher stop before it has cleaned up. */
  lemma CleanupGoesOn(p: Pipeline, states: seq<State>, steps: seq<Step>, k: nat) returns (a: Step)
    requires Run(p, states, steps) && k < |states| && states[k].run.dispatcher.Finished? && !CleanedUp(p, states[k])
    ensures Enabled(p, states[k], a) && (OfCleaner(a) || a == Continue(Dispatcher))
  {
    var s := states[k];
    RunInv(p, states, steps, k);
    match s.cleaner
    case NotYet => a := StartCleanup;
    case Sources(last) => a := NextSource(p, s, last);
    case Nodes(_) => a := OpenNode;
    case Popping(_, _) =>
      if Act(s, Dispatcher).Free? {
        a := PopQueue;
      } else {
        CanContinue(p, states, steps, k, Dispatcher);
        a := Continue(Dispatcher);
      }
  }

  lemma NextSource(p: Pipeline, s: State, last: B.Option<int>) returns (a: Step)
    requires s.cleaner == Sources(last)
    ensures Enabled(p, s, a) && OfCleaner(a)
  {
    var ports := set q | q in s.space.queues && q.Source? && Beyond(last, q.port) :: q.port;
    if ports == {} {
      a := EndSources;
      forall q | q in s.space.queues && q.Source? ensures !Beyond(last, q.port) {
        assert q.port !in ports;
      }
    } else {
      var port := Least(ports);
      var q :| q in s.space.queues && q.Source? && Beyond(last, q.port) && q.port == port;
      assert q == B.Source(port);
      forall e | e in s.space.queues && e.Source? && Beyond(last, e.port) ensures port <= e.port {
        assert e.port in ports;
      }
      a := CloseSource(port);
    }
  }
}
