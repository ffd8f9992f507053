/** How a node gets threads for its requests: one at a time for ordinary and frame-by-frame nodes, one per
    request for concurrent and virtual ones. */
module NodeWorkers {
  import opened Collections

  /** A pipeline with its priority; equal priorities are told apart by the pipeline. */
  datatype Request = Request(priority: int, pipeline: int)

  predicate Below(a: Request, b: Request) {
    a.priority < b.priority || (a.priority == b.priority && a.pipeline <= b.pipeline)
  }

  /** The greatest request of a queue. */
  function Top(q: seq<Request>): (r: Request)
    requires q != []
    ensures r in q && forall x :: x in q ==> Below(x, r)
  {
    if |q| == 1 then q[0]
    else
      assert forall x :: x in q ==> x == q[0] || x in q[1..];
      var rest := Top(q[1..]);
      if Below(rest, q[0]) then q[0] else rest
  }

  function Without(q: seq<Request>, r: Request): (rest: seq<Request>)
    requires r in q
    ensures multiset(rest) + multiset{r} == multiset(q) && |rest| == |q| - 1
    ensures forall x :: x in rest ==> x in q
  {
    if q[0] == r then
      assert q == [r] + q[1..];
      q[1..]
    else
      assert q == [q[0]] + q[1..];
      [q[0]] + Without(q[1..], r)
  }

  lemma WithoutKeeps(q: seq<Request>, r: Request, x: Request)
    requires r in q && x in q && x != r
    ensures x in Without(q, r)
  {
    assert multiset(Without(q, r))[x] == multiset(q)[x];
    assert x in multiset(q);
  }

  datatype Current = NoPipeline | Running(request: Request)

  // ----- One worker at a time -----

  /** `scheduled` closures wait in the thread pool, `working` threads are in the loop, `leaving` ones are
      past it; `users` is the session's count of threads in use. `started` and `served` are the history. */
  datatype Serial = Serial(
    current: Current, queue: seq<Request>, hasThread: bool, frames: nat,
    scheduled: nat, working: nat, leaving: nat, users: int,
    enqueued: seq<Request>, started: seq<Request>, served: seq<Request>)

  datatype SerialStep =
    | Enqueue(request: Request)
    | Begin       // a scheduled closure enters the loop
    | Frame       // one of several frames of a request has been processed
    | Finish      // the request is over, in success or error: take the next one or leave
    | Leave

  predicate SerialEnabled(s: Serial, a: SerialStep) {
    match a
    case Enqueue(r) => r !in s.enqueued
    case Begin => s.scheduled > 0
    case Frame => s.working > 0
    case Finish => s.working > 0
    case Leave => s.leaving > 0
  }

  function Enqueued(s: Serial, r: Request): Serial {
    var q := s.queue + [r];
    var highest := s.current.NoPipeline? && Top(q) == r;
    var s' := s.(enqueued := s.enqueued + [r], queue := if highest then Without(q, r) else q,
                 current := if highest then Running(r) else s.current,
                 started := if highest then s.started + [r] else s.started);
    if highest && !s.hasThread then s'.(users := s.users + 1, scheduled := s.scheduled + 1, hasThread := true) else s'
  }

  function Finished(s: Serial): Serial {
    var s' := s.(frames := 0, served := if s.current.Running? then s.served + [s.current.request] else s.served);
    if s.queue != [] then
      var r := Top(s.queue);
      s'.(current := Running(r), queue := Without(s.queue, r), started := s.started + [r])
    else if s.working > 0 then
      s'.(current := NoPipeline, hasThread := false, working := s.working - 1, leaving := s.leaving + 1)
    else s'
  }

  function SerialApply(s: Serial, a: SerialStep): Serial
    requires SerialEnabled(s, a)
  {
    match a
    case Enqueue(r) => Enqueued(s, r)
    case Begin => s.(scheduled := s.scheduled - 1, working := s.working + 1)
    case Frame => s.(frames := s.frames + 1)
    case Finish => Finished(s)
    case Leave => s.(leaving := s.leaving - 1, users := s.users - 1)
  }

  function Held(s: Serial): multiset<Request> {
    if s.current.Running? then multiset{s.current.request} else multiset{}
  }

  /** Threads: one is scheduled or in the loop while there is a current pipeline, none otherwise. */
  predicate ThreadOk(s: Serial) {
    && s.scheduled + s.working == (if s.hasThread then 1 else 0)
    && (s.current.Running? <==> s.hasThread)
    && (s.current.NoPipeline? ==> s.queue == [])
    && s.users == s.scheduled + s.working + s.leaving
    && (s.scheduled > 0 || !s.hasThread ==> s.frames == 0)
  }

  /** Requests: each is waiting, current, or served. */
  predicate RequestsOk(s: Serial) {
    && NoDuplicates(s.enqueued)
    && multiset(s.enqueued) == multiset(s.started) + multiset(s.queue)
    && multiset(s.started) == multiset(s.served) + Held(s)
  }

  predicate SerialInv(s: Serial) {
    ThreadOk(s) && RequestsOk(s)
  }

  lemma ThreadStep(s: Serial, a: SerialStep)
    requires ThreadOk(s) && SerialEnabled(s, a)
    ensures ThreadOk(SerialApply(s, a))
    ensures a.Enqueue? ==> SerialApply(s, a).current.Running?
    ensures a.Finish? || a.Frame? || a.Begin? ==> s.current.Running?
  {
    if a.Enqueue? && s.current.NoPipeline? {
      assert s.queue + [a.request] == [a.request];
    }
  }

  lemma EnqueueRequests(s: Serial, r: Request)
    requires ThreadOk(s) && RequestsOk(s) && r !in s.enqueued
    ensures RequestsOk(Enqueued(s, r))
  {
    AppendBag(s.queue, r);
    AppendBag(s.enqueued, r);
    AppendBag(s.started, r);
    AppendDistinct(s.enqueued, r);
    hide NoDuplicates;
    if s.current.NoPipeline? {
      assert s.queue + [r] == [r] && Without([r], r) == [];
    }
  }

  lemma FinishRequests(s: Serial)
    requires s.current.Running? && s.working > 0 && RequestsOk(s)
    ensures RequestsOk(Finished(s))
  {
    AppendBag(s.served, s.current.request);
    if s.queue != [] {
      AppendBag(s.started, Top(s.queue));
    }
  }

  lemma SerialStepInv(s: Serial, a: SerialStep)
    requires SerialInv(s) && SerialEnabled(s, a)
    ensures SerialInv(SerialApply(s, a))
    ensures a.Enqueue? ==> SerialApply(s, a).current.Running?
    ensures a.Finish? || a.Frame? || a.Begin? ==> s.current.Running?
  {
    hide ThreadOk;
    hide Enqueued;
    hide Finished;
    ThreadStep(s, a);
    match a
    case Enqueue(r) => EnqueueRequests(s, r);
    case Finish => FinishRequests(s);
    case _ =>
  }

  ghost predicate SerialRun(states: seq<Serial>, steps: seq<SerialStep>) {
    && |states| == |steps| + 1
    && states[0] == Serial(NoPipeline, [], false, 0, 0, 0, 0, 0, [], [], [])
    && forall k :: 0 <= k < |steps| ==> SerialStepped(states[k], steps[k], states[k + 1])
  }

  predicate SerialStepped(s: Serial, a: SerialStep, s': Serial) {
    SerialEnabled(s, a) && s' == SerialApply(s, a)
  }

  lemma {:induction false} SerialRunInv(states: seq<Serial>, steps: seq<SerialStep>, k: nat)
    requires SerialRun(states, steps) && k < |states|
    ensures SerialInv(states[k])
  {
    hide SerialInv;
    if k == 0 {
      SerialStart(states[0]);
    } else {
      SerialRunInv(states, steps, k - 1);
      assert SerialStepped(states[k - 1], steps[k - 1], states[k]);
      SerialStepInv(states[k - 1], steps[k - 1]);
    }
  }

  lemma SerialStart(s: Serial)
    requires s == Serial(NoPipeline, [], false, 0, 0, 0, 0, 0, [], [], [])
    ensures SerialInv(s)
  {
  }

  /** There is never more than one thread for the node; the current pipeline is null exactly when there is
      none, and then no request waits; a thread that is in the loop, and a caller that has just enqueued,
      find a current pipeline; every request is started at most once, and while no thread is there all
      have been served exactly once. */
  lemma OneWorker(states: seq<Serial>, steps: seq<SerialStep>, k: nat)
    requires SerialRun(states, steps) && k < |states|
    ensures var s := states[k];
            && s.scheduled + s.working <= 1
            && (s.current.NoPipeline? <==> !s.hasThread)
            && (s.current.NoPipeline? ==> s.queue == [])
            && (s.working > 0 ==> s.current.Running?)
            && (k > 0 && steps[k - 1].Enqueue? ==> s.current.Running?)
            && s.users == s.scheduled + s.working + s.leaving
            && (forall r :: multiset(s.started)[r] <= 1)
            && (!s.hasThread ==> multiset(s.served) == multiset(s.enqueued))
  {
    var s := states[k];
    SerialRunInv(states, steps, k);
    if k > 0 {
      SerialRunInv(states, steps, k - 1);
      assert SerialStepped(states[k - 1], steps[k - 1], s);
      SerialStepInv(states[k - 1], steps[k - 1]);
    }
    forall r ensures multiset(s.started)[r] <= 1 {
      OnceEach(s.enqueued, r);
    }
  }

  /** A request of lower priority does not get ahead of one that waits with it. */
  lemma {:induction false} PriorityOrder(states: seq<Serial>, steps: seq<SerialStep>, j: nat, k: nat, low: Request, high: Request)
    requires SerialRun(states, steps) && j <= k < |states|
    requires low in states[j].queue && high in states[j].queue
    requires low.priority < high.priority || (low.priority == high.priority && low.pipeline < high.pipeline)
    ensures low in states[k].started ==> high in states[k].started
    ensures high in states[k].queue ==> low in states[k].queue
    decreases k
  {
    hide SerialApply;
    hide SerialEnabled;
    hide SerialInv;
    SerialRunInv(states, steps, k);
    if j == k {
      QueuedNotStarted(states[k], low);
    } else {
      PriorityOrder(states, steps, j, k - 1, low, high);
      SerialRunInv(states, steps, k - 1);
      SerialRunInv(states, steps, j);
      assert SerialStepped(states[k - 1], steps[k - 1], states[k]);
      EnqueuedGrows(states, steps, j, k - 1);
      KnownBefore(states[j], low);
      KnownBefore(states[j], high);
      OrderStep(states[k - 1], steps[k - 1], low, high);
    }
  }

  lemma QueuedNotStarted(s: Serial, r: Request)
    requires SerialInv(s) && r in s.queue
    ensures r !in s.started
  {
    OnceEach(s.enqueued, r);
    assert r in multiset(s.queue);
  }

  lemma KnownBefore(s: Serial, r: Request)
    requires SerialInv(s) && r in s.queue
    ensures r in s.enqueued
  {
    assert r in multiset(s.queue) && r in multiset(s.enqueued);
  }

  lemma {:induction false} EnqueuedGrows(states: seq<Serial>, steps: seq<SerialStep>, j: nat, k: nat)
    requires SerialRun(states, steps) && j <= k < |states|
    ensures states[j].enqueued <= states[k].enqueued
    decreases k
  {
    if j < k {
      EnqueuedGrows(states, steps, j, k - 1);
      assert SerialStepped(states[k - 1], steps[k - 1], states[k]);
    }
  }

  lemma OrderStep(s: Serial, a: SerialStep, low: Request, high: Request)
    requires SerialInv(s) && SerialEnabled(s, a) && low in s.enqueued && high in s.enqueued
    requires low != high && Below(low, high)
    requires (low in s.started ==> high in s.started) && (high in s.queue ==> low in s.queue)
    ensures var s' := SerialApply(s, a);
            (low in s'.started ==> high in s'.started) && (high in s'.queue ==> low in s'.queue)
  {
    SomewhereElse(s, low);
    SomewhereElse(s, high);
    if a.Enqueue? {
      OrderEnqueue(s, a, low, high);
    } else if a.Finish? && s.queue != [] {
      OrderFinish(s, low, high);
    }
  }

  lemma OrderEnqueue(s: Serial, a: SerialStep, low: Request, high: Request)
    requires SerialInv(s) && SerialEnabled(s, a) && a.Enqueue? && low in s.enqueued && high in s.enqueued
    requires (low in s.started ==> high in s.started) && (high in s.queue ==> low in s.queue)
    ensures var s' := SerialApply(s, a);
            (low in s'.started ==> high in s'.started) && (high in s'.queue ==> low in s'.queue)
  {
    hide Top;
    hide Without;
  }

  /** The greatest request is the next. */
  lemma OrderFinish(s: Serial, low: Request, high: Request)
    requires SerialInv(s) && SerialEnabled(s, Finish) && s.queue != []
    requires low in s.enqueued && high in s.enqueued && low != high && Below(low, high)
    requires (low in s.started ==> high in s.started) && (high in s.queue ==> low in s.queue)
    requires high in s.queue <==> high !in s.started
    requires low in s.queue <==> low !in s.started
    ensures var s' := SerialApply(s, Finish);
            (low in s'.started ==> high in s'.started) && (high in s'.queue ==> low in s'.queue)
  {
    var s', r := SerialApply(s, Finish), Top(s.queue);
    assert s'.queue == Without(s.queue, r) && s'.started == s.started + [r];
    assert r in s.queue && (high in s.queue ==> r != low);
    hide SerialApply;
    hide SerialInv;
    if high in s'.queue {
      assert high in multiset(s'.queue);
      WithoutKeeps(s.queue, r, low);
    }
  }

  /** A request that was enqueued is waiting or has been started, not both. */
  lemma SomewhereElse(s: Serial, r: Request)
    requires SerialInv(s) && r in s.enqueued
    ensures r in s.queue <==> r !in s.started
  {
    OnceEach(s.enqueued, r);
    assert r in multiset(s.queue) <==> r in s.queue;
    assert r in multiset(s.started) <==> r in s.started;
  }

  /** An ordinary or frame-by-frame node as the code updates it: each method is one section under the
      process lock, or a step of the one worker outside it. */
  class SerialNode {
    var mPipeline: Current
    var mRequestQueue: seq<Request>
    var mHasProcessThread: bool
    var mInputFrameNum: nat
    var mUsingThreadNum: int
    ghost var scheduled: nat
    ghost var working: nat
    ghost var leaving: nat
    ghost var enqueued: seq<Request>
    ghost var started: seq<Request>
    ghost var served: seq<Request>

    ghost function View(): Serial
      reads this
    {
      Serial(mPipeline, mRequestQueue, mHasProcessThread, mInputFrameNum, scheduled, working, leaving, mUsingThreadNum,
             enqueued, started, served)
    }

    constructor ()
      ensures View() == Serial(NoPipeline, [], false, 0, 0, 0, 0, 0, [], [], [])
    {
      mPipeline, mRequestQueue, mHasProcessThread, mInputFrameNum, mUsingThreadNum := NoPipeline, [], false, 0, 0;
      scheduled, working, leaving, enqueued, started, served := 0, 0, 0, [], [], [];
    }

    /** The new request becomes the current one if the node has none; a thread is asked for if it has none.
        The current pipeline can then be named in the log. */
    method EnqueueTask(request: Request) returns (logged: int)
      requires SerialInv(View()) && request !in enqueued
      modifies this
      ensures View() == SerialApply(old(View()), Enqueue(request)) && SerialInv(View())
      ensures mPipeline.Running? && logged == mPipeline.request.pipeline
    {
      hide SerialInv;
      hide Without;
      ghost var after := SerialApply(View(), Enqueue(request));
      assert after == Enqueued(View(), request) && SerialEnabled(View(), Enqueue(request));
      hide SerialApply;
      hide SerialEnabled;
      SerialStepInv(View(), Enqueue(request));
      mRequestQueue := mRequestQueue + [request];
      enqueued := enqueued + [request];
      var highestPriorityRequest := mPipeline.NoPipeline? && Top(mRequestQueue) == request;
      if highestPriorityRequest {
        mPipeline := Running(Top(mRequestQueue));
        mRequestQueue := Without(mRequestQueue, request);
        started := started + [request];
      }
      logged := mPipeline.request.pipeline;
      if !mHasProcessThread && highestPriorityRequest {
        mUsingThreadNum := mUsingThreadNum + 1;
        scheduled := scheduled + 1;
        mHasProcessThread := true;
      }
    }

    /** The end of a request, whether it succeeded or failed: the greatest waiting request is next, and
        without one the thread is given up. */
    method FinishRequest() returns (nextRequestReady: bool)
      requires SerialInv(View()) && working > 0
      modifies this
      ensures View() == SerialApply(old(View()), Finish) && SerialInv(View())
      ensures nextRequestReady <==> old(mRequestQueue) != []
    {
      hide SerialInv;
      hide Without;
      hide Top;
      SerialStepInv(View(), Finish);
      mInputFrameNum := 0;
      served := served + [mPipeline.request];
      nextRequestReady := |mRequestQueue| > 0;
      if nextRequestReady {
        var r := Top(mRequestQueue);
        mPipeline, mRequestQueue, started := Running(r), Without(mRequestQueue, r), started + [r];
      } else {
        mPipeline := NoPipeline;
        mHasProcessThread := false;
        working, leaving := working - 1, leaving + 1;
      }
    }

    /** What the loop reads first; never null. */
    method CurrentPipeline() returns (pipeline: int)
      requires SerialInv(View()) && working > 0
      ensures mPipeline == Running(Request(mPipeline.request.priority, pipeline))
    {
      SerialStepInv(View(), Frame);
      pipeline := mPipeline.request.pipeline;
    }

    method CountFrame()
      requires SerialInv(View()) && working > 0
      modifies this`mInputFrameNum
      ensures View() == SerialApply(old(View()), Frame) && SerialInv(View())
    {
      SerialStepInv(View(), Frame);
      mInputFrameNum := mInputFrameNum + 1;
    }
  }

  // ----- One worker per request -----

  /** `popping` closures have been scheduled and have not yet looked into the queue; `unknownError` is set
      where one of them would find it empty. */
  datatype Parallel = Parallel(
    queue: seq<Request>, popping: nat, working: nat, users: int, unknownError: bool,
    enqueued: seq<Request>, served: seq<Request>)

  datatype ParallelStep = Push(request: Request) | Pop | Done

  predicate ParallelEnabled(s: Parallel, a: ParallelStep) {
    match a
    case Push(r) => r !in s.enqueued
    case Pop => s.popping > 0
    case Done => s.working > 0
  }

  function ParallelApply(s: Parallel, a: ParallelStep): Parallel
    requires ParallelEnabled(s, a)
  {
    match a
    case Push(r) =>
      s.(queue := s.queue + [r], enqueued := s.enqueued + [r], popping := s.popping + 1, users := s.users + 1)
    case Pop =>
      if s.queue != [] then
        var r := Top(s.queue);
        s.(queue := Without(s.queue, r), served := s.served + [r], popping := s.popping - 1, working := s.working + 1)
      else s.(popping := s.popping - 1, unknownError := true)
    case Done => s.(working := s.working - 1, users := s.users - 1)
  }

  predicate ParallelInv(s: Parallel) {
    && s.popping == |s.queue| && !s.unknownError && s.users == s.popping + s.working
    && NoDuplicates(s.enqueued) && multiset(s.enqueued) == multiset(s.served) + multiset(s.queue)
  }

  lemma ParallelStepInv(s: Parallel, a: ParallelStep)
    requires ParallelInv(s) && ParallelEnabled(s, a)
    ensures ParallelInv(ParallelApply(s, a))
  {
    match a
    case Push(r) =>
      AppendBag(s.queue, r);
      AppendBag(s.enqueued, r);
    case Pop => AppendBag(s.served, Top(s.queue));
    case Done =>
  }

  ghost predicate ParallelRun(states: seq<Parallel>, steps: seq<ParallelStep>) {
    && |states| == |steps| + 1
    && states[0] == Parallel([], 0, 0, 0, false, [], [])
    && forall k :: 0 <= k < |steps| ==> ParallelStepped(states[k], steps[k], states[k + 1])
  }

  predicate ParallelStepped(s: Parallel, a: ParallelStep, s': Parallel) {
    ParallelEnabled(s, a) && s' == ParallelApply(s, a)
  }

  lemma {:induction false} ParallelRunInv(states: seq<Parallel>, steps: seq<ParallelStep>, k: nat)
    requires ParallelRun(states, steps) && k < |states|
    ensures ParallelInv(states[k])
  {
    hide ParallelApply;
    hide ParallelEnabled;
    if k > 0 {
      ParallelRunInv(states, steps, k - 1);
      assert ParallelStepped(states[k - 1], steps[k - 1], states[k]);
      ParallelStepInv(states[k - 1], steps[k - 1]);
    }
  }

  /** As many requests wait as closures are on their way to fetch one, so none of them ever finds the queue
      empty; each request is served at most once, and all have been when nobody is on the way. */
  lemma NeverEmptyHanded(states: seq<Parallel>, steps: seq<ParallelStep>, k: nat)
    requires ParallelRun(states, steps) && k < |states|
    ensures var s := states[k];
            && !s.unknownError && |s.queue| == s.popping && s.users == s.popping + s.working
            && (forall r :: multiset(s.served)[r] <= 1)
            && (s.popping == 0 ==> multiset(s.served) == multiset(s.enqueued))
  {
    var s := states[k];
    ParallelRunInv(states, steps, k);
    forall r ensures multiset(s.served)[r] <= 1 {
      OnceEach(s.enqueued, r);
    }
  }

  /** A concurrent or virtual node as the code updates it. */
  class ParallelNode {
    var mRequestQueue: seq<Request>
    var mUsingThreadNum: int
    ghost var popping: nat
    ghost var working: nat
    ghost var enqueued: seq<Request>
    ghost var served: seq<Request>

    ghost function View(): Parallel
      reads this
    {
      Parallel(mRequestQueue, popping, working, mUsingThreadNum, false, enqueued, served)
    }

    constructor ()
      ensures View() == Parallel([], 0, 0, 0, false, [], [])
    {
      mRequestQueue, mUsingThreadNum, popping, working, enqueued, served := [], 0, 0, 0, [], [];
    }

    method EnqueueTask(request: Request)
      requires ParallelInv(View()) && request !in enqueued
      modifies this
      ensures View() == ParallelApply(old(View()), Push(request)) && ParallelInv(View())
    {
      ParallelStepInv(View(), Push(request));
      mRequestQueue := mRequestQueue + [request];
      mUsingThreadNum := mUsingThreadNum + 1;
      enqueued, popping := enqueued + [request], popping + 1;
    }

    /** A scheduled closure fetches its request: the greatest one, not necessarily the one it was scheduled for. */
    method FetchRequest() returns (pipeline: int)
      requires ParallelInv(View()) && popping > 0
      modifies this
      ensures View() == ParallelApply(old(View()), Pop) && ParallelInv(View())
      ensures pipeline == Top(old(mRequestQueue)).pipeline
    {
      ParallelStepInv(View(), Pop);
      var r := Top(mRequestQueue);
      mRequestQueue := Without(mRequestQueue, r);
      pipeline := r.pipeline;
      served, popping, working := served + [r], popping - 1, working + 1;
    }
  }
}
