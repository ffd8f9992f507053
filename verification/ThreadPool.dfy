/** The thread pool: workers take tasks under the mutex, run them outside it, and may retire on the way
    back; whoever submits a task may start a worker. */
module ThreadPool {
  import opened Collections

  const MAX_THREADS := 32
  const UINT32 := 0x1_0000_0000

  datatype Worker =
    | Idle               // waiting for a task, or about to
    | Busy(task: int)    // has taken a task and not finished running it
    | Returning          // has run its task, about to lock the mutex again
    | Retired            // left the loop as redundant; still to be joined and erased
    | Stopped            // left the loop because the pool was stopped

  /** `accepted`, `taken` and `executed` are the history: the tasks let in, popped and run, in that order. */
  datatype Pool = Pool(
    queue: seq<int>, workers: map<int, Worker>, pending: seq<int>, idle: int, active: int, initial: int,
    nextId: int, stop: bool, accepted: seq<int>, taken: seq<int>, executed: seq<int>)

  datatype Step = Take(id: int) | RunTask(id: int) | Return(id: int) | Exit(id: int) | Enqueue(task: int) | Stop

  /** Every submission is its own task. */
  predicate Enabled(s: Pool, a: Step) {
    match a
    case Take(w) => w in s.workers && s.workers[w].Idle? && s.queue != []
    case RunTask(w) => w in s.workers && s.workers[w].Busy?
    case Return(w) => w in s.workers && s.workers[w].Returning?
    case Exit(w) => w in s.workers && s.workers[w].Idle? && s.stop && s.queue == []
    case Enqueue(task) => task !in s.accepted
    case Stop => true
  }

  function Started(s: Pool): Pool {
    s.(workers := s.workers[s.nextId := Idle], nextId := s.nextId + 1, idle := s.idle + 1, active := s.active + 1)
  }

  /** More idle workers than at the start, and more than twice the waiting tasks (in 32-bit arithmetic). */
  predicate Redundant(idle: int, initial: int, waiting: nat) {
    idle > initial && idle > waiting * 2 % UINT32
  }

  function Reaped(s: Pool): Pool {
    s.(workers := s.workers - (set w | w in s.pending), pending := [])
  }

  function Apply(s: Pool, a: Step): Pool
    requires Enabled(s, a)
  {
    match a
    case Take(w) =>
      s.(workers := s.workers[w := Busy(s.queue[0])], taken := s.taken + [s.queue[0]], queue := s.queue[1..],
         idle := s.idle - 1)
    case RunTask(w) =>
      s.(workers := s.workers[w := Returning], executed := s.executed + [s.workers[w].task])
    case Return(w) =>
      if Redundant(s.idle + 1, s.initial, |s.queue|)
      then s.(workers := s.workers[w := Retired], active := s.active - 1, pending := s.pending + [w])
      else s.(workers := s.workers[w := Idle], idle := s.idle + 1)
    case Exit(w) => s.(workers := s.workers[w := Stopped])
    case Enqueue(task) =>
      if s.stop then s
      else
        var s' := Reaped(s).(queue := s.queue + [task], accepted := s.accepted + [task]);
        if s'.active < MAX_THREADS && |s'.queue| % UINT32 > s'.idle then Started(s') else s'
    case Stop => s.(stop := true)
  }

  // ----- The invariant -----

  ghost function Waiting(s: Pool): set<int> { set w | w in s.workers && (s.workers[w].Idle? || s.workers[w].Stopped?) }

  ghost function Working(s: Pool): set<int> { set w | w in s.workers && (s.workers[w].Busy? || s.workers[w].Returning?) }

  /** The counters count, within their bounds. */
  ghost predicate CountersOk(s: Pool) {
    && s.idle == |Waiting(s)| && s.active == |Waiting(s)| + |Working(s)|
    && 0 <= s.initial <= s.active <= MAX_THREADS
  }

  /** Unless all the threads there may be are running, no more tasks wait than workers do. */
  predicate Staffed(s: Pool) {
    |s.queue| <= s.idle || s.active == MAX_THREADS
  }

  ghost predicate ThreadsOk(s: Pool) {
    && (forall w :: w in s.workers ==> w < s.nextId)
    && (forall w :: w in s.pending <==> w in s.workers && s.workers[w].Retired?)
    && NoDuplicates(s.pending)
    && (forall w :: w in s.workers && s.workers[w].Stopped? ==> s.stop && s.queue == [])
  }

  ghost predicate BusyWith(s: Pool, task: int) {
    exists w :: w in s.workers && s.workers[w] == Busy(task)
  }

  /** Every task that was taken is being run by one worker, or has been run once. */
  ghost predicate RanOnce(s: Pool, task: int) {
    multiset(s.executed)[task] == if task in s.taken && !BusyWith(s, task) then 1 else 0
  }

  ghost predicate TasksOk(s: Pool) {
    && s.accepted == s.taken + s.queue && NoDuplicates(s.accepted)
    && (forall w :: w in s.workers && s.workers[w].Busy? ==> s.workers[w].task in s.taken)
    && (forall v, w :: v in s.workers && w in s.workers && v != w && s.workers[v].Busy? ==> s.workers[v] != s.workers[w])
    && (forall task :: RanOnce(s, task))
  }

  ghost predicate Inv(s: Pool) {
    CountersOk(s) && ThreadsOk(s) && TasksOk(s)
  }

  lemma SizeSplit(a: set<int>, w: int)
    ensures |a| == |a - {w}| + if w in a then 1 else 0
  {
    if w !in a {
      assert a - {w} == a;
    }
  }

  /** What one worker's change of state does to the counts. */
  lemma Recount(s: Pool, s': Pool, w: int)
    requires w in s.workers && w in s'.workers && s'.workers == s.workers[w := s'.workers[w]]
    ensures |Waiting(s')| == |Waiting(s)| + (if w in Waiting(s') then 1 else 0) - (if w in Waiting(s) then 1 else 0)
    ensures |Working(s')| == |Working(s)| + (if w in Working(s') then 1 else 0) - (if w in Working(s) then 1 else 0)
  {
    assert Waiting(s') - {w} == Waiting(s) - {w};
    assert Working(s') - {w} == Working(s) - {w};
    SizeSplit(Waiting(s'), w);
    SizeSplit(Waiting(s), w);
    SizeSplit(Working(s'), w);
    SizeSplit(Working(s), w);
  }

  lemma CountersKept(s: Pool, a: Step)
    requires CountersOk(s) && Enabled(s, a) && !a.Enqueue? && !a.Stop?
    ensures CountersOk(Apply(s, a))
  {
    Recount(s, Apply(s, a), a.id);
  }

  lemma CountersStop(s: Pool)
    requires CountersOk(s)
    ensures CountersOk(Apply(s, Stop))
  {
    assert Waiting(Apply(s, Stop)) == Waiting(s) && Working(Apply(s, Stop)) == Working(s);
  }

  lemma CountersEnqueue(s: Pool, a: Step)
    requires CountersOk(s) && ThreadsOk(s) && Enabled(s, a) && a.Enqueue?
    ensures CountersOk(Apply(s, a))
  {
    if !s.stop {
      var r := Reaped(s).(queue := s.queue + [a.task], accepted := s.accepted + [a.task]);
      ReapedCounts(s, r);
      if r.active < MAX_THREADS && |r.queue| % UINT32 > r.idle {
        StartedCounts(r);
      }
    }
  }

  lemma ReapedCounts(s: Pool, r: Pool)
    requires ThreadsOk(s) && r.workers == Reaped(s).workers
    ensures Waiting(r) == Waiting(s) && Working(r) == Working(s)
    ensures forall w :: w in r.workers ==> w < s.nextId
  {
    forall w ensures w in Waiting(r) <==> w in Waiting(s) {
    }
    forall w ensures w in Working(r) <==> w in Working(s) {
    }
  }

  lemma StartedCounts(r: Pool)
    requires forall w :: w in r.workers ==> w < r.nextId
    ensures |Waiting(Started(r))| == |Waiting(r)| + 1 && Working(Started(r)) == Working(r)
  {
    assert Waiting(Started(r)) == Waiting(r) + {r.nextId};
  }

  /** A worker comes back while all the threads there may be are running and more tasks wait than workers
      do, and still retires: only the wrap of the doubled number of tasks can make it look redundant. */
  predicate Spoils(s: Pool, a: Step) {
    a.Return? && s.active == MAX_THREADS && |s.queue| > s.idle && Redundant(s.idle + 1, s.initial, |s.queue|)
  }

  /** No other step leaves tasks without the workers they should have. */
  lemma StaffedUnlessSpoilt(s: Pool, a: Step)
    requires Inv(s) && Staffed(s) && Enabled(s, a)
    ensures Staffed(Apply(s, a)) <==> !Spoils(s, a)
  {
    if a.Take? {
      assert a.id in Waiting(s);
    }
  }

  /** With fewer than 2^31 tasks nothing wraps. */
  lemma ShortQueueUnspoilt(s: Pool, a: Step)
    requires s.idle >= 0 && |s.queue| < UINT32 / 2
    ensures !Spoils(s, a)
  {
  }

  lemma ThreadsKept(s: Pool, a: Step)
    requires ThreadsOk(s) && Enabled(s, a)
    ensures ThreadsOk(Apply(s, a))
  {
    var s' := Apply(s, a);
    if a.Return? {
      assert a.id !in s.pending;
    }
  }

  lemma BusyElsewhere(s: Pool, s': Pool, task: int)
    requires forall w :: w in s.workers && s.workers[w] == Busy(task) ==> w in s'.workers && s'.workers[w] == Busy(task)
    requires forall w :: w in s'.workers && s'.workers[w] == Busy(task) ==> w in s.workers && s.workers[w] == Busy(task)
    ensures BusyWith(s', task) == BusyWith(s, task)
  {
  }

  lemma TasksTake(s: Pool, w: int)
    requires TasksOk(s) && Enabled(s, Take(w))
    ensures TasksOk(Apply(s, Take(w)))
  {
    var s', t := Apply(s, Take(w)), s.queue[0];
    assert s'.taken + s'.queue == s.accepted;
    assert s.accepted[|s.taken|] == t;
    assert t !in s.taken by {
      assert forall k :: 0 <= k < |s.taken| ==> s.accepted[k] == s.taken[k];
    }
    forall task ensures RanOnce(s', task) {
      assert RanOnce(s, task);
      if task == t {
        assert s'.workers[w] == Busy(t);
      } else {
        BusyElsewhere(s, s', task);
      }
    }
  }

  lemma TasksRun(s: Pool, w: int)
    requires TasksOk(s) && Enabled(s, RunTask(w))
    ensures TasksOk(Apply(s, RunTask(w)))
  {
    var s', t := Apply(s, RunTask(w)), s.workers[w].task;
    forall task ensures RanOnce(s', task) {
      assert RanOnce(s, task);
      assert multiset(s.executed + [t]) == multiset(s.executed) + multiset{t};
      if task == t {
        assert BusyWith(s, t);
      } else {
        BusyElsewhere(s, s', task);
      }
    }
  }

  lemma TasksOther(s: Pool, a: Step)
    requires TasksOk(s) && ThreadsOk(s) && Enabled(s, a) && !a.Take? && !a.RunTask?
    ensures TasksOk(Apply(s, a))
  {
    var s' := Apply(s, a);
    OtherWorkers(s, a);
    OtherHistory(s, a);
    hide Apply;
    hide Enabled;
    forall task ensures RanOnce(s', task) {
      assert RanOnce(s, task);
      BusyElsewhere(s, s', task);
    }
  }

  lemma OtherHistory(s: Pool, a: Step)
    requires TasksOk(s) && Enabled(s, a) && !a.Take? && !a.RunTask?
    ensures var s' := Apply(s, a);
            && s'.accepted == s'.taken + s'.queue && NoDuplicates(s'.accepted)
            && s'.taken == s.taken && s'.executed == s.executed
  {
  }

  /** Other steps leave the busy workers alone. */
  lemma OtherWorkers(s: Pool, a: Step)
    requires ThreadsOk(s) && Enabled(s, a) && !a.Take? && !a.RunTask?
    ensures var s' := Apply(s, a);
            && (forall w :: w in s.workers && s.workers[w].Busy? ==> w in s'.workers && s'.workers[w] == s.workers[w])
            && (forall w :: w in s'.workers && s'.workers[w].Busy? ==> w in s.workers && s'.workers[w] == s.workers[w])
  {
  }

  lemma StepInv(s: Pool, a: Step)
    requires Inv(s) && Enabled(s, a)
    ensures Inv(Apply(s, a))
  {
    hide CountersOk;
    hide ThreadsOk;
    hide TasksOk;
    hide Apply;
    hide Enabled;
    if a.Enqueue? {
      CountersEnqueue(s, a);
    } else if a.Stop? {
      CountersStop(s);
    } else {
      CountersKept(s, a);
    }
    ThreadsKept(s, a);
    if a.Take? {
      TasksTake(s, a.id);
    } else if a.RunTask? {
      TasksRun(s, a.id);
    } else {
      TasksOther(s, a);
    }
  }

  // ----- Runs -----

  /** The workers that the constructor starts. */
  function Idlers(n: nat): (r: map<int, Worker>)
    ensures forall w :: w in r <==> 0 <= w < n
    ensures forall w :: w in r ==> r[w].Idle?
  {
    if n == 0 then map[] else Idlers(n - 1)[n - 1 := Idle]
  }

  ghost predicate Initial(s: Pool, threads: nat) {
    && s.initial == (if threads > MAX_THREADS then MAX_THREADS else threads)
    && s.queue == [] && s.pending == [] && !s.stop && s.accepted == [] && s.taken == [] && s.executed == []
    && s.idle == s.active == s.nextId == s.initial
    && s.initial >= 0 && s.workers == Idlers(s.initial)
  }

  ghost predicate Stepped(s: Pool, a: Step, s': Pool) {
    Enabled(s, a) && s' == Apply(s, a)
  }

  /** Any threads, in any interleaving. */
  ghost predicate Run(threads: nat, states: seq<Pool>, steps: seq<Step>) {
    && |states| == |steps| + 1 && Initial(states[0], threads)
    && (forall k :: 0 <= k < |steps| ==> Stepped(states[k], steps[k], states[k + 1]))
  }

  lemma InitialInv(s: Pool, threads: nat)
    requires Initial(s, threads)
    ensures Inv(s) && Staffed(s)
  {
    IdlersWait(s, s.initial);
    assert CountersOk(s) && Staffed(s);
    hide CountersOk;
    assert ThreadsOk(s);
    hide ThreadsOk;
    forall task ensures RanOnce(s, task) {
    }
  }

  lemma IdlersWait(s: Pool, n: nat)
    requires s.workers == Idlers(n)
    ensures |Waiting(s)| == n && Working(s) == {}
  {
    assert Waiting(s) == UpTo(n);
  }

  lemma {:induction false} RunInv(threads: nat, states: seq<Pool>, steps: seq<Step>, k: nat)
    requires Run(threads, states, steps) && k < |states|
    ensures Inv(states[k]) && states[k].initial == states[0].initial
  {
    hide Inv;
    hide Initial;
    if k == 0 {
      InitialInv(states[0], threads);
    } else {
      RunInv(threads, states, steps, k - 1);
      assert Stepped(states[k - 1], steps[k - 1], states[k]);
      StepInv(states[k - 1], steps[k - 1]);
    }
  }

  /** In every state the counters count, between their bounds. */
  lemma AlwaysCounted(threads: nat, states: seq<Pool>, steps: seq<Step>, k: nat)
    requires Run(threads, states, steps) && k < |states|
    ensures var s := states[k];
            && (if threads > MAX_THREADS then MAX_THREADS else threads) <= s.active <= MAX_THREADS
            && s.active == s.idle + |Working(s)| && s.idle == |Waiting(s)|
  {
    RunInv(threads, states, steps, k);
    RunInv(threads, states, steps, 0);
  }

  ghost predicate StaffedThrough(states: seq<Pool>, k: nat)
    requires k < |states|
  {
    forall j :: 0 <= j <= k ==> Staffed(states[j])
  }

  ghost predicate Unspoilt(states: seq<Pool>, steps: seq<Step>, k: nat)
    requires k <= |steps| && |states| == |steps| + 1
  {
    forall j :: 0 <= j < k ==> !Spoils(states[j], steps[j])
  }

  /** Up to any state, there were always workers enough for the tasks in the queue, or no more could be
      started, exactly if no step so far has spoilt it. */
  lemma {:induction false} AlwaysStaffed(threads: nat, states: seq<Pool>, steps: seq<Step>, k: nat)
    requires Run(threads, states, steps) && k < |states|
    ensures StaffedThrough(states, k) <==> Unspoilt(states, steps, k)
  {
    hide Staffed;
    hide Spoils;
    hide Inv;
    hide Initial;
    if k == 0 {
      InitialInv(states[0], threads);
    } else {
      AlwaysStaffed(threads, states, steps, k - 1);
      RunInv(threads, states, steps, k - 1);
      assert Stepped(states[k - 1], steps[k - 1], states[k]);
      if Staffed(states[k - 1]) {
        StaffedUnlessSpoilt(states[k - 1], steps[k - 1]);
      }
    }
  }

  /** So it is in every run whose queue stays shorter than half the range of the counter. */
  lemma StaffedIfShort(threads: nat, states: seq<Pool>, steps: seq<Step>, k: nat)
    requires Run(threads, states, steps) && k < |states|
    requires forall j :: 0 <= j < k ==> |states[j].queue| < UINT32 / 2
    ensures |states[k].queue| <= states[k].idle || states[k].active == MAX_THREADS
  {
    forall j | 0 <= j < k ensures !Spoils(states[j], steps[j]) {
      RunInv(threads, states, steps, j);
      ShortQueueUnspoilt(states[j], steps[j]);
    }
    AlwaysStaffed(threads, states, steps, k);
  }

  /** Tasks are taken in the order in which they were accepted, and none runs twice. Once the pool has been
      stopped and all workers have left, each accepted task has run exactly once, exactly if none is left in
      the queue; and none is, unless the pool was made with no thread to keep and the wrap let all retire. */
  lemma AllRunOnce(threads: nat, states: seq<Pool>, steps: seq<Step>, k: nat)
    requires Run(threads, states, steps) && k < |states|
    ensures var s := states[k];
            && s.accepted == s.taken + s.queue
            && (forall task :: multiset(s.executed)[task] <= 1)
            && (s.stop && AllLeft(s) ==>
                  && (multiset(s.executed) == multiset(s.accepted) <==> s.queue == [])
                  && (threads > 0 || Unspoilt(states, steps, k) ==> s.queue == []))
  {
    var s := states[k];
    RunInv(threads, states, steps, k);
    RunInv(threads, states, steps, 0);
    forall task ensures multiset(s.executed)[task] <= 1 {
      assert RanOnce(s, task);
    }
    if s.stop && AllLeft(s) {
      AllTakenRan(s);
      AlwaysStaffed(threads, states, steps, k);
      if threads > 0 || Unspoilt(states, steps, k) {
        NothingLeft(s);
      }
    }
  }

  ghost predicate AllLeft(s: Pool) {
    forall w :: w in s.workers ==> s.workers[w].Retired? || s.workers[w].Stopped?
  }

  lemma AllTakenRan(s: Pool)
    requires TasksOk(s) && AllLeft(s)
    ensures multiset(s.executed) == multiset(s.taken)
    ensures multiset(s.taken) == multiset(s.accepted) <==> s.queue == []
  {
    assert multiset(s.accepted) == multiset(s.taken) + multiset(s.queue);
    if s.queue != [] {
      assert s.queue[0] in multiset(s.queue);
    }
    forall i, j | 0 <= i < j < |s.taken| ensures s.taken[i] != s.taken[j] {
      assert s.accepted[i] == s.taken[i] && s.accepted[j] == s.taken[j];
    }
    forall task ensures multiset(s.executed)[task] == multiset(s.taken)[task] {
      assert RanOnce(s, task);
      OnceEach(s.taken, task);
    }
  }

  lemma NothingLeft(s: Pool)
    requires Inv(s) && AllLeft(s) && (s.initial > 0 || Staffed(s))
    ensures s.queue == []
  {
    assert forall w :: w !in Working(s);
    Vacant(Working(s));
    if Waiting(s) != {} {
      Inhabited(Waiting(s));
      var w :| w in Waiting(s);
      assert s.workers[w].Stopped?;
    }
  }

  // ----- When workers are hired and dismissed -----

  /** Accepting a task removes exactly the workers that have retired, and hires one, idle, if and only if the tasks now
      waiting, in 32 bits, are more than the idle workers and fewer than 32 are active. Once stopped nothing is
      accepted. */
  lemma Hiring(s: Pool, task: int)
    requires Inv(s) && Enabled(s, Enqueue(task))
    ensures var s' := Apply(s, Enqueue(task)); var hires := s.active < 32 && (|s.queue| + 1) % 0x1_0000_0000 > s.idle;
            if s.stop then s' == s
            else
              && s'.queue == s.queue + [task] && s'.accepted == s.accepted + [task] && s'.pending == []
              && (forall w :: w in s'.workers <==> (w in s.workers && !s.workers[w].Retired?) || (w == s.nextId && hires))
              && (forall w :: w in s'.workers ==> s'.workers[w] == if w in s.workers then s.workers[w] else Idle)
              && s'.idle == s.idle + (if hires then 1 else 0) && s'.active == s.active + (if hires then 1 else 0)
  {
  }

  /** A worker that comes back retires if and only if, with it, more workers are idle than the pool began with and more
      than twice the waiting tasks, in 32 bits. */
  lemma Dismissal(s: Pool, w: int)
    requires Enabled(s, Return(w))
    ensures var s' := Apply(s, Return(w));
            if s.idle + 1 > s.initial && s.idle + 1 > |s.queue| * 2 % 0x1_0000_0000
            then s'.workers == s.workers[w := Retired] && s'.active == s.active - 1 && s'.idle == s.idle
                 && s'.pending == s.pending + [w]
            else s'.workers == s.workers[w := Idle] && s'.active == s.active && s'.idle == s.idle + 1
                 && s'.pending == s.pending
  {
  }

  // ----- A run that is spoilt -----

  function From(n: nat, m: nat): (r: seq<int>)
    ensures |r| == m && forall i :: 0 <= i < m ==> r[i] == n + i
  {
    seq(m, i => n + i)
  }

  lemma FromNext(n: nat, m: nat)
    ensures From(n, m) + [n + m] == From(n, m + 1) && n + m !in From(n, m)
  {
  }

  function BusyEach(n: nat): (r: map<int, Worker>)
    ensures forall w :: w in r <==> 0 <= w < n
    ensures forall w :: w in r ==> r[w] == Busy(w)
  {
    if n == 0 then map[] else BusyEach(n - 1)[n - 1 := Busy(n - 1)]
  }

  /** A pool made with no threads after `n` rounds of accepting and taking, and `m` more tasks accepted. */
  function Flooded(n: nat, m: nat): Pool {
    Pool(From(n, m), BusyEach(n), [], 0, n, 0, n, false, From(0, n + m), From(0, n), [])
  }

  ghost predicate Reachable(threads: nat, s: Pool) {
    exists states, steps :: Run(threads, states, steps) && states[|states| - 1] == s
  }

  lemma ReachNext(threads: nat, s: Pool, a: Step)
    requires Reachable(threads, s) && Enabled(s, a)
    ensures Reachable(threads, Apply(s, a))
  {
    var states, steps :| Run(threads, states, steps) && states[|states| - 1] == s;
    var states', steps' := states + [Apply(s, a)], steps + [a];
    forall k | 0 <= k < |steps'| ensures Stepped(states'[k], steps'[k], states'[k + 1]) {
      if k < |steps| {
        assert Stepped(states[k], steps[k], states[k + 1]);
      }
    }
    assert Run(threads, states', steps');
  }

  lemma HireOne(n: nat)
    requires n < MAX_THREADS
    ensures Enabled(Flooded(n, 0), Enqueue(n)) && Enabled(Apply(Flooded(n, 0), Enqueue(n)), Take(n))
    ensures Apply(Apply(Flooded(n, 0), Enqueue(n)), Take(n)) == Flooded(n + 1, 0)
  {
    var s := Flooded(n, 0);
    FromNext(0, n);
    assert s.queue == [] && [] + [n] == [n];
    assert s.workers - (set w | w in s.pending) == s.workers;
    hide From;
    assert Apply(s, Enqueue(n)) == s.(queue := [n], accepted := From(0, n + 1), workers := s.workers[n := Idle],
                                      nextId := n + 1, idle := 1, active := n + 1);
    assert s.workers[n := Idle][n := Busy(n)] == BusyEach(n + 1);
    assert [n][1..] == From(n + 1, 0);
  }

  function More(s: Pool, task: int): Pool {
    s.(queue := s.queue + [task], accepted := s.accepted + [task])
  }

  /** Nobody is started and nobody removed. */
  lemma EnqueueOnly(s: Pool, task: int)
    requires s.active == MAX_THREADS && !s.stop && s.pending == [] && task !in s.accepted
    ensures Enabled(s, Enqueue(task)) && Apply(s, Enqueue(task)) == More(s, task)
  {
    assert s.workers - (set w | w in s.pending) == s.workers;
  }

  lemma MoreFlooded(n: nat, m: nat)
    ensures More(Flooded(n, m), n + m) == Flooded(n, m + 1) && n + m !in Flooded(n, m).accepted
  {
    FromNext(n, m);
    FromNext(0, n + m);
    hide From;
    hide BusyEach;
  }

  lemma FloodOne(n: nat, m: nat)
    requires n == MAX_THREADS
    ensures Enabled(Flooded(n, m), Enqueue(n + m)) && Apply(Flooded(n, m), Enqueue(n + m)) == Flooded(n, m + 1)
  {
    MoreFlooded(n, m);
    var s := Flooded(n, m);
    assert s.active == n && !s.stop && s.pending == [];
    hide *;
    EnqueueOnly(s, n + m);
  }

  lemma {:induction false} FloodReachable(n: nat, m: nat)
    requires n <= MAX_THREADS && (m > 0 ==> n == MAX_THREADS)
    ensures Reachable(0, Flooded(n, m))
    decreases n + m
  {
    hide Apply;
    hide Enabled;
    hide Flooded;
    if m > 0 {
      FloodReachable(n, m - 1);
      FloodOne(n, m - 1);
      ReachNext(0, Flooded(n, m - 1), Enqueue(n + m - 1));
    } else if n > 0 {
      FloodReachable(n - 1, 0);
      HireOne(n - 1);
      ReachNext(0, Flooded(n - 1, 0), Enqueue(n - 1));
      ReachNext(0, Apply(Flooded(n - 1, 0), Enqueue(n - 1)), Take(n - 1));
    } else {
      EmptyReachable();
    }
  }

  lemma EmptyReachable()
    ensures Reachable(0, Flooded(0, 0))
  {
    var states: seq<Pool>, steps: seq<Step> := [Flooded(0, 0)], [];
    assert Flooded(0, 0).workers == Idlers(0);
    assert Run(0, states, steps);
  }

  lemma OneReturning(n: nat, m: nat) returns (s: Pool)
    requires n == MAX_THREADS
    ensures Reachable(0, s) && Enabled(s, Return(0)) && |s.queue| == m
    ensures s.active == MAX_THREADS && s.idle == s.initial == 0
  {
    var before := Flooded(n, m);
    FloodReachable(n, m);
    assert 0 in before.workers && Enabled(before, RunTask(0));
    s := Apply(before, RunTask(0));
    ReachNext(0, before, RunTask(0));
  }

  /** There is a run that is spoilt: with 2^31 tasks waiting, doubling their number wraps to zero, and the
      worker that comes back retires although there is work for it. */
  lemma WrapRetiresTooEarly() returns (s: Pool)
    ensures Reachable(0, s) && |s.queue| == UINT32 / 2 && Enabled(s, Return(0)) && Spoils(s, Return(0))
    ensures Staffed(s) && !Staffed(Apply(s, Return(0)))
  {
    s := OneReturning(MAX_THREADS, UINT32 / 2);
    hide Reachable;
  }

  /** In a pool of no thread, the workers below `k` are busy, the others have retired, and 2^31 tasks wait. */
  ghost predicate Retiring(s: Pool, k: nat) {
    && Reachable(0, s) && |s.queue| == UINT32 / 2 && s.idle == 0 && s.initial == 0
    && (forall w :: w in s.workers && !s.workers[w].Retired? ==> 0 <= w < k)
    && (forall w :: 0 <= w < k ==> w in s.workers && s.workers[w].Busy?)
  }

  lemma RetireOne(s: Pool, k: nat) returns (s': Pool)
    requires Retiring(s, k) && k > 0
    ensures Retiring(s', k - 1)
  {
    hide Reachable;
    ReachNext(0, s, RunTask(k - 1));
    var m := Apply(s, RunTask(k - 1));
    ReachNext(0, m, Return(k - 1));
    s' := Apply(m, Return(k - 1));
    assert s'.workers[k - 1].Retired?;
  }

  lemma {:induction false} RetireAll(s: Pool, k: nat) returns (s': Pool)
    requires Retiring(s, k)
    ensures Retiring(s', 0)
    decreases k
  {
    s' := s;
    if k > 0 {
      hide Retiring;
      s' := RetireOne(s, k);
      s' := RetireAll(s', k - 1);
    }
  }

  lemma FloodedRetiring(n: nat, m: nat)
    requires n == MAX_THREADS && m == UINT32 / 2
    ensures Retiring(Flooded(n, m), n)
  {
    FloodReachable(n, m);
    hide Reachable;
  }

  /** Such a pool may so come to a state where it is stopped, all its workers have left, and the tasks that
      were accepted have not run. */
  lemma WrapStrandsTasks() returns (s: Pool)
    ensures Reachable(0, s) && s.stop && AllLeft(s) && |s.queue| == UINT32 / 2
  {
    FloodedRetiring(MAX_THREADS, UINT32 / 2);
    hide Flooded;
    hide Reachable;
    s := RetireAll(Flooded(MAX_THREADS, UINT32 / 2), MAX_THREADS);
    ReachNext(0, s, Stop);
    s := Apply(s, Stop);
  }

  // ----- The object -----

  /** The pool as the code updates it: every method but the constructor is one section under the mutex
      (running a task, outside it, only leaves a trace in the history). */
  class Threads {
    var mTaskQueue: seq<int>
    var mWorkers: map<int, Worker>
    var mPendingRemoveThreadIds: seq<int>
    var mIdleThreads: int
    var mActiveThreadNum: int
    var mInitThreadNum: int
    var mThreadId: int
    var mStop: bool
    ghost var accepted: seq<int>
    ghost var taken: seq<int>
    ghost var executed: seq<int>

    ghost function View(): Pool
      reads this
    {
      Pool(mTaskQueue, mWorkers, mPendingRemoveThreadIds, mIdleThreads, mActiveThreadNum, mInitThreadNum, mThreadId,
           mStop, accepted, taken, executed)
    }

    constructor (threads: nat)
      ensures Initial(View(), threads)
    {
      var n := if threads > MAX_THREADS then MAX_THREADS else threads;
      mTaskQueue, mPendingRemoveThreadIds, mStop, accepted, taken, executed := [], [], false, [], [], [];
      mThreadId, mIdleThreads, mActiveThreadNum, mInitThreadNum, mWorkers := 0, 0, 0, n, map[];
      new;
      var i := 0;
      while i < n
        invariant 0 <= i <= n && View() == View().(idle := i, active := i, nextId := i, initial := n,
                                                   workers := Idlers(i))
        invariant mTaskQueue == [] && mPendingRemoveThreadIds == [] && !mStop
        invariant accepted == [] && taken == [] && executed == []
      {
        AddThread();
        i := i + 1;
      }
    }

    method AddThread()
      modifies this`mWorkers, this`mThreadId, this`mIdleThreads, this`mActiveThreadNum
      ensures View() == Started(old(View()))
    {
      mWorkers := mWorkers[mThreadId := Idle];
      mThreadId := mThreadId + 1;
      mIdleThreads := mIdleThreads + 1;
      mActiveThreadNum := mActiveThreadNum + 1;
    }

    /** A worker that has been woken: takes a task, or leaves. */
    method Wake(id: int)
      requires id in mWorkers && mWorkers[id].Idle? && (mStop || mTaskQueue != [])
      modifies this
      ensures View() == Apply(old(View()), if old(mTaskQueue) == [] then Exit(id) else Take(id))
    {
      if mStop && mTaskQueue == [] {
        mWorkers := mWorkers[id := Stopped];
        return;
      }
      var task := mTaskQueue[0];
      taken := taken + [task];
      mTaskQueue := mTaskQueue[1..];
      mWorkers := mWorkers[id := Busy(task)];
      mIdleThreads := mIdleThreads - 1;
    }

    method RunTaken(id: int)
      requires id in mWorkers && mWorkers[id].Busy?
      modifies this
      ensures View() == Apply(old(View()), RunTask(id))
    {
      executed := executed + [mWorkers[id].task];
      mWorkers := mWorkers[id := Returning];
    }

    /** Back under the mutex after a task. */
    method ComeBack(id: int)
      requires id in mWorkers && mWorkers[id].Returning?
      modifies this
      ensures View() == Apply(old(View()), Return(id))
    {
      mIdleThreads := mIdleThreads + 1;
      var beNeededThreadNum := |mTaskQueue| * 2 % UINT32;
      if mIdleThreads > mInitThreadNum && mIdleThreads > beNeededThreadNum {
        mIdleThreads := mIdleThreads - 1;
        mActiveThreadNum := mActiveThreadNum - 1;
        mPendingRemoveThreadIds := mPendingRemoveThreadIds + [id];
        mWorkers := mWorkers[id := Retired];
      } else {
        mWorkers := mWorkers[id := Idle];
      }
    }

    /** Refuses tasks once stopped; otherwise erases the retired workers, queues the task, and starts a
        worker if too few wait. */
    method Submit(task: int) returns (result: int)
      requires task !in accepted
      modifies this
      ensures View() == Apply(old(View()), Enqueue(task)) && result == if old(mStop) then -1 else 0
    {
      if mStop {
        return -1;
      }
      ghost var before := View();
      while |mPendingRemoveThreadIds| > 0
        invariant mPendingRemoveThreadIds <= before.pending
        invariant mWorkers == before.workers - (set w | w in before.pending[|mPendingRemoveThreadIds|..])
        invariant View() == before.(pending := mPendingRemoveThreadIds, workers := mWorkers)
        decreases |mPendingRemoveThreadIds|
      {
        var n := |mPendingRemoveThreadIds|;
        var threadId := mPendingRemoveThreadIds[n - 1];
        assert before.pending[n - 1..] == [threadId] + before.pending[n..];
        mWorkers := mWorkers - {threadId};
        mPendingRemoveThreadIds := mPendingRemoveThreadIds[..n - 1];
      }
      assert before.pending[0..] == before.pending;
      mTaskQueue := mTaskQueue + [task];
      accepted := accepted + [task];
      assert View() == Reaped(before).(queue := before.queue + [task], accepted := before.accepted + [task]);
      if mActiveThreadNum < MAX_THREADS && |mTaskQueue| % UINT32 > mIdleThreads {
        AddThread();
      }
      result := 0;
    }

    method Shutdown()
      modifies this`mStop
      ensures View() == Apply(old(View()), Stop)
    {
      mStop := true;
    }
  }
}
