/** The pool of internal images: a buffer manager that counts and accounts for buffers, and a queue of idle
    images that grows on demand and is trimmed from time to time. */
module BufferPool {
  import opened Collections

  const MAX_BUFFERS := 20

  /** How far the one thread that holds the acquire lock is with growing the pool: a buffer has been allocated
      and its memory accounted for, it has been listed, it has been counted. */
  datatype Growth = Resting | Measured | Listed | Counted

  /** `sizes` are the live buffers: `rising` ones still to be listed, `free` and `out` as the lists have them,
      `freeing` ones off the lists but not yet freed; `uncounted` ones have been freed but not taken off the
      count. Idle images may be on their way: `fetched` ones to a user, `returning` ones to the queue, `dropped`
      ones to destruction. `popping` is the thread that trims the queue between looking and popping. */
  datatype Pool = Pool(
    rising: seq<int>, free: seq<int>, out: seq<int>, freeing: seq<int>, sizes: map<int, int>,
    count: int, uncounted: nat, memory: int, growth: Growth,
    handleOf: map<int, int>, useCount: map<int, int>, queue: seq<int>,
    fetched: set<int>, returning: set<int>, dropped: set<int>, popping: bool)

  datatype Step =
    | Measure(handle: int, size: int) | List | Count | NewImage(image: int)
    | Fetch | Use(image: int) | Share(image: int) | LetGo(image: int) | PushBack(image: int)
    | CheckSize | TryReclaim | Unlist(image: int) | Free(buffer: int) | Uncount

  predicate Enabled(s: Pool, a: Step) {
    match a
    case Measure(h, _) => s.growth.Resting? && s.count < MAX_BUFFERS && h !in s.sizes
    case List => s.growth.Measured?
    case Count => s.growth.Listed?
    case NewImage(i) => s.growth.Counted? && s.free != [] && i !in s.useCount
    case Fetch => s.queue != []
    case Use(i) => i in s.fetched && i in s.useCount
    case Share(i) => i in s.useCount && s.useCount[i] > 0
    case LetGo(i) => i in s.useCount && s.useCount[i] > 0
    case PushBack(i) => i in s.returning
    case CheckSize => !s.popping
    case TryReclaim => s.popping
    case Unlist(i) => i in s.dropped && i in s.handleOf
    case Free(h) => h in s.freeing && h in s.sizes
    case Uncount => s.uncounted > 0
  }

  function Erased(q: seq<int>, x: int): (r: seq<int>)
    ensures multiset(r) == multiset(q) - multiset{x}
  {
    if q == [] then []
    else
      assert q == [q[0]] + q[1..];
      if q[0] == x then q[1..] else [q[0]] + Erased(q[1..], x)
  }

  function Apply(s: Pool, a: Step): Pool
    requires Enabled(s, a)
  {
    match a
    case Measure(h, size) =>
      s.(rising := s.rising + [h], sizes := s.sizes[h := size], memory := s.memory + size, growth := Measured)
    case List => s.(rising := [], free := s.free + s.rising, growth := Listed)
    case Count => s.(count := s.count + 1, growth := Counted)
    case NewImage(i) =>
      s.(handleOf := s.handleOf[i := s.free[0]], out := s.out + [s.free[0]], free := s.free[1..],
         useCount := s.useCount[i := 0], returning := s.returning + {i}, growth := Resting)
    case Fetch => s.(queue := s.queue[1..], fetched := s.fetched + {s.queue[0]})
    case Use(i) => s.(fetched := s.fetched - {i}, useCount := s.useCount[i := s.useCount[i] + 1])
    case Share(i) => s.(useCount := s.useCount[i := s.useCount[i] + 1])
    case LetGo(i) =>
      var left := s.useCount[i] - 1;
      s.(useCount := s.useCount[i := left], returning := if left == 0 then s.returning + {i} else s.returning)
    case PushBack(i) => s.(returning := s.returning - {i}, queue := s.queue + [i])
    case CheckSize => s.(popping := |s.queue| > 1)
    case TryReclaim =>
      if s.queue == [] then s.(popping := false)
      else s.(popping := false, queue := s.queue[1..], dropped := s.dropped + {s.queue[0]})
    case Unlist(i) =>
      var h := s.handleOf[i];
      s.(dropped := s.dropped - {i}, handleOf := s.handleOf - {i}, useCount := s.useCount - {i},
         out := Erased(s.out, h), freeing := s.freeing + [h])
    case Free(h) =>
      s.(freeing := Erased(s.freeing, h), sizes := s.sizes - {h}, memory := s.memory - s.sizes[h],
         uncounted := s.uncounted + 1)
    case Uncount => s.(uncounted := s.uncounted - 1, count := s.count - 1)
  }

  // ----- The invariant -----

  function Live(s: Pool): nat { |s.rising| + |s.free| + |s.out| + |s.freeing| }

  /** Counted or about to be counted, never more buffers than the bound. */
  ghost predicate CountOk(s: Pool) {
    && s.count + (if s.growth.Measured? || s.growth.Listed? then 1 else 0) == Live(s) + s.uncounted
    && s.count + (if s.growth.Measured? || s.growth.Listed? then 1 else 0) <= MAX_BUFFERS
    && |s.rising| == (if s.growth.Measured? then 1 else 0)
    && |s.free| == (if s.growth.Listed? || s.growth.Counted? then 1 else 0)
  }

  /** In how many places a buffer is. */
  function Places(s: Pool, h: int): nat {
    multiset(s.rising)[h] + multiset(s.free)[h] + multiset(s.out)[h] + multiset(s.freeing)[h]
  }

  /** Each live buffer is in one place, and the memory total is theirs. */
  ghost predicate BuffersOk(s: Pool) {
    && (forall h :: Places(s, h) == if h in s.sizes then 1 else 0)
    && s.memory == Sum(s.sizes)
  }

  /** Every buffer in flight belongs to one image. */
  ghost predicate HandlesOk(s: Pool) {
    && s.handleOf.Keys == s.useCount.Keys
    && (forall i :: i in s.handleOf ==> s.handleOf[i] in s.out)
    && (forall i, j :: i in s.handleOf && j in s.handleOf && i != j ==> s.handleOf[i] != s.handleOf[j])
    && |s.handleOf| == |s.out|
  }

  predicate InOnePlace(s: Pool, i: int) {
    (if i in s.queue then 1 else 0) + (if i in s.fetched then 1 else 0)
    + (if i in s.returning then 1 else 0) + (if i in s.dropped then 1 else 0)
    == if i in s.useCount && s.useCount[i] == 0 then 1 else 0
  }

  /** An image is in the queue, or on its way, exactly when nobody uses it. */
  ghost predicate IdleOk(s: Pool) {
    && NoDuplicates(s.queue) && (forall i :: InOnePlace(s, i))
    && (forall i :: i in s.useCount ==> s.useCount[i] >= 0)
  }

  ghost predicate Inv(s: Pool) {
    CountOk(s) && BuffersOk(s) && HandlesOk(s) && IdleOk(s)
  }

  lemma SumMore(sizes: map<int, int>, h: int, size: int)
    requires h !in sizes
    ensures Sum(sizes[h := size]) == Sum(sizes) + size
  {
    SumAt(sizes[h := size], h);
    assert sizes[h := size] - {h} == sizes;
  }

  // ----- It is kept -----

  lemma ErasedSize(q: seq<int>, x: int)
    requires x in q
    ensures |Erased(q, x)| == |q| - 1
  {
    assert x in multiset(q);
    assert |Erased(q, x)| == |multiset(Erased(q, x))| == |multiset(q)| - 1;
  }

  lemma CountKept(s: Pool, a: Step)
    requires CountOk(s) && HandlesOk(s) && Enabled(s, a)
    ensures CountOk(Apply(s, a))
  {
    hide Erased;
    if a.Unlist? {
      ErasedSize(s.out, s.handleOf[a.image]);
    } else if a.Free? {
      ErasedSize(s.freeing, a.buffer);
    } else if a.Measure? || a.List? || a.Count? || a.NewImage? {
      GrowthCount(s, a);
    } else {
      assert Live(Apply(s, a)) == Live(s);
    }
  }

  lemma GrowthCount(s: Pool, a: Step)
    requires CountOk(s) && Enabled(s, a) && (a.Measure? || a.List? || a.Count? || a.NewImage?)
    ensures CountOk(Apply(s, a))
  {
    hide Erased;
  }

  lemma ErasedCounts(q: seq<int>, x: int, h: int)
    requires x in q
    ensures multiset(Erased(q, x))[h] == multiset(q)[h] - if h == x then 1 else 0
  {
    assert x in multiset(q);
  }

  /** A buffer that changes its place. */
  lemma PlaceListed(s: Pool, h: int)
    requires CountOk(s) && Enabled(s, List)
    ensures Places(Apply(s, List), h) == Places(s, h)
  {
    assert s.free == [] && s.free + s.rising == s.rising;
    assert multiset(s.free)[h] == 0;
  }

  lemma PlaceNew(s: Pool, i: int, h: int)
    requires Enabled(s, NewImage(i))
    ensures Places(Apply(s, NewImage(i)), h) == Places(s, h)
  {
    HeadCount(s.free, h);
    AppendCount(s.out, s.free[0], h);
  }

  lemma PlaceUnlisted(s: Pool, i: int, h: int)
    requires HandlesOk(s) && Enabled(s, Unlist(i))
    ensures Places(Apply(s, Unlist(i)), h) == Places(s, h)
  {
    ErasedCounts(s.out, s.handleOf[i], h);
    AppendCount(s.freeing, s.handleOf[i], h);
  }

  lemma PlaceUntouched(s: Pool, a: Step, h: int)
    requires Enabled(s, a) && !a.Measure? && !a.List? && !a.NewImage? && !a.Unlist? && !a.Free?
    ensures Places(Apply(s, a), h) == Places(s, h)
  {
    var s' := Apply(s, a);
    assert s'.rising == s.rising && s'.free == s.free && s'.out == s.out && s'.freeing == s.freeing;
  }

  lemma PlaceMeasured(s: Pool, b: int, size: int, h: int)
    requires Enabled(s, Measure(b, size))
    ensures Places(Apply(s, Measure(b, size)), h) == Places(s, h) + if h == b then 1 else 0
  {
    AppendCount(s.rising, b, h);
  }

  lemma PlaceFreed(s: Pool, b: int, h: int)
    requires Enabled(s, Free(b))
    ensures Places(Apply(s, Free(b)), h) == Places(s, h) - if h == b then 1 else 0
  {
    ErasedCounts(s.freeing, b, h);
  }

  lemma BuffersAdd(s: Pool, b: int, size: int)
    requires BuffersOk(s) && Enabled(s, Measure(b, size))
    ensures BuffersOk(Apply(s, Measure(b, size)))
  {
    var s' := Apply(s, Measure(b, size));
    SumMore(s.sizes, b, size);
    hide Sum;
    hide Places;
    forall h ensures Places(s', h) == if h in s'.sizes then 1 else 0 {
      PlaceMeasured(s, b, size, h);
    }
  }

  lemma BuffersLess(s: Pool, s': Pool, b: int)
    requires BuffersOk(s) && b in s.sizes && s'.sizes == s.sizes - {b} && s'.memory == s.memory - s.sizes[b]
    requires forall h :: Places(s', h) == Places(s, h) - if h == b then 1 else 0
    ensures BuffersOk(s')
  {
    hide Sum;
    hide Places;
    SumAt(s.sizes, b);
  }

  lemma BuffersFree(s: Pool, b: int)
    requires BuffersOk(s) && Enabled(s, Free(b))
    ensures BuffersOk(Apply(s, Free(b)))
  {
    var s' := Apply(s, Free(b));
    assert b in s.sizes && s'.sizes == s.sizes - {b} && s'.memory == s.memory - s.sizes[b];
    hide *;
    forall h ensures Places(s', h) == Places(s, h) - if h == b then 1 else 0 {
      PlaceFreed(s, b, h);
    }
    BuffersLess(s, s', b);
  }

  lemma PlaceKept(s: Pool, a: Step, h: int)
    requires CountOk(s) && HandlesOk(s) && Enabled(s, a) && !a.Measure? && !a.Free?
    ensures Places(Apply(s, a), h) == Places(s, h)
  {
    hide *;
    match a
    case List => PlaceListed(s, h);
    case NewImage(i) => PlaceNew(s, i, h);
    case Unlist(i) => PlaceUnlisted(s, i, h);
    case _ => PlaceUntouched(s, a, h);
  }

  lemma BuffersFrame(s: Pool, s': Pool)
    requires BuffersOk(s) && s'.sizes == s.sizes && s'.memory == s.memory && forall h :: Places(s', h) == Places(s, h)
    ensures BuffersOk(s')
  {
    hide Places;
    hide Sum;
  }

  lemma SizesKept(s: Pool, a: Step)
    requires Enabled(s, a)
    ensures !a.Measure? && !a.Free? ==> Apply(s, a).sizes == s.sizes && Apply(s, a).memory == s.memory
  {
    hide Erased;
  }

  lemma BuffersKept(s: Pool, a: Step)
    requires CountOk(s) && BuffersOk(s) && HandlesOk(s) && Enabled(s, a)
    ensures BuffersOk(Apply(s, a))
  {
    var s' := Apply(s, a);
    SizesKept(s, a);
    hide *;
    if a.Measure? {
      BuffersAdd(s, a.handle, a.size);
    } else if a.Free? {
      BuffersFree(s, a.buffer);
    } else {
      forall h ensures Places(s', h) == Places(s, h) {
        PlaceKept(s, a, h);
      }
      BuffersFrame(s, s');
    }
  }

  lemma HandlesNew(s: Pool, i: int)
    requires CountOk(s) && BuffersOk(s) && HandlesOk(s) && Enabled(s, NewImage(i))
    ensures HandlesOk(Apply(s, NewImage(i)))
  {
    var h := s.free[0];
    assert Places(s, h) == if h in s.sizes then 1 else 0;
    assert h in multiset(s.free) && h !in multiset(s.out);
    assert h !in s.out;
  }

  lemma HandlesUnlist(s: Pool, i: int)
    requires HandlesOk(s) && Enabled(s, Unlist(i))
    ensures HandlesOk(Apply(s, Unlist(i)))
  {
    var h, s' := s.handleOf[i], Apply(s, Unlist(i));
    ErasedSize(s.out, h);
    forall j | j in s'.handleOf ensures s'.handleOf[j] in s'.out {
      assert s.handleOf[j] in multiset(s.out) && s.handleOf[j] != h;
      assert s.handleOf[j] in multiset(s'.out);
    }
    assert (s.handleOf - {i}).Keys == s.handleOf.Keys - {i};
    assert |s.handleOf| == |s.handleOf.Keys| && |s.handleOf - {i}| == |(s.handleOf - {i}).Keys|;
  }

  /** The head of the queue goes on its way. */
  lemma IdleHead(s: Pool, a: Step)
    requires IdleOk(s) && Enabled(s, a) && (a.Fetch? || a.TryReclaim?) && s.queue != []
    ensures IdleOk(Apply(s, a))
  {
    var s' := Apply(s, a);
    hide Erased;
    TailDistinct(s.queue);
    assert InOnePlace(s, s.queue[0]);
    forall i ensures InOnePlace(s', i) {
      assert InOnePlace(s, i);
    }
  }

  lemma IdleKept(s: Pool, a: Step)
    requires IdleOk(s) && Enabled(s, a) && HandlesOk(s)
    ensures IdleOk(Apply(s, a))
  {
    hide Erased;
    if (a.Fetch? || a.TryReclaim?) && s.queue != [] {
      IdleHead(s, a);
    } else if a.PushBack? {
      IdleBack(s, a);
    } else {
      assert Apply(s, a).queue == s.queue;
      forall i ensures InOnePlace(Apply(s, a), i) {
        assert InOnePlace(s, i);
      }
    }
  }

  lemma IdleBack(s: Pool, a: Step)
    requires IdleOk(s) && Enabled(s, a) && a.PushBack?
    ensures IdleOk(Apply(s, a))
  {
    assert InOnePlace(s, a.image);
    AppendDistinct(s.queue, a.image);
    forall i ensures InOnePlace(Apply(s, a), i) {
      assert InOnePlace(s, i);
    }
  }

  lemma HandlesKept(s: Pool, a: Step)
    requires CountOk(s) && BuffersOk(s) && HandlesOk(s) && Enabled(s, a)
    ensures HandlesOk(Apply(s, a))
  {
    if a.NewImage? {
      HandlesNew(s, a.image);
    } else if a.Unlist? {
      HandlesUnlist(s, a.image);
    } else {
      hide CountOk;
      hide BuffersOk;
    }
  }

  lemma StepInv(s: Pool, a: Step)
    requires Inv(s) && Enabled(s, a)
    ensures Inv(Apply(s, a))
  {
    hide CountOk;
    hide IdleOk;
    hide BuffersOk;
    hide HandlesOk;
    hide Enabled;
    hide Apply;
    CountKept(s, a);
    IdleKept(s, a);
    BuffersKept(s, a);
    HandlesKept(s, a);
  }

  // ----- Runs -----

  predicate Initial(s: Pool) {
    s == Pool([], [], [], [], map[], 0, 0, 0, Resting, map[], map[], [], {}, {}, {}, false)
  }

  lemma NothingCounted(s: Pool)
    requires Initial(s)
    ensures CountOk(s)
  {
  }

  lemma NoHandles(s: Pool)
    requires Initial(s)
    ensures HandlesOk(s)
  {
  }

  lemma NothingIdle(s: Pool)
    requires Initial(s)
    ensures IdleOk(s)
  {
    forall i ensures InOnePlace(s, i) {
    }
  }

  lemma NoBuffers(s: Pool)
    requires Initial(s)
    ensures BuffersOk(s)
  {
    assert s.sizes.Keys == {};
  }

  lemma InitialInv(s: Pool)
    requires Initial(s)
    ensures Inv(s)
  {
    hide CountOk;
    hide HandlesOk;
    hide IdleOk;
    hide BuffersOk;
    NothingCounted(s);
    NoHandles(s);
    NothingIdle(s);
    NoBuffers(s);
  }

  ghost predicate Stepped(s: Pool, a: Step, s': Pool) {
    Enabled(s, a) && s' == Apply(s, a)
  }

  /** Any threads, in any interleaving of their locked sections, from an empty pool. */
  ghost predicate Run(states: seq<Pool>, steps: seq<Step>) {
    && |states| == |steps| + 1 && Initial(states[0])
    && forall k :: 0 <= k < |steps| ==> Stepped(states[k], steps[k], states[k + 1])
  }

  lemma {:induction false} RunInv(states: seq<Pool>, steps: seq<Step>, k: nat)
    requires Run(states, steps) && k < |states|
    ensures Inv(states[k])
  {
    hide Inv;
    if k > 0 {
      RunInv(states, steps, k - 1);
      assert Stepped(states[k - 1], steps[k - 1], states[k]);
      StepInv(states[k - 1], steps[k - 1]);
    } else {
      InitialInv(states[0]);
    }
  }

  /** In every state: the bound holds for the buffers themselves; when no allocation or release is under
      way the count is free plus in flight; the memory total is that of the live buffers; an image in use
      has a live buffer of its own and is not on its way anywhere; and what is being destroyed is idle. */
  lemma PoolSafe(states: seq<Pool>, steps: seq<Step>, k: nat)
    requires Run(states, steps) && k < |states|
    ensures var s := states[k];
            && |s.sizes| <= MAX_BUFFERS && s.memory == Sum(s.sizes)
            && ((s.growth.Resting? || s.growth.Counted?) && s.freeing == [] && s.uncounted == 0 ==>
                  s.count == |s.free| + |s.out| == |s.sizes|)
            && (forall i :: i in s.useCount && s.useCount[i] > 0 ==>
                              i in s.handleOf && s.handleOf[i] in s.sizes && i !in s.queue && i !in s.dropped)
            && (forall i, j :: i in s.handleOf && j in s.handleOf && i != j ==> s.handleOf[i] != s.handleOf[j])
            && (forall i :: i in s.dropped ==> i in s.useCount && s.useCount[i] == 0 && Enabled(s, Unlist(i)))
            && (forall i :: i in s.useCount && i !in s.fetched && i !in s.returning && i !in s.dropped ==>
                              (i in s.queue <==> s.useCount[i] == 0))
  {
    var s := states[k];
    RunInv(states, steps, k);
    LiveCount(s);
    forall i
      ensures i in s.useCount && s.useCount[i] > 0 ==>
                i in s.handleOf && s.handleOf[i] in s.sizes && i !in s.queue && i !in s.dropped
      ensures i in s.dropped ==> i in s.useCount && s.useCount[i] == 0 && Enabled(s, Unlist(i))
      ensures i in s.useCount && i !in s.fetched && i !in s.returning && i !in s.dropped ==>
                (i in s.queue <==> s.useCount[i] == 0)
    {
      assert InOnePlace(s, i);
      if i in s.useCount {
        HasBuffer(s, i);
      }
    }
  }

  lemma HasBuffer(s: Pool, i: int)
    requires BuffersOk(s) && HandlesOk(s) && i in s.useCount
    ensures i in s.handleOf && s.handleOf[i] in s.sizes
  {
    var h := s.handleOf[i];
    assert Places(s, h) == if h in s.sizes then 1 else 0;
    assert h in multiset(s.out);
  }

  lemma LiveCount(s: Pool)
    requires BuffersOk(s)
    ensures |s.sizes| == Live(s)
  {
    var places := multiset(s.rising) + multiset(s.free) + multiset(s.out) + multiset(s.freeing);
    forall h ensures places[h] == multiset(s.sizes.Keys)[h] {
      assert places[h] == Places(s, h);
    }
    assert places == multiset(s.sizes.Keys);
    assert |places| == Live(s) && |multiset(s.sizes.Keys)| == |s.sizes.Keys| == |s.sizes|;
  }

  // ----- The object -----

  datatype Image = NoImage | Image(id: int)

  /** The state after a step, which keeps the invariant. */
  lemma Took(s: Pool, a: Step) returns (s': Pool)
    requires Inv(s) && Enabled(s, a)
    ensures s' == Apply(s, a) && Inv(s')
  {
    StepInv(s, a);
    s' := Apply(s, a);
  }

  /** The wrapper and its manager as one thread runs them; the hands are empty between calls. */
  class BufferQueueWrapper {
    var mBufferList: seq<int>
    var mBufferOutList: seq<int>
    var mSizes: map<int, int>
    var mNumBuffers: int
    var mTotalIonMem: int
    var mHandles: map<int, int>
    var mUseCounts: map<int, int>
    var mBufferQueue: seq<int>

    ghost function View(): Pool
      reads this
    {
      Pool([], mBufferList, mBufferOutList, [], mSizes, mNumBuffers, 0, mTotalIonMem, Resting, mHandles, mUseCounts,
           mBufferQueue, {}, {}, {}, false)
    }

    constructor ()
      ensures Initial(View()) && Inv(View())
    {
      mBufferList, mBufferOutList, mSizes, mNumBuffers, mTotalIonMem := [], [], map[], 0, 0;
      mHandles, mUseCounts, mBufferQueue := map[], map[], [];
      new;
      InitialInv(View());
      hide Inv;
    }

    /** One more image, unless the bound is reached or no memory is left. `handle` and `image` are new. */
    method IncreaseImageQueue(memory: bool, handle: int, size: int, image: int) returns (ok: bool)
      requires Inv(View()) && handle !in mSizes && image !in mUseCounts
      modifies this
      ensures Inv(View()) && ok == (old(mNumBuffers) < MAX_BUFFERS && memory)
      ensures ok ==> mBufferQueue == old(mBufferQueue) + [image] && mUseCounts == old(mUseCounts)[image := 0]
                     && mSizes == old(mSizes)[handle := size]
      ensures !ok ==> View() == old(View())
    {
      hide Inv;
      if mNumBuffers >= MAX_BUFFERS || !memory {
        return false;
      }
      NothingFree(View());
      ghost var s := Took(View(), Measure(handle, size));
      mSizes, mTotalIonMem := mSizes[handle := size], mTotalIonMem + size;
      s := Took(s, List);
      mBufferList := mBufferList + [handle];
      s := Took(s, Count);
      mNumBuffers := mNumBuffers + 1;
      s := Took(s, NewImage(image));
      mBufferOutList, mHandles := mBufferOutList + [mBufferList[0]], mHandles[image := mBufferList[0]];
      mBufferList := mBufferList[1..];
      mUseCounts := mUseCounts[image := 0];
      s := Took(s, PushBack(image));
      mBufferQueue := mBufferQueue + [image];
      assert {} + {image} - {image} == {};
      assert [] + [handle] == [handle] && View() == s;
      ok := true;
    }

    /** An idle image, from the queue or new; none when all images the bound allows are busy (there the code
        waits). Its use count is then one. */
    method DequeueBuffer(memory: bool, handle: int, size: int, image: int) returns (r: Image)
      requires Inv(View()) && handle !in mSizes && image !in mUseCounts
      modifies this
      ensures Inv(View())
      ensures r == if old(mBufferQueue) != [] then Image(old(mBufferQueue)[0])
                   else if old(mNumBuffers) < MAX_BUFFERS && memory then Image(image) else NoImage
      ensures r.Image? ==> r.id in mUseCounts && mUseCounts[r.id] == 1
                           && mBufferQueue == if old(mBufferQueue) == [] then [] else old(mBufferQueue)[1..]
    {
      hide Inv;
      if mBufferQueue == [] {
        var ok := IncreaseImageQueue(memory, handle, size, image);
      }
      if mBufferQueue == [] {
        return NoImage;
      }
      HeadIdle(View());
      var id := mBufferQueue[0];
      ghost var s := Took(View(), Fetch);
      mBufferQueue := mBufferQueue[1..];
      s := Took(s, Use(id));
      mUseCounts := mUseCounts[id := mUseCounts[id] + 1];
      assert {} + {id} - {id} == {};
      assert View() == s;
      r := Image(id);
    }

    /** One user less; the last one puts the image back. */
    method EnqueueBuffer(id: int)
      requires Inv(View()) && id in mUseCounts && mUseCounts[id] > 0
      modifies this`mUseCounts, this`mBufferQueue
      ensures Inv(View()) && mUseCounts == old(mUseCounts)[id := old(mUseCounts)[id] - 1]
      ensures mBufferQueue == if old(mUseCounts)[id] == 1 then old(mBufferQueue) + [id] else old(mBufferQueue)
    {
      hide Inv;
      ghost var s := Took(View(), LetGo(id));
      mUseCounts := mUseCounts[id := mUseCounts[id] - 1];
      if mUseCounts[id] == 0 {
        s := Took(s, PushBack(id));
        mBufferQueue := mBufferQueue + [id];
        assert {} + {id} - {id} == {};
      }
      assert View() == s;
    }

    /** Above the threshold, idle images are destroyed until one is left; images in use stay. */
    method ClearOutThresholdBuffer(threshold: int)
      requires Inv(View())
      modifies this
      ensures Inv(View())
      ensures old(mNumBuffers) > threshold ==> |mBufferQueue| <= 1
      ensures old(mNumBuffers) <= threshold ==> View() == old(View())
      ensures exists n :: 0 <= n <= |old(mBufferQueue)| && mBufferQueue == old(mBufferQueue)[n..]
      ensures forall i :: i in old(mUseCounts) && old(mUseCounts)[i] > 0 ==>
                            i in mUseCounts && mUseCounts[i] == old(mUseCounts)[i]
                            && i in mHandles && i in old(mHandles) && mHandles[i] == old(mHandles)[i]
    {
      hide Inv;
      UsedHaveHandles(View());
      ghost var n := 0;
      if mNumBuffers > threshold {
        while |mBufferQueue| > 1
          invariant Inv(View()) && 0 <= n <= |old(mBufferQueue)| && mBufferQueue == old(mBufferQueue)[n..]
          invariant forall i :: i in old(mUseCounts) && old(mUseCounts)[i] > 0 ==>
                                  i in mUseCounts && mUseCounts[i] == old(mUseCounts)[i]
                                  && i in mHandles && i in old(mHandles) && mHandles[i] == old(mHandles)[i]
          decreases |mBufferQueue|
        {
          DestroyHead();
          n := n + 1;
        }
      }
      assert mBufferQueue == old(mBufferQueue)[n..];
    }

    /** An idle image leaves the queue and gives up its buffer. */
    method DestroyHead()
      requires Inv(View()) && |mBufferQueue| > 1
      modifies this
      ensures Inv(View()) && mBufferQueue == old(mBufferQueue)[1..]
      ensures mUseCounts == old(mUseCounts) - {old(mBufferQueue)[0]} && mHandles == old(mHandles) - {old(mBufferQueue)[0]}
      ensures old(mBufferQueue)[0] in old(mUseCounts) && old(mUseCounts)[old(mBufferQueue)[0]] == 0
    {
      hide Inv;
      HeadIdle(View());
      var id := mBufferQueue[0];
      ghost var s := Trimmed(View());
      hide Enabled;
      hide Apply;
      mBufferQueue := mBufferQueue[1..];
      var handle := mHandles[id];
      mHandles, mUseCounts, mBufferOutList := mHandles - {id}, mUseCounts - {id}, Erased(mBufferOutList, handle);
      mTotalIonMem, mSizes := mTotalIonMem - mSizes[handle], mSizes - {handle};
      mNumBuffers := mNumBuffers - 1;
    }
  }

  /** Look, pop, unlist, free, uncount: what it comes to when no other thread is about. */
  lemma Trimmed(s: Pool) returns (s': Pool)
    requires Inv(s) && |s.queue| > 1 && !s.popping && s.dropped == {} && s.freeing == [] && s.uncounted == 0
    ensures Inv(s') && s.queue[0] in s.handleOf && s.handleOf[s.queue[0]] in s.sizes
    ensures var i := s.queue[0]; var h := s.handleOf[i];
            s' == s.(queue := s.queue[1..], handleOf := s.handleOf - {i}, useCount := s.useCount - {i},
                     out := Erased(s.out, h), sizes := s.sizes - {h}, memory := s.memory - s.sizes[h],
                     count := s.count - 1)
  {
    hide Inv;
    var i := s.queue[0];
    s' := Took(s, CheckSize);
    s' := Took(s', TryReclaim);
    assert s' == s.(queue := s.queue[1..], dropped := {i});
    s' := Destroyed(s', i);
  }

  /** The second half of it. */
  lemma Destroyed(s: Pool, i: int) returns (s': Pool)
    requires Inv(s) && s.dropped == {i} && s.freeing == [] && s.uncounted == 0
    ensures Inv(s') && i in s.handleOf && s.handleOf[i] in s.sizes
    ensures var h := s.handleOf[i];
            s' == s.(dropped := {}, handleOf := s.handleOf - {i}, useCount := s.useCount - {i},
                     out := Erased(s.out, h), sizes := s.sizes - {h}, memory := s.memory - s.sizes[h],
                     count := s.count - 1)
  {
    hide Inv;
    DroppedReady(s, i);
    var h := s.handleOf[i];
    Unlisted(s, i);
    s' := Took(s, Unlist(i));
    hide Apply;
    Freed(s', h);
    s' := Took(s', Free(h));
    Uncounted(s');
    s' := Took(s', Uncount);
  }

  lemma Unlisted(s: Pool, i: int)
    requires Enabled(s, Unlist(i)) && s.dropped == {i} && s.freeing == []
    ensures var h := s.handleOf[i];
            Apply(s, Unlist(i)) == s.(dropped := {}, handleOf := s.handleOf - {i}, useCount := s.useCount - {i},
                                      out := Erased(s.out, h), freeing := [h])
  {
    hide Erased;
    var s', h := Apply(s, Unlist(i)), s.handleOf[i];
    assert s'.dropped == {} && s'.freeing == [h] && s'.handleOf == s.handleOf - {i} && s'.useCount == s.useCount - {i};
    assert s'.out == Erased(s.out, h);
  }

  lemma Freed(s: Pool, h: int)
    requires h in s.sizes && s.freeing == [h]
    ensures Enabled(s, Free(h))
    ensures Apply(s, Free(h)) == s.(freeing := [], sizes := s.sizes - {h}, memory := s.memory - s.sizes[h],
                                    uncounted := s.uncounted + 1)
  {
    assert Erased([h], h) == [];
  }

  lemma Uncounted(s: Pool)
    requires s.uncounted == 1
    ensures Enabled(s, Uncount) && Apply(s, Uncount) == s.(uncounted := 0, count := s.count - 1)
  {
  }

  lemma NothingFree(s: Pool)
    requires Inv(s) && s.growth.Resting?
    ensures s.free == []
  {
  }

  lemma HeadIdle(s: Pool)
    requires Inv(s) && s.queue != []
    ensures s.queue[0] in s.useCount && s.useCount[s.queue[0]] == 0
  {
    assert InOnePlace(s, s.queue[0]);
  }

  lemma DroppedReady(s: Pool, i: int)
    requires Inv(s) && i in s.dropped
    ensures Enabled(s, Unlist(i)) && s.handleOf[i] in s.sizes
  {
    assert InOnePlace(s, i);
    HasBuffer(s, i);
  }

  lemma UsedHaveHandles(s: Pool)
    requires Inv(s)
    ensures s.handleOf.Keys == s.useCount.Keys
  {
  }
}
