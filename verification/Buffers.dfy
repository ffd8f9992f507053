/** Ownership of images: every image a pipeline touches sits in one of its queues, or in a local
    variable of some thread, once for each unit of its use count. */
module Buffers {
  import opened Collections
  import opened Links
  import opened Scheduler
  import SchedulerRuns

  datatype Option<+T> = None | Some(value: T)

  /** The queues of one pipeline: one per source port, and three per node port. */
  datatype Slot =
    | Source(port: int)
    | Input(node: string, inPort: int)
    | Using(node: string, inPort: int)
    | Output(node: string, outPort: int)

  datatype ImageType = SourceImage | InternalImage | SinkImage | VirtualSinkImage

  /** `hand` holds the images in local variables of all threads, `returned` lists the images given back
      to the application, `pool` the idle internal images. */
  datatype Space = Space(
    queues: map<Slot, seq<int>>, closed: set<Slot>,
    useCount: map<int, int>, kind: map<int, ImageType>,
    pool: seq<int>, returned: seq<int>, hand: multiset<int>)

  // ---------------------------------------------------------------- atomic operations

  datatype Op =
    | Arrive(image: int)                       // the application submits a frame
    | Grow(image: int)                         // a new idle internal image
    | AcquireInternal
    | AcquireSink(image: int, sink: ImageType)
    | Pop(slot: Slot)
    | Push(image: int, slot: Slot)
    | Share(image: int)                        // increaseUseCount for one more holder
    | Release(image: int)
    | Close(slot: Slot)

  predicate Enabled(s: Space, op: Op) {
    match op
    case Arrive(m) => m !in s.useCount
    case Grow(m) => m !in s.useCount
    case AcquireInternal => s.pool != [] && s.pool[0] in s.useCount
    case AcquireSink(m, k) => m !in s.useCount && (k.SinkImage? || k.VirtualSinkImage?)
    case Pop(q) => q in s.queues && s.queues[q] != []
    case Push(m, q) => m in s.hand && (q in s.queues || q.Source?)
    case Share(m) => m in s.hand && m in s.useCount
    case Release(m) => m in s.hand && m in s.useCount && m in s.kind
    case Close(q) => q.Source?
  }

  /** A source port that is named for the first time gets a new queue. */
  function QueueAt(queues: map<Slot, seq<int>>, q: Slot): seq<int> {
    if q in queues then queues[q] else []
  }

  function Apply(s: Space, op: Op): Space
    requires Enabled(s, op)
  {
    match op
    case Arrive(m) =>
      s.(useCount := s.useCount[m := 1], kind := s.kind[m := SourceImage], hand := s.hand + multiset{m})
    case Grow(m) =>
      s.(useCount := s.useCount[m := 0], kind := s.kind[m := InternalImage], pool := s.pool + [m])
    case AcquireInternal =>
      var m := s.pool[0];
      s.(pool := s.pool[1..], useCount := s.useCount[m := s.useCount[m] + 1], hand := s.hand + multiset{m})
    case AcquireSink(m, k) =>
      s.(useCount := s.useCount[m := 1], kind := s.kind[m := k], hand := s.hand + multiset{m})
    case Pop(q) =>
      s.(queues := s.queues[q := s.queues[q][1..]], hand := s.hand + multiset{s.queues[q][0]})
    case Push(m, q) =>
      if q in s.closed then s
      else s.(queues := s.queues[q := QueueAt(s.queues, q) + [m]], hand := s.hand - multiset{m})
    case Share(m) =>
      s.(useCount := s.useCount[m := s.useCount[m] + 1], hand := s.hand + multiset{m})
    case Release(m) =>
      var left := s.useCount[m] - 1;
      var s' := s.(useCount := s.useCount[m := left], hand := s.hand - multiset{m});
      if left != 0 then s'
      else if s.kind[m].InternalImage? then s'.(pool := s.pool + [m])
      else s'.(returned := s.returned + [m])
    case Close(q) => s.(closed := s.closed + {q})
  }

  // ---------------------------------------------------------------- conservation

  function Bags(queues: map<Slot, seq<int>>): map<Slot, multiset<int>> {
    map q | q in queues :: multiset(queues[q])
  }

  ghost function Contents(queues: map<Slot, seq<int>>): multiset<int> { Gathered(Bags(queues)) }

  /** Every image of the pipeline: in a queue or in a thread's hand. */
  ghost function Held(s: Space): multiset<int> { Contents(s.queues) + s.hand }

  ghost predicate Idle(s: Space, m: int) {
    m in s.useCount && m in s.kind && s.useCount[m] == 0
  }

  ghost predicate Counts(useCount: map<int, int>, held: multiset<int>) {
    && (forall m :: m in held ==> m in useCount)
    && (forall m :: m in useCount ==> useCount[m] == held[m])
  }

  ghost predicate CountsOk(s: Space) {
    s.kind.Keys == s.useCount.Keys && Counts(s.useCount, Held(s))
  }

  /** An idle image is at home once, an internal one in the pool and any other with the application; an
      image in use is not. */
  ghost predicate AtHome(s: Space, m: int) {
    && multiset(s.pool)[m] == (if Idle(s, m) && s.kind[m].InternalImage? then 1 else 0)
    && multiset(s.returned)[m] == (if Idle(s, m) && !s.kind[m].InternalImage? then 1 else 0)
  }

  ghost predicate HomeOk(s: Space) {
    forall m :: AtHome(s, m)
  }

  /** Use counts are holdings; an image nobody holds is back where it came from, exactly once; only
      source queues are ever closed. */
  ghost predicate Conserved(s: Space) {
    CountsOk(s) && HomeOk(s) && forall q :: q in s.closed ==> q.Source?
  }

  lemma ContentsUpdate(q: map<Slot, seq<int>>, k: Slot, v: seq<int>)
    ensures Contents(q[k := v]) + multiset(QueueAt(q, k)) == Contents(q) + multiset(v)
  {
    var b := Bags(q);
    assert Bags(q[k := v]) == b[k := multiset(v)];
    assert k in q ==> b[k] == multiset(q[k]);
    assert k in b <==> k in q;
    hide Bags;
    if k in q {
      GatheredUpdate(b, k, multiset(v));
    } else {
      GatheredAt(b[k := multiset(v)], k);
      assert b[k := multiset(v)] - {k} == b;
    }
  }

  lemma Cancel(x: multiset<int>, y: multiset<int>, z: multiset<int>)
    requires x + z == y + z
    ensures x == y
  {
    assert x == (x + z) - z;
    assert y == (y + z) - z;
  }

  lemma PopHeld(s: Space, q: Slot)
    requires Enabled(s, Pop(q))
    ensures Held(Apply(s, Pop(q))) == Held(s)
  {
    var m, rest := s.queues[q][0], s.queues[q][1..];
    ContentsUpdate(s.queues, q, rest);
    assert s.queues[q] == [m] + rest;
    Cancel(Contents(s.queues[q := rest]) + multiset{m}, Contents(s.queues), multiset(rest));
  }

  lemma PushHeld(s: Space, m: int, q: Slot)
    requires Enabled(s, Push(m, q)) && q !in s.closed
    ensures Held(Apply(s, Push(m, q))) == Held(s)
  {
    var before := QueueAt(s.queues, q);
    ContentsUpdate(s.queues, q, before + [m]);
    assert multiset(before + [m]) == multiset(before) + multiset{m};
    Cancel(Contents(s.queues[q := before + [m]]), Contents(s.queues) + multiset{m}, multiset(before));
  }

  /** A new holder, of a new image or of one already held. */
  lemma CountsUp(useCount: map<int, int>, c: multiset<int>, h: multiset<int>, m: int)
    requires Counts(useCount, c + h)
    ensures Counts(useCount[m := (c + h)[m] + 1], c + (h + multiset{m}))
  {
  }

  lemma CountsDown(useCount: map<int, int>, c: multiset<int>, h: multiset<int>, m: int)
    requires Counts(useCount, c + h) && m in h
    ensures Counts(useCount[m := useCount[m] - 1], c + (h - multiset{m})) && useCount[m] > 0
  {
  }

  lemma GainConserves(s: Space, op: Op, s': Space)
    requires Conserved(s) && Enabled(s, op) && s' == Apply(s, op)
    requires op.Arrive? || op.AcquireSink? || op.Share?
    ensures Conserved(s')
  {
    hide Counts;
    hide Contents;
    var m := op.image;
    NewCount(s.useCount, Held(s), m);
    CountsUp(s.useCount, Contents(s.queues), s.hand, m);
    assert s'.useCount == s.useCount[m := Held(s)[m] + 1];
    forall e ensures AtHome(s', e) {
      GainHomeAt(s, op, s', e);
    }
  }

  lemma NewCount(useCount: map<int, int>, held: multiset<int>, m: int)
    requires Counts(useCount, held)
    ensures if m in useCount then useCount[m] == held[m] else held[m] == 0
  {
  }

  lemma GainHomeAt(s: Space, op: Op, s': Space, e: int)
    requires AtHome(s, e) && Enabled(s, op) && s' == Apply(s, op) && (op.Arrive? || op.AcquireSink? || op.Share?)
    requires s'.useCount[op.image] > 0 && (op.image in s.useCount ==> s.useCount[op.image] > 0 || !op.Share?)
    requires op.Share? ==> s.useCount[op.image] > 0
    ensures AtHome(s', e)
  {
  }

  lemma GrowConserves(s: Space, m: int, s': Space)
    requires Conserved(s) && Enabled(s, Grow(m)) && s' == Apply(s, Grow(m))
    ensures Conserved(s')
  {
    assert Held(s') == Held(s);
    assert m !in Held(s) && CountsOk(s');
    hide CountsOk;
    forall e ensures AtHome(s', e) {
      GrowHomeAt(s, m, s', e);
    }
    hide AtHome;
  }

  lemma GrowHomeAt(s: Space, m: int, s': Space, e: int)
    requires HomeOk(s) && Enabled(s, Grow(m)) && s' == Apply(s, Grow(m))
    ensures AtHome(s', e)
  {
    assert AtHome(s, e);
    AppendCount(s.pool, m, e);
  }

  lemma AcquireConserves(s: Space, s': Space)
    requires Conserved(s) && Enabled(s, AcquireInternal) && s' == Apply(s, AcquireInternal)
    ensures Conserved(s')
  {
    hide Counts;
    hide Contents;
    var m := s.pool[0];
    NewCount(s.useCount, Held(s), m);
    CountsUp(s.useCount, Contents(s.queues), s.hand, m);
    forall e ensures AtHome(s', e) {
      assert AtHome(s, e) && AtHome(s, m);
      HeadCount(s.pool, e);
      HeadCount(s.pool, m);
    }
  }

  lemma MoveConserves(s: Space, s': Space)
    requires Conserved(s) && Held(s') == Held(s) && (forall q :: q in s'.closed ==> q.Source?)
    requires s'.useCount == s.useCount && s'.kind == s.kind && s'.pool == s.pool && s'.returned == s.returned
    ensures Conserved(s')
  {
    forall m ensures AtHome(s', m) {
      assert AtHome(s, m);
    }
  }

  lemma ReleaseConserves(s: Space, m: int, s': Space)
    requires Conserved(s) && Enabled(s, Release(m)) && s' == Apply(s, Release(m))
    ensures Conserved(s')
  {
    ReleaseCounts(s, m, s');
    hide Apply;
    hide Enabled;
    hide CountsOk;
    hide AtHome;
    forall e ensures AtHome(s', e) {
      assert AtHome(s, e);
      ReleaseHomeAt(s, m, s', e);
    }
  }

  lemma ReleaseCounts(s: Space, m: int, s': Space)
    requires CountsOk(s) && Enabled(s, Release(m)) && s' == Apply(s, Release(m))
    ensures CountsOk(s') && s.useCount[m] > 0 && s'.closed == s.closed
  {
    hide Counts;
    hide Contents;
    CountsDown(s.useCount, Contents(s.queues), s.hand, m);
  }

  lemma ReleaseHomeAt(s: Space, m: int, s': Space, e: int)
    requires AtHome(s, e) && Enabled(s, Release(m)) && s' == Apply(s, Release(m)) && s.useCount[m] > 0
    ensures AtHome(s', e)
  {
    AppendCount(s.pool, m, e);
    AppendCount(s.returned, m, e);
  }

  lemma HandKnown(s: Space, m: int)
    requires Conserved(s) && m in s.hand
    ensures m in s.useCount && m in s.kind && s.useCount[m] > 0 && Enabled(s, Release(m))
  {
    assert m in Held(s);
  }

  lemma PoolKnown(s: Space)
    requires Conserved(s) && s.pool != []
    ensures Enabled(s, AcquireInternal) && s.useCount[s.pool[0]] == 0 && s.pool[0] in s.kind
  {
    HeadCount(s.pool, s.pool[0]);
    assert AtHome(s, s.pool[0]);
  }

  lemma OpenUnlessSource(s: Space, q: Slot)
    requires Conserved(s) && !q.Source?
    ensures q !in s.closed
  {
  }

  lemma ApplyConserves(s: Space, op: Op)
    requires Conserved(s) && Enabled(s, op)
    ensures Conserved(Apply(s, op))
  {
    var s' := Apply(s, op);
    match op
    case AcquireInternal => AcquireConserves(s, s');
    case Release(m) => ReleaseConserves(s, m, s');
    case Grow(m) => GrowConserves(s, m, s');
    case Pop(q) => PopHeld(s, q); MoveConserves(s, s');
    case Push(m, q) => if q !in s.closed { PushHeld(s, m, q); } MoveConserves(s, s');
    case Close(_) => MoveConserves(s, s');
    case _ => GainConserves(s, op, s');
  }

  // ---------------------------------------------------------------- runs

  /** Any threads, in any interleaving of their atomic operations. */
  ghost predicate BufferRun(states: seq<Space>, ops: seq<Op>) {
    && |states| == |ops| + 1
    && Conserved(states[0])
    && forall k :: 0 <= k < |ops| ==> OpApplied(states[k], ops[k], states[k + 1])
  }

  predicate OpApplied(s: Space, op: Op, s': Space) {
    Enabled(s, op) && s' == Apply(s, op)
  }

  lemma {:induction false} RunConserves(states: seq<Space>, ops: seq<Op>, k: nat)
    requires BufferRun(states, ops) && k < |states|
    ensures Conserved(states[k])
  {
    if k > 0 {
      RunConserves(states, ops, k - 1);
      assert OpApplied(states[k - 1], ops[k - 1], states[k]);
      ApplyConserves(states[k - 1], ops[k - 1]);
    }
  }

  lemma EmptyContents(q: map<Slot, seq<int>>)
    requires forall k :: k in q ==> q[k] == []
    ensures Contents(q) == multiset{}
  {
    GatheredNothing(Bags(q));
  }

  ghost predicate Drained(s: Space) {
    s.hand == multiset{} && forall q :: q in s.queues ==> s.queues[q] == []
  }

  /** Given back to the application once, or lying in the pool once, and nowhere else. */
  ghost predicate Home(s: Space, m: int)
    requires m in s.kind
  {
    if s.kind[m].InternalImage?
    then multiset(s.pool)[m] == 1 && m !in multiset(s.returned)
    else multiset(s.returned)[m] == 1 && m !in multiset(s.pool)
  }

  lemma DrainedHome(s: Space)
    requires Conserved(s) && Drained(s)
    ensures forall m :: m in s.kind ==> Home(s, m)
  {
    EmptyContents(s.queues);
    forall m | m in s.kind ensures Home(s, m) {
      assert Idle(s, m) && AtHome(s, m);
    }
  }

  lemma QueuedHeld(s: Space, q: Slot)
    requires Conserved(s) && q in s.queues && s.queues[q] != []
    ensures s.queues[q][0] in s.useCount && s.useCount[s.queues[q][0]] > 0
  {
    var m := s.queues[q][0];
    GatheredAt(Bags(s.queues), q);
    assert m in multiset(s.queues[q]) && Bags(s.queues)[q] == multiset(s.queues[q]);
    assert Contents(s.queues)[m] >= multiset(s.queues[q])[m];
    hide Gathered;
    assert m in Held(s);
  }

  /** Whatever the interleaving, no frame is ever given back twice and none that is in use is given
      back at all; in a state where no queue and no thread holds an image every frame has been given
      back exactly once and every internal image is in the pool exactly once. */
  lemma EveryFrameGoesHome(states: seq<Space>, ops: seq<Op>, k: nat)
    requires BufferRun(states, ops) && k < |states|
    ensures forall m :: multiset(states[k].returned)[m] <= 1
    ensures forall m :: m in multiset(states[k].returned) || m in multiset(states[k].pool) ==> m !in Held(states[k])
    ensures Drained(states[k]) ==> forall m :: m in states[k].kind ==> Home(states[k], m)
  {
    RunConserves(states, ops, k);
    var s := states[k];
    forall m
      ensures multiset(s.returned)[m] <= 1
      ensures m in multiset(s.returned) || m in multiset(s.pool) ==> m !in Held(s)
    {
      assert AtHome(s, m);
    }
    if Drained(s) {
      DrainedHome(s);
    }
  }

  // ---------------------------------------------------------------- what the queues go through

  /** An image appended to each of a list of queues. */
  function PassOn(q: map<Slot, seq<int>>, m: int, children: seq<Slot>): (r: map<Slot, seq<int>>)
    requires forall c :: c in children ==> c in q
    ensures r.Keys == q.Keys
    ensures forall k :: k in q && k !in children ==> r[k] == q[k]
  {
    if children == [] then q
    else PassOn(q[children[0] := q[children[0]] + [m]], m, children[1..])
  }

  /** A queue emptied from its head (or relieved of its head only), each image passed to the children. */
  function Relieved(q: map<Slot, seq<int>>, from: Slot, children: seq<Slot>, one: bool): (r: map<Slot, seq<int>>)
    requires from in q && from !in children && forall c :: c in children ==> c in q
    ensures r.Keys == q.Keys
    ensures forall k :: k in q && k != from && k !in children ==> r[k] == q[k]
    ensures r[from] == if one && q[from] != [] then q[from][1..] else []
    decreases |q[from]|
  {
    if q[from] == [] then q
    else
      var q' := PassOn(q[from := q[from][1..]], q[from][0], children);
      if one then q' else Relieved(q', from, children, false)
  }

  function RelievedAll(q: map<Slot, seq<int>>, froms: seq<Slot>, children: seq<Slot>, one: bool): (r: map<Slot, seq<int>>)
    requires forall f :: f in froms ==> f in q && f !in children
    requires forall c :: c in children ==> c in q
    ensures r.Keys == q.Keys
  {
    if froms == [] then q
    else RelievedAll(Relieved(q, froms[0], children, one), froms[1..], children, one)
  }

  lemma {:induction false} PassOnAppends(q: map<Slot, seq<int>>, m: int, children: seq<Slot>)
    requires NoDuplicates(children) && forall c :: c in children ==> c in q
    ensures forall c :: c in children ==> PassOn(q, m, children)[c] == q[c] + [m]
  {
    if children != [] {
      var q' := q[children[0] := q[children[0]] + [m]];
      assert children[0] !in children[1..];
      PassOnAppends(q', m, children[1..]);
      assert forall c :: c in children ==> c == children[0] || c in children[1..];
    }
  }

  /** Every child receives the whole content of the relieved queue, in order. */
  lemma {:induction false} RelievedAppends(q: map<Slot, seq<int>>, from: Slot, children: seq<Slot>)
    requires NoDuplicates(children) && forall c :: c in children ==> c in q
    requires from in q && from !in children
    ensures forall c :: c in children ==> Relieved(q, from, children, false)[c] == q[c] + q[from]
    decreases |q[from]|
  {
    if q[from] != [] {
      var m, rest := q[from][0], q[from][1..];
      var q' := PassOn(q[from := rest], m, children);
      PassOnAppends(q[from := rest], m, children);
      RelievedAppends(q', from, children);
      assert q[from] == [m] + rest;
      forall c | c in children ensures Relieved(q, from, children, false)[c] == q[c] + q[from] {
        assert q[c] + [m] + rest == q[c] + q[from];
      }
    }
  }

  /** The input queues that a node's output links lead to. */
  function ChildSlots(t: Topology, n: string): (r: seq<Slot>)
    ensures forall c :: c in r <==> exists i :: i in Outputs(t, n) && c == Input(t.links[i].dst, t.links[i].dstPort)
  {
    var r := seq(|Outputs(t, n)|, j requires 0 <= j < |Outputs(t, n)| =>
      Input(t.links[Outputs(t, n)[j]].dst, t.links[Outputs(t, n)[j]].dstPort));
    assert forall j :: 0 <= j < |r| ==> Outputs(t, n)[j] in Outputs(t, n);
    assert forall i :: i in Outputs(t, n) ==> exists j :: 0 <= j < |r| && Outputs(t, n)[j] == i && r[j] in r;
    r
  }

  // ---------------------------------------------------------------- the code

  /** The session's and the pipeline's image handling. The ghost field is the multiset of images held
      in local variables, of this and of every other thread. */
  class Session {
    var queues: map<Slot, seq<int>>
    var closed: set<Slot>
    var useCount: map<int, int>
    var kind: map<int, ImageType>
    var pool: seq<int>
    var returned: seq<int>
    ghost var hand: multiset<int>

    ghost function View(): Space
      reads this
    {
      Space(queues, closed, useCount, kind, pool, returned, hand)
    }

    method TryPop(q: Slot) returns (r: Option<int>)
      requires q in queues && Conserved(View())
      modifies this`queues, this`hand
      ensures Conserved(View())
      ensures if old(queues[q]) == [] then r == None && View() == old(View())
              else r == Some(old(queues[q][0])) && View() == Apply(old(View()), Pop(q))
    {
      hide Conserved;
      if |queues[q]| == 0 {
        return None;
      }
      ApplyConserves(View(), Pop(q));
      r := Some(queues[q][0]);
      hand := hand + multiset{queues[q][0]};
      queues := queues[q := queues[q][1..]];
    }

    /** False when the queue has been released: the caller keeps the image. */
    method PushImage(m: int, q: Slot) returns (ok: bool)
      requires (q in queues || q.Source?) && m in hand && Conserved(View())
      modifies this`queues, this`hand
      ensures Conserved(View()) && ok == (q !in closed)
      ensures View() == Apply(old(View()), Push(m, q))
    {
      hide Conserved;
      ApplyConserves(View(), Push(m, q));
      if q in closed {
        return false;
      }
      queues := queues[q := QueueAt(queues, q) + [m]];
      hand := hand - multiset{m};
      ok := true;
    }

    method IncreaseUseCount(m: int)
      requires m in hand && Conserved(View())
      modifies this`useCount, this`hand
      ensures Conserved(View()) && Enabled(old(View()), Share(m))
      ensures View() == Apply(old(View()), Share(m))
    {
      hide Conserved;
      HandKnown(View(), m);
      ApplyConserves(View(), Share(m));
      useCount := useCount[m := useCount[m] + 1];
      hand := hand + multiset{m};
    }

    /** Internal images go back to the pool, external frames to the application, when the last holder
        lets go. */
    method ReleaseBuffer(m: int)
      requires m in hand && Conserved(View())
      modifies this`useCount, this`pool, this`returned, this`hand
      ensures Conserved(View()) && Enabled(old(View()), Release(m))
      ensures View() == Apply(old(View()), Release(m))
    {
      hide Conserved;
      HandKnown(View(), m);
      ApplyConserves(View(), Release(m));
      useCount := useCount[m := useCount[m] - 1];
      if useCount[m] == 0 {
        if kind[m].InternalImage? {
          pool := pool + [m];
        } else {
          returned := returned + [m];
        }
      }
      hand := hand - multiset{m};
    }

    /** A frame arriving from the application, at any port; a pipeline that has closed the port does not take it
        and the frame is given back at once. */
    method Submit(m: int, port: int) returns (accepted: bool)
      requires m !in useCount && Conserved(View())
      modifies this
      ensures Conserved(View()) && hand == old(hand) && closed == old(closed) && pool == old(pool)
      ensures kind == old(kind)[m := SourceImage]
      ensures accepted == (Source(port) !in closed)
      ensures accepted ==> queues == old(queues)[Source(port) := QueueAt(old(queues), Source(port)) + [m]]
                           && returned == old(returned)
      ensures !accepted ==> queues == old(queues) && returned == old(returned) + [m]
    {
      hide Conserved;
      ApplyConserves(View(), Arrive(m));
      useCount, kind, hand := useCount[m := 1], kind[m := SourceImage], hand + multiset{m};
      accepted := PushImage(m, Source(port));
      if !accepted {
        ReleaseBuffer(m);
      }
    }

    /** A node obtaining an internal output image from the pool, which grows when it is empty. */
    method AcquireInternalOutput(slot: Slot, fresh': int)
      requires slot in queues && slot.Output? && fresh' !in useCount && Conserved(View())
      modifies this
      ensures Conserved(View()) && hand == old(hand) && closed == old(closed) && returned == old(returned)
      ensures var m := if old(pool) == [] then fresh' else old(pool)[0];
              && queues == old(queues)[slot := old(queues[slot]) + [m]]
              && pool == (if old(pool) == [] then [] else old(pool)[1..])
    {
      hide Conserved;
      if |pool| == 0 {
        GrowPool(fresh');
      }
      var m := TakeIdle();
      OpenUnlessSource(View(), slot);
      var ok := PushImage(m, slot);
      assert hand == old(hand);
    }

    method GrowPool(fresh': int)
      requires fresh' !in useCount && pool == [] && Conserved(View())
      modifies this
      ensures Conserved(View()) && hand == old(hand) && closed == old(closed) && returned == old(returned)
      ensures queues == old(queues) && pool == [fresh']
    {
      hide Conserved;
      ApplyConserves(View(), Grow(fresh'));
      useCount, kind, pool := useCount[fresh' := 0], kind[fresh' := InternalImage], pool + [fresh'];
    }

    method TakeIdle() returns (m: int)
      requires pool != [] && Conserved(View())
      modifies this
      ensures Conserved(View()) && hand == old(hand) + multiset{m} && closed == old(closed) && returned == old(returned)
      ensures queues == old(queues) && m == old(pool)[0] && pool == old(pool)[1..]
    {
      hide Conserved;
      PoolKnown(View());
      ApplyConserves(View(), AcquireInternal);
      m := pool[0];
      pool, useCount, hand := pool[1..], useCount[m := useCount[m] + 1], hand + multiset{m};
    }

    /** A node obtaining a frame of the application to write its result into. */
    method AcquireSinkOutput(slot: Slot, sink: ImageType, m: int)
      requires slot in queues && slot.Output? && m !in useCount && Conserved(View())
      requires sink.SinkImage? || sink.VirtualSinkImage?
      modifies this
      ensures Conserved(View()) && hand == old(hand) && closed == old(closed) && returned == old(returned)
      ensures queues == old(queues)[slot := old(queues[slot]) + [m]] && pool == old(pool)
    {
      hide Conserved;
      ApplyConserves(View(), AcquireSink(m, sink));
      useCount, kind, hand := useCount[m := 1], kind[m := sink], hand + multiset{m};
      OpenUnlessSource(View(), slot);
      var ok := PushImage(m, slot);
      assert hand == old(hand);
    }

    /** One more holder for an image: the input queue of a child node. */
    method ShareWith(m: int, child: Slot)
      requires m in hand && Conserved(View()) && child in queues && child.Input?
      modifies this
      ensures Conserved(View()) && hand == old(hand) && closed == old(closed) && kind == old(kind)
      ensures queues == old(queues)[child := old(queues[child]) + [m]]
    {
      hide Conserved;
      IncreaseUseCount(m);
      OpenUnlessSource(View(), child);
      var ok := PushImage(m, child);
      assert hand == old(hand);
    }

    /** One image handed to every child, each as one more holder; then the node lets go of it. */
    method MoveToChildren(m: int, children: seq<Slot>)
      requires m in hand && Conserved(View())
      requires forall c :: c in children ==> c in queues && c.Input?
      modifies this
      ensures Conserved(View()) && hand == old(hand) - multiset{m}
      ensures queues == PassOn(old(queues), m, children) && closed == old(closed) && kind == old(kind)
    {
      hide Conserved;
      var i := 0;
      while i < |children|
        invariant 0 <= i <= |children|
        invariant Conserved(View()) && hand == old(hand) && closed == old(closed) && kind == old(kind)
        invariant queues.Keys == old(queues).Keys
        invariant PassOn(queues, m, children[i..]) == PassOn(old(queues), m, children)
      {
        ghost var rest := children[i..];
        assert rest[0] == children[i] && rest[1..] == children[i + 1..];
        ShareWith(m, children[i]);
        i := i + 1;
      }
      assert children[i..] == [];
      ReleaseBuffer(m);
    }

    /** A finished (or, with `one`, a still running) node lets go of its input images; an in-place or
        virtual node passes each of them to all its children first. */
    method ReleaseInputBuffers(t: Topology, n: string, usings: seq<Slot>, one: bool)
      requires Conserved(View())
      requires forall u :: u in usings ==> u in queues && u.Using?
      requires forall c :: c in ChildSlots(t, n) ==> c in queues
      modifies this
      ensures Conserved(View()) && hand == old(hand) && closed == old(closed) && kind == old(kind)
      ensures queues == RelievedAll(old(queues), usings, if SchedulerRuns.Passes(t, n) then ChildSlots(t, n) else [], one)
    {
      hide Conserved;
      var children := if SchedulerRuns.Passes(t, n) then ChildSlots(t, n) else [];
      var i := 0;
      while i < |usings|
        invariant 0 <= i <= |usings|
        invariant Conserved(View()) && hand == old(hand) && closed == old(closed) && kind == old(kind)
        invariant queues.Keys == old(queues).Keys
        invariant RelievedAll(queues, usings[i..], children, one) == RelievedAll(old(queues), usings, children, one)
      {
        hide RelievedAll;
        hide Relieved;
        hide SchedulerRuns.Passes;
        hide ChildSlots;
        assert usings[i..][1..] == usings[i + 1..];
        Relieve(usings[i], children, one);
        i := i + 1;
      }
    }

    method Relieve(from: Slot, children: seq<Slot>, one: bool)
      requires Conserved(View()) && from in queues && from.Using?
      requires forall c :: c in children ==> c in queues && c.Input?
      modifies this
      ensures Conserved(View()) && hand == old(hand) && closed == old(closed) && kind == old(kind)
      ensures queues == Relieved(old(queues), from, children, one)
    {
      hide Conserved;
      var more := true;
      while more
        invariant Conserved(View()) && hand == old(hand) && closed == old(closed) && kind == old(kind)
        invariant queues.Keys == old(queues).Keys
        invariant if more then Relieved(queues, from, children, one) == Relieved(old(queues), from, children, one)
                  else queues == Relieved(old(queues), from, children, one)
        decreases if more then 1 else 0, |queues[from]|
      {
        var r := TryPop(from);
        match r {
          case None => more := false;
          case Some(m) =>
            MoveToChildren(m, children);
            more := !one;
        }
      }
    }

    method MoveOne(from: Slot, to: Slot)
      requires Conserved(View()) && from in queues && to in queues && from != to && !to.Source?
      requires queues[from] != []
      modifies this`queues, this`hand
      ensures Conserved(View()) && hand == old(hand)
      ensures queues == old(queues)[from := old(queues[from])[1..]][to := old(queues[to]) + [old(queues[from])[0]]]
    {
      hide Conserved;
      var r := TryPop(from);
      OpenUnlessSource(View(), to);
      var ok := PushImage(r.value, to);
      assert hand == old(hand);
    }

    /** Images moved from one queue to another: a finished node's outputs to the child's inputs, or a
        starting node's inputs to those in use. */
    method Transfer(from: Slot, to: Slot, one: bool)
      requires Conserved(View()) && from in queues && to in queues && from != to && !to.Source?
      modifies this`queues, this`hand
      ensures Conserved(View()) && hand == old(hand)
      ensures var n := if one && old(queues[from]) != [] then 1 else |old(queues[from])|;
              && queues.Keys == old(queues).Keys
              && queues[from] == old(queues[from])[n..]
              && queues[to] == old(queues[to]) + old(queues[from])[..n]
              && forall q :: q in queues && q != from && q != to ==> queues[q] == old(queues[q])
    {
      hide Conserved;
      var n := 0;
      ghost var all := queues[from];
      while |queues[from]| > 0 && !(one && n == 1)
        invariant 0 <= n <= |all| && (one ==> n <= 1)
        invariant Conserved(View()) && hand == old(hand)
        invariant queues.Keys == old(queues).Keys
        invariant queues[from] == all[n..] && queues[to] == old(queues[to]) + all[..n]
        invariant forall q :: q in queues && q != from && q != to ==> queues[q] == old(queues[q])
      {
        MoveOne(from, to);
        assert all[..n + 1] == all[..n] + [all[n]] && all[n..][1..] == all[n + 1..];
        n := n + 1;
      }
    }

    method ReleaseHead(from: Slot) returns (more: bool)
      requires Conserved(View()) && from in queues
      modifies this
      ensures Conserved(View()) && hand == old(hand) && closed == old(closed) && kind == old(kind)
      ensures more == (old(queues[from]) != [])
      ensures queues == if more then old(queues)[from := old(queues[from])[1..]] else old(queues)
    {
      hide Conserved;
      var r := TryPop(from);
      more := r.Some?;
      if more {
        ReleaseBuffer(r.value);
        assert hand == old(hand);
      }
    }

    /** A queue of finished frames given back. */
    method ReleaseAll(from: Slot)
      requires Conserved(View()) && from in queues
      modifies this
      ensures Conserved(View()) && hand == old(hand) && closed == old(closed) && kind == old(kind)
      ensures queues == old(queues)[from := []]
    {
      hide Conserved;
      var more := true;
      while more
        invariant Conserved(View()) && hand == old(hand) && closed == old(closed) && kind == old(kind)
        invariant queues.Keys == old(queues).Keys && queues == old(queues)[from := queues[from]]
        invariant !more ==> queues[from] == []
        decreases |queues[from]|, more
      {
        more := ReleaseHead(from);
      }
    }

    /** The end of a pipeline: source queues are closed, then everything left in any queue is given
        back. With no other thread holding an image, every image is home. */
    method ReleaseUnusedBuffer(sources: seq<Slot>, others: seq<Slot>)
      requires Conserved(View())
      requires forall q :: q in sources ==> q in queues && q.Source?
      requires forall q :: q in others ==> q in queues
      requires forall q :: q in queues ==> q in sources || q in others
      modifies this
      ensures Conserved(View()) && hand == old(hand) && kind == old(kind)
      ensures forall q :: q in queues ==> queues[q] == []
      ensures forall q :: q in sources ==> q in closed
      ensures hand == multiset{} ==> forall m :: m in kind ==> Home(View(), m)
    {
      hide Conserved;
      var all := sources + others;
      var i := 0;
      while i < |all|
        invariant 0 <= i <= |all|
        invariant Conserved(View()) && hand == old(hand) && kind == old(kind)
        invariant queues.Keys == old(queues).Keys
        invariant forall j :: 0 <= j < i ==> queues[all[j]] == []
        invariant forall j :: 0 <= j < i && j < |sources| ==> all[j] in closed
      {
        if i < |sources| {
          ApplyConserves(View(), Close(all[i]));
          closed := closed + {all[i]};
        }
        ReleaseAll(all[i]);
        i := i + 1;
      }
      forall q | q in queues ensures queues[q] == [] {
        assert q in all;
      }
      forall q | q in sources ensures q in closed {
        var j :| 0 <= j < |sources| && sources[j] == q;
        assert all[j] == q;
      }
      if hand == multiset{} {
        DrainedHome(View());
      }
    }
  }
}
