/** Schedules in which handler and reader never overlap. Their occupied slots form one cyclic
    block, and they act on the cache exactly as a sequence of atomic stores and reads does. */
module SerialRuns {
  import opened Common
  import opened PacketCaches
  import opened InterleavedCache
  import opened ArrivalOrder

  /* ---- serial schedules ---- */

  predicate Alone(s: State, m: Move)
  {
    (m.Offer? ==> s.r.Resting?) && (m.StartRead? ==> s.h.Idle?)
  }

  predicate Serial(s: State, moves: seq<Move>)
    requires Shaped(s) && PcsInRange(s)
    decreases |moves|
  {
    moves == [] ||
    (Enabled(s, moves[0]) && Alone(s, moves[0]) && Serial(Step(s, moves[0]), moves[1..]))
  }

  /* ---- the invariant ---- */

  /** Packets stored and not yet released. */
  function Occupied(s: State): (n: int)
  {
    |s.stored| - |s.out| + if s.r.Wiping? then |s.taken| - s.r.i else 0
  }

  /** Cyclic contiguity, with the ids in order. */
  predicate SlotInBlock(s: State, i: nat)
    requires Shaped(s) && PcsInRange(s) && i < MAX_PKT
  {
    && (s.status[i] <==> Age(Cur(s), i) < Occupied(s))
    && (s.status[i] ==> s.idAt[i] == |s.stored| - 1 - Age(Cur(s), i))
  }

  predicate SlotsInBlock(s: State)
    requires Shaped(s) && PcsInRange(s)
  {
    forall i: nat :: i < MAX_PKT ==> SlotInBlock(s, i)
  }

  predicate HandlerInBlock(s: State)
    requires Shaped(s)
  {
    match s.h
    case Idle => true
    case Testing(_, _, tries) => tries > 0 ==> Occupied(s) == MAX_PKT
    case Filling(_, w, _) => w == s.current
    case Advancing(w) => w == s.current
  }

  /** From the j-th taken slot on, the slots hold consecutive packets. */
  predicate TakenInOrder(s: State, j0: nat, first: int)
    requires Shaped(s)
  {
    forall j :: j0 <= j < |s.taken| ==> s.idAt[s.taken[j]] == first + j
  }

  predicate ScanInBlock(s: State, start: nat, ci: nat, tries: nat)
    requires Shaped(s) && start < MAX_PKT && ci < MAX_PKT
  {
    && start == s.current && !s.h.Advancing?
    && (tries < MAX_PKT ==> Age(s.current, ci) == MAX_PKT - 1 - tries)
    && |s.taken| == (if tries <= MAX_PKT - Occupied(s) then 0 else tries - (MAX_PKT - Occupied(s)))
    && TakenInOrder(s, 0, |s.out|)
  }

  /** What is stored and not handed out, oldest first. */
  function Queue(s: State): (q: seq<PacketData>)
    requires |s.out| <= |s.stored|
  {
    s.stored[|s.out|..]
  }

  predicate ReaderInBlock(s: State)
    requires Shaped(s) && PcsInRange(s) && |s.out| <= |s.stored|
  {
    match s.r
    case Resting => true
    case Scanning(start, ci, tries) => ScanInBlock(s, start, ci, tries)
    case Grabbing(start, ci, tries, _) => ScanInBlock(s, start, ci, tries)
    case Delivering => |s.taken| == BatchSize(Queue(s)) && TakenInOrder(s, 0, |s.out|)
    case Wiping(i, _) => |s.taken| <= |s.out| && TakenInOrder(s, i, |s.out| - |s.taken|)
  }

  predicate InBlock(s: State)
    requires Shaped(s) && PcsInRange(s)
  {
    && (s.h.Idle? || s.r.Resting?)
    && |s.out| <= |s.stored| && 0 <= Occupied(s) <= MAX_PKT
    && OutInOrder(s) && SlotsInBlock(s) && HandlerInBlock(s) && ReaderInBlock(s)
  }

  /* ---- preservation ---- */

  lemma SameSlots(s: State, s': State)
    requires Shaped(s) && PcsInRange(s) && Shaped(s') && PcsInRange(s') && SlotsInBlock(s)
    requires s'.status == s.status && s'.idAt == s.idAt && |s'.stored| == |s.stored|
    requires Cur(s') == Cur(s) && Occupied(s') == Occupied(s)
    ensures SlotsInBlock(s')
  {
    hide Age, Occupied, Cur;
    forall i: nat | i < MAX_PKT ensures SlotInBlock(s', i) {
      assert SlotInBlock(s, i);
    }
  }

  lemma OfferKeepsBlock(s: State, data: PacketData)
    requires Inv(s) && InBlock(s) && s.h.Idle? && s.r.Resting?
    ensures InBlock(Step(s, Offer(data)))
  {
    var s' := Step(s, Offer(data));
    SameSlots(s, s');
  }

  lemma AgeBehind(cur: nat, i: nat)
    requires cur < MAX_PKT && i < MAX_PKT
    ensures Age((cur + 1) % MAX_PKT, i) == if i == cur then 0 else Age(cur, i) + 1
    ensures Age(cur, cur) == MAX_PKT - 1
  {
  }

  lemma FirstTested(cur: nat)
    requires cur < MAX_PKT
    ensures TestedSlot(cur, 0) == cur
  {
  }

  lemma FoundKeepsBlock(s: State)
    requires Inv(s) && InBlock(s) && s.h.Testing? && !s.status[s.h.w]
    ensures InBlock(HandlerStep(s))
  {
    var s' := HandlerStep(s);
    assert SlotInBlock(s, s.h.w);
    FirstTested(s.current);
    hide TestedSlot, Age;
    SameSlots(s, s');
  }

  /** A search that passes a slot, or gives up, has met a full cache. */
  lemma PassedIsFull(s: State)
    requires Inv(s) && InBlock(s) && s.h.Testing? && s.status[s.h.w]
    ensures Occupied(s) == MAX_PKT
  {
    assert SlotInBlock(s, s.h.w);
    FirstTested(s.current);
    AgeBehind(s.current, s.current);
    hide TestedSlot;
  }

  lemma PassKeepsBlock(s: State)
    requires Inv(s) && InBlock(s) && s.h.Testing? && s.status[s.h.w]
    ensures InBlock(HandlerStep(s))
  {
    var s' := HandlerStep(s);
    PassedIsFull(s);
    hide TestedSlot, Age;
    SameSlots(s, s');
  }

  lemma FillKeepsBlock(s: State)
    requires Inv(s) && InBlock(s) && s.h.Filling? && s.h.k < |s.h.data|
    ensures InBlock(HandlerStep(s))
  {
    var s' := HandlerStep(s);
    SameSlots(s, s');
  }

  lemma FlaggedHasRoom(s: State)
    requires Inv(s) && InBlock(s) && s.h.Filling?
    ensures Occupied(s) < MAX_PKT
  {
    assert SlotInBlock(s, s.h.w);
    AgeBehind(s.h.w, s.h.w);
  }

  lemma FlagKeepsSlot(s: State, i: nat)
    requires Inv(s) && InBlock(s) && s.h.Filling? && s.h.k == |s.h.data| && i < MAX_PKT
    ensures SlotInBlock(HandlerStep(s), i)
  {
    AgeBehind(s.h.w, i);
    assert SlotInBlock(s, i);
    FlaggedHasRoom(s);
    hide Age;
  }

  lemma FlagKeepsBlock(s: State)
    requires Inv(s) && InBlock(s) && s.h.Filling? && s.h.k == |s.h.data|
    requires !s.r.Scanning? && !s.r.Grabbing?
    ensures InBlock(HandlerStep(s))
  {
    var s' := HandlerStep(s);
    FlaggedHasRoom(s);
    forall i: nat | i < MAX_PKT ensures SlotInBlock(s', i) {
      FlagKeepsSlot(s, i);
    }
  }

  lemma AdvanceKeepsBlock(s: State)
    requires Inv(s) && InBlock(s) && s.h.Advancing?
    ensures InBlock(HandlerStep(s))
  {
    var s' := HandlerStep(s);
    SameSlots(s, s');
  }

  lemma StartReadKeepsBlock(s: State)
    requires Inv(s) && InBlock(s) && s.r.Resting? && s.h.Idle?
    ensures InBlock(Step(s, StartRead))
  {
    var s' := Step(s, StartRead);
    AgeBehind(s.current, s.current);
    SameSlots(s, s');
  }

  lemma ScanKeepsBlock(s: State)
    requires Inv(s) && InBlock(s) && s.r.Scanning?
    ensures InBlock(ReaderStep(s, true))
  {
    var s' := ReaderStep(s, true);
    assert SlotInBlock(s, s.r.ci);
    if s.r.tries < MAX_PKT - 1 { AgeOfNext(s.current, s.r.ci); }
    SameSlots(s, s');
  }

  lemma GrabByteKeepsBlock(s: State)
    requires Inv(s) && InBlock(s) && s.r.Grabbing? && s.r.k < PKT_BUFFER_SIZE
    ensures InBlock(ReaderStep(s, true))
  {
    var s' := ReaderStep(s, true);
    hide Age, SearchOk, UnusedOk, SlotsOk, PlacesOk, CountsOk;
    SameSlots(s, s');
  }

  lemma TakeKeepsBlock(s: State)
    requires Inv(s) && InBlock(s) && s.r.Grabbing? && s.r.k >= PKT_BUFFER_SIZE
    ensures InBlock(ReaderStep(s, true))
  {
    var s' := ReaderStep(s, true);
    assert SlotInBlock(s, s.r.ci);
    if s.r.tries < MAX_PKT - 1 { AgeOfNext(s.current, s.r.ci); }
    hide Age;
    SameSlots(s, s');
  }

  lemma DeliverKeepsBlock(s: State, copyOk: bool)
    requires Inv(s) && InBlock(s) && s.r.Delivering?
    ensures InBlock(ReaderStep(s, copyOk))
  {
    var s' := ReaderStep(s, copyOk);
    SameSlots(s, s');
  }

  lemma WipeKeepsBlock(s: State)
    requires Inv(s) && InBlock(s) && s.r.Wiping?
    requires s.r.i < |s.taken| ==> s.r.k < PKT_BUFFER_SIZE
    ensures InBlock(ReaderStep(s, true))
  {
    var s' := ReaderStep(s, true);
    hide Age, SearchOk, UnusedOk, SlotsOk, PlacesOk, CountsOk;
    SameSlots(s, s');
  }

  lemma ReleaseKeepsBlock(s: State)
    requires Inv(s) && InBlock(s) && s.r.Wiping? && s.r.i < |s.taken| && s.r.k >= PKT_BUFFER_SIZE
    ensures InBlock(ReaderStep(s, true))
  {
    var s', t := ReaderStep(s, true), s.taken[s.r.i];
    assert SlotInBlock(s, t);
    hide Age;
    forall i: nat | i < MAX_PKT ensures SlotInBlock(s', i) {
      assert SlotInBlock(s, i);
      if i != t { AgesDiffer(Cur(s), i, t); }
    }
  }

  lemma StepKeepsBlock(s: State, m: Move)
    requires Inv(s) && InBlock(s) && Enabled(s, m) && Alone(s, m)
    ensures InBlock(Step(s, m))
  {
    match m {
      case Offer(data) => OfferKeepsBlock(s, data);
      case StartRead => StartReadKeepsBlock(s);
      case HandlerMove =>
        match s.h {
          case Testing(_, w, _) => if s.status[w] { PassKeepsBlock(s); } else { FoundKeepsBlock(s); }
          case Filling(data, _, k) => if k < |data| { FillKeepsBlock(s); } else { FlagKeepsBlock(s); }
          case Advancing(_) => AdvanceKeepsBlock(s);
        }
      case ReaderMove(copyOk) =>
        match s.r {
          case Scanning(_, _, _) => ScanKeepsBlock(s);
          case Grabbing(_, _, _, k) =>
            if k < PKT_BUFFER_SIZE { GrabByteKeepsBlock(s); } else { TakeKeepsBlock(s); }
          case Delivering => DeliverKeepsBlock(s, copyOk);
          case Wiping(i, k) =>
            if i < |s.taken| && k >= PKT_BUFFER_SIZE { ReleaseKeepsBlock(s); } else { WipeKeepsBlock(s); }
        }
    }
  }

  lemma StartInBlock()
    ensures InBlock(Start)
  {
    forall i: nat | i < MAX_PKT ensures SlotInBlock(Start, i) {
    }
  }

  /* ---- the queue ---- */

  /** Between activations the slots are those of a valid PacketCache with this queue. */
  lemma RestingSlots(s: State, i: nat)
    requires Inv(s) && InBlock(s) && s.h.Idle? && s.r.Resting? && i < MAX_PKT
    ensures var q, a := Queue(s), Age(s.current, i);
            && (s.status[i] <==> a < |q|)
            && s.slots[i] == if a < |q| then Padded(q[|q| - 1 - a]) else Zeros(PKT_BUFFER_SIZE)
  {
    assert SlotInBlock(s, i) && SlotOk(s, i);
  }

  /** What user space and the counters can tell of a cache. */
  datatype Fifo = Fifo(queue: seq<PacketData>, overflow: nat, handed: seq<seq<byte>>)

  datatype Op = Store(data: PacketData) | Fetch

  function Apply(f: Fifo, op: Op): (f': Fifo)
  {
    match op
    case Store(data) =>
      if |f.queue| < MAX_PKT then f.(queue := f.queue + [data]) else f.(overflow := f.overflow + 1)
    case Fetch =>
      var n := BatchSize(f.queue);
      Fifo(f.queue[n..], f.overflow, f.handed + Batch(f.queue)[..n])
  }

  function ApplyAll(f: Fifo, ops: seq<Op>): (f': Fifo)
    decreases |ops|
  {
    if ops == [] then f else ApplyAll(Apply(f, ops[0]), ops[1..])
  }

  /** The operation that takes effect in a step: a store when the packet's flag is set or its
      search gives up, a fetch when copy_to_user succeeds. */
  function OpOf(s: State, m: Move): (ops: seq<Op>)
    requires Shaped(s) && PcsInRange(s)
  {
    if Flags(s, m) then [Store(s.h.data)]
    else if m.HandlerMove? && s.h.Testing? && s.status[s.h.w] && s.h.tries + 1 == KM_FIND_BUFF_SLOT_MAX_TRY then
      [Store(s.h.data)]
    else if m.ReaderMove? && s.r.Delivering? && m.copyOk then [Fetch]
    else []
  }

  function OpsOf(s: State, moves: seq<Move>): (ops: seq<Op>)
    requires Shaped(s) && PcsInRange(s) && Schedule(s, moves)
    decreases |moves|
  {
    if moves == [] then [] else OpOf(s, moves[0]) + OpsOf(Step(s, moves[0]), moves[1..])
  }

  function Bytes(out: seq<Delivery>): (records: seq<seq<byte>>)
  {
    seq(|out|, p requires 0 <= p < |out| => out[p].bytes)
  }

  function View(s: State): (f: Fifo)
    requires |s.out| <= |s.stored|
  {
    Fifo(Queue(s), s.overflow, Bytes(s.out))
  }

  lemma DeliversBatch(s: State)
    requires Inv(s) && InBlock(s) && s.r.Delivering?
    ensures s.temp == Batch(Queue(s)) && |s.taken| == BatchSize(Queue(s))
  {
    var q := Queue(s);
    forall j | 0 <= j < PKTS_PER_BUFFER ensures s.temp[j] == RecordAt(q, BatchSize(q), j) {
      if j < |s.taken| {
        assert SlotOk(s, s.taken[j]);
        assert s.idAt[s.taken[j]] == |s.out| + j;
      }
    }
  }

  lemma FetchHandsOut(s: State)
    requires Inv(s) && InBlock(s) && s.r.Delivering?
    ensures var s' := ReaderStep(s, true); |s'.out| <= |s'.stored| && View(s') == Apply(View(s), Fetch)
  {
    DeliversBatch(s);
    var s', n := ReaderStep(s, true), |s.taken|;
    assert Queue(s') == Queue(s)[n..];
    assert Bytes(s'.out) == Bytes(s.out) + s.temp[..n];
  }

  lemma StepIsOp(s: State, m: Move)
    requires Inv(s) && InBlock(s) && Enabled(s, m) && Alone(s, m)
    ensures var s' := Step(s, m); |s'.out| <= |s'.stored| && View(s') == ApplyAll(View(s), OpOf(s, m))
  {
    if Flags(s, m) {
      FlaggedHasRoom(s);
      assert Queue(Step(s, m)) == Queue(s) + [s.h.data];
    } else if m.HandlerMove? && s.h.Testing? && s.status[s.h.w] {
      PassedIsFull(s);
    } else if m.ReaderMove? && s.r.Delivering? && m.copyOk {
      FetchHandsOut(s);
    }
  }

  lemma {:induction false} ApplyInTurn(f: Fifo, a: seq<Op>, b: seq<Op>)
    ensures ApplyAll(f, a + b) == ApplyAll(ApplyAll(f, a), b)
    decreases |a|
  {
    if a == [] {
      assert a + b == b;
    } else {
      ApplyInTurn(Apply(f, a[0]), a[1..], b);
      assert (a + b)[1..] == a[1..] + b;
    }
  }

  lemma {:induction false} SerialRunIsFifo(s: State, moves: seq<Move>)
    requires Inv(s) && InBlock(s) && Serial(s, moves)
    ensures Orderly(s, moves, ALL_RULES) && Schedule(s, moves)
    ensures Inv(Run(s, moves)) && InBlock(Run(s, moves))
    ensures View(Run(s, moves)) == ApplyAll(View(s), OpsOf(s, moves))
    decreases |moves|
  {
    hide SearchOk, UnusedOk, HandlerOk, SlotsOk, ReaderOk, PlacesOk, CountsOk,
         SlotsInBlock, HandlerInBlock, ReaderInBlock, ObeysAll, OpOf, Apply, View;
    if moves != [] {
      var s' := Step(s, moves[0]);
      AloneObeys(s, moves[0]);
      StepKeepsInv(s, moves[0]);
      StepKeepsBlock(s, moves[0]);
      StepIsOp(s, moves[0]);
      SerialRunIsFifo(s', moves[1..]);
      ApplyInTurn(View(s), OpOf(s, moves[0]), OpsOf(s', moves[1..]));
    }
  }

  lemma AloneObeys(s: State, m: Move)
    requires Inv(s) && InBlock(s) && Enabled(s, m) && Alone(s, m)
    ensures ObeysAll(ALL_RULES, s, m)
  {
    if Flags(s, m) {
      assert Ahead(s.current, s.h.w) == 0;
      assert Will(HandlerStep(s)) == [];
    }
  }

  /** If handler and reader never overlap, then the queue, the overflow count and the records
      handed out are those that atomic stores and fetches leave behind; order is kept, and no
      rule is broken. */
  lemma SerialSchedulesAreAtomic(moves: seq<Move>)
    requires Serial(Start, moves)
    ensures Orderly(Start, moves, ALL_RULES) && Schedule(Start, moves)
    ensures var s := Run(Start, moves);
            && |s.out| <= |s.stored| && OutInOrder(s)
            && View(s) == ApplyAll(Fifo([], 0, []), OpsOf(Start, moves))
  {
    StartInv();
    StartInBlock();
    assert Queue(Start) == [] && Bytes(Start.out) == [];
    SerialRunIsFifo(Start, moves);
  }

  /** The state of the cache class is `f`, but for what it handed out. */
  ghost predicate Holds(cache: PacketCache, f: Fifo)
    reads cache, cache.status, cache.slots, cache.temp, cache.slots.bytes, cache.temp.bytes
  {
    cache.Valid() && cache.queue == f.queue && cache.countOverflow == f.overflow % U64
  }

  lemma NextCount(n: nat)
    ensures (n + 1) % U64 == (n % U64 + 1) % U64
  {
  }

  method PerformOp(cache: PacketCache, op: Op, ghost f: Fifo) returns (ghost f': Fifo)
    requires Holds(cache, f)
    modifies cache.Repr
    ensures Holds(cache, f') && f' == Apply(f, op)
  {
    f' := Apply(f, op);
    match op {
      case Store(data) =>
        NextCount(f.overflow);
        var stored := cache.Store(data);
      case Fetch =>
        var delivered, records := cache.Read(0, true);
        assert f'.handed == f.handed + records[..BatchSize(f.queue)];
    }
  }

  /** The same operations on the cache class. */
  method PerformOps(cache: PacketCache, ops: seq<Op>, ghost f: Fifo)
    requires Holds(cache, f)
    modifies cache.Repr
    ensures Holds(cache, ApplyAll(f, ops))
  {
    hide Apply, PacketCache.Valid;
    ghost var g := f;
    for k := 0 to |ops|
      invariant Holds(cache, g) && ApplyAll(g, ops[k..]) == ApplyAll(f, ops)
    {
      assert ops[k..][1..] == ops[k + 1..];
      g := PerformOp(cache, ops[k], g);
    }
  }

  /** Any serial schedule leaves queue and count as the cache class has them after the schedule's
      operations. */
  method AtomicRun(moves: seq<Move>) returns (cache: PacketCache)
    requires Serial(Start, moves)
    ensures Schedule(Start, moves) && fresh(cache.Repr) && cache.Valid()
    ensures var s := Run(Start, moves);
            && |s.out| <= |s.stored| && cache.queue == Queue(s) && cache.countOverflow == s.overflow % U64
  {
    SerialSchedulesAreAtomic(moves);
    cache := new PacketCache();
    PerformOps(cache, OpsOf(Start, moves), Fifo([], 0, []));
  }
}
