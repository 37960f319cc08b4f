/** The packet cache with one receive handler and one reader running concurrently
    (kernel_module/intercept-module.c). Every status test, every copied or cleared byte, every
    status write and the read and write of current_index is a step of its own, and the two
    parties' steps interleave in any order. */
module InterleavedCache {
  import opened Common
  import opened PacketCaches

  /* ---- states ---- */

  datatype HandlerPc =
    | Idle
    | Testing(data: PacketData, w: nat, tries: nat)      // about to test status[w]
    | Filling(data: PacketData, w: nat, k: nat)          // k bytes of data are in slot w
    | Advancing(w: nat)                                  // status[w] set, current_index not yet

  datatype ReaderPc =
    | Resting
    | Scanning(start: nat, ci: nat, tries: nat)          // about to test status[ci]
    | Grabbing(start: nat, ci: nat, tries: nat, k: nat)  // k bytes of slot ci are in the record
    | Delivering                                         // about to call copy_to_user
    | Wiping(i: nat, k: nat)                             // k bytes of the i-th taken slot cleared

  /** History: where packet `id` is. */
  datatype Place = InSlot(i: nat) | Out(p: nat)

  datatype Delivery = Delivery(id: nat, bytes: seq<byte>)

  datatype State = State(
    status: seq<bool>,
    slots: seq<seq<byte>>,
    current: nat,
    temp: seq<seq<byte>>,          // buff_temp, record by record
    taken: seq<nat>,               // copied_index up to the first -1
    h: HandlerPc,
    r: ReaderPc,
    seen: nat,                     // count_pkt
    overflow: nat,                 // count_pkt_overflow
    // history
    stored: seq<PacketData>,       // packets by id, in the order their flags were set
    idAt: seq<nat>,                // id of the packet last flagged in each slot
    place: seq<Place>,
    out: seq<Delivery>)            // records handed to user space

  const Start := State(
    seq(MAX_PKT, _ => false), AllZero(MAX_PKT), 0, AllZero(PKTS_PER_BUFFER), [], Idle, Resting, 0, 0,
    [], seq(MAX_PKT, _ => 0), [], [])

  predicate Shaped(s: State)
  {
    && |s.status| == MAX_PKT && |s.slots| == MAX_PKT && |s.idAt| == MAX_PKT
    && |s.temp| == PKTS_PER_BUFFER && |s.taken| <= PKTS_PER_BUFFER
    && s.current < MAX_PKT
    && (forall i :: 0 <= i < MAX_PKT ==> |s.slots[i]| == PKT_BUFFER_SIZE)
    && (forall j :: 0 <= j < PKTS_PER_BUFFER ==> |s.temp[j]| == PKT_BUFFER_SIZE)
    && (forall j :: 0 <= j < |s.taken| ==> s.taken[j] < MAX_PKT)
    && |s.place| == |s.stored|
  }

  /** The program counters point into the loops they stand for. */
  predicate PcsInRange(s: State)
  {
    && (match s.h
        case Idle => true
        case Testing(_, w, tries) => w < MAX_PKT && tries < KM_FIND_BUFF_SLOT_MAX_TRY
        case Filling(data, w, k) => w < MAX_PKT && k <= |data|
        case Advancing(w) => w < MAX_PKT)
    && (match s.r
        case Resting => true
        case Scanning(start, ci, tries) => start < MAX_PKT && ci < MAX_PKT && tries <= MAX_PKT
        case Grabbing(start, ci, tries, k) =>
          start < MAX_PKT && ci < MAX_PKT && tries < MAX_PKT && |s.taken| < PKTS_PER_BUFFER && k <= PKT_BUFFER_SIZE
        case Delivering => true
        case Wiping(i, k) => i <= |s.taken| && k <= PKT_BUFFER_SIZE)
  }

  /* ---- steps ---- */

  datatype Move = Offer(data: PacketData) | HandlerMove | StartRead | ReaderMove(copyOk: bool)

  predicate Enabled(s: State, m: Move)
  {
    match m
    case Offer(_) => s.h.Idle?
    case HandlerMove => !s.h.Idle?
    case StartRead => s.r.Resting?
    case ReaderMove(_) => !s.r.Resting?
  }

  function HandlerStep(s: State): (s': State)
    requires Shaped(s) && PcsInRange(s)
    ensures Shaped(s') && PcsInRange(s')
  {
    match s.h
    case Idle => s
    case Testing(data, w, tries) =>
      if !s.status[w] then
        s.(h := Filling(data, w, 0))
      else if tries + 1 == KM_FIND_BUFF_SLOT_MAX_TRY then
        s.(h := Idle, overflow := s.overflow + 1)
      else
        s.(h := Testing(data, (w + 1) % MAX_PKT, tries + 1))
    case Filling(data, w, k) =>
      if k < |data| then
        s.(h := Filling(data, w, k + 1), slots := s.slots[w := s.slots[w][k := data[k]]])
      else
        s.(h := Advancing(w), status := s.status[w := true],
           stored := s.stored + [data], idAt := s.idAt[w := |s.stored|], place := s.place + [InSlot(w)])
    case Advancing(w) =>
      s.(h := Idle, current := (w + 1) % MAX_PKT)
  }

  function ReaderStep(s: State, copyOk: bool): (s': State)
    requires Shaped(s) && PcsInRange(s)
    ensures Shaped(s') && PcsInRange(s')
  {
    match s.r
    case Resting => s
    case Scanning(start, ci, tries) =>
      if !(|s.taken| < PKTS_PER_BUFFER && tries < MAX_PKT) then
        s.(r := Delivering)
      else if s.status[ci] then
        s.(r := Grabbing(start, ci, tries, 0))
      else
        s.(r := Scanning(start, (ci + 1) % MAX_PKT, tries + 1))
    case Grabbing(start, ci, tries, k) =>
      if k < PKT_BUFFER_SIZE then
        s.(r := Grabbing(start, ci, tries, k + 1),
           temp := s.temp[|s.taken| := s.temp[|s.taken|][k := s.slots[ci][k]]])
      else
        s.(r := Scanning(start, (ci + 1) % MAX_PKT, tries + 1), taken := s.taken + [ci])
    case Delivering =>
      if copyOk then
        s.(r := Wiping(0, 0), out := s.out + Deliveries(s), place := Moved(s))
      else
        s.(r := Resting)
    case Wiping(i, k) =>
      if i == |s.taken| then
        s.(r := Resting)
      else if k < PKT_BUFFER_SIZE then
        s.(r := Wiping(i, k + 1), slots := s.slots[s.taken[i] := s.slots[s.taken[i]][k := 0]])
      else
        s.(r := Wiping(i + 1, 0), status := s.status[s.taken[i] := false])
  }

  /** What a successful copy_to_user hands out. */
  function Deliveries(s: State): (ds: seq<Delivery>)
    requires Shaped(s)
    ensures |ds| == |s.taken|
  {
    seq(|s.taken|, j requires 0 <= j < |s.taken| => Delivery(s.idAt[s.taken[j]], s.temp[j]))
  }

  function IndexOf(xs: seq<nat>, x: nat): (j: nat)
    requires x in xs
    ensures j < |xs| && xs[j] == x
  {
    if xs[0] == x then 0 else 1 + IndexOf(xs[1..], x)
  }

  function Moved(s: State): (place: seq<Place>)
    requires Shaped(s)
    ensures |place| == |s.place|
  {
    seq(|s.place|, id requires 0 <= id < |s.place| =>
      match s.place[id]
      case InSlot(i) => if i in s.taken then Out(|s.out| + IndexOf(s.taken, i)) else InSlot(i)
      case Out(p) => Out(p))
  }

  function Step(s: State, m: Move): (s': State)
    requires Shaped(s) && PcsInRange(s) && Enabled(s, m)
    ensures Shaped(s') && PcsInRange(s')
  {
    match m
    case Offer(data) => s.(h := Testing(data, s.current, 0), seen := s.seen + 1)
    case HandlerMove => HandlerStep(s)
    case StartRead => s.(r := Scanning(s.current, s.current, 0), temp := AllZero(PKTS_PER_BUFFER), taken := [])
    case ReaderMove(copyOk) => ReaderStep(s, copyOk)
  }

  /* ---- the invariant ---- */

  /** Taken slots that were handed out and are not yet free again. */
  predicate Leaving(s: State, i: nat)
  {
    s.r.Wiping? && exists j :: s.r.i <= j < |s.taken| && s.taken[j] == i
  }

  /** The slot holds a packet that was not handed out. */
  predicate Live(s: State, i: nat)
    requires |s.status| == MAX_PKT && i < MAX_PKT
  {
    s.status[i] && !Leaving(s, i)
  }

  predicate BeingFilled(s: State, i: nat)
  {
    s.h.Filling? && s.h.w == i
  }

  /** The handler fills free slots only. */
  predicate HandlerOk(s: State)
    requires Shaped(s) && PcsInRange(s)
  {
    s.h.Filling? ==> !s.status[s.h.w]
  }

  /** Free slots are zero, live ones hold their packet with zero padding, and the one being
      filled holds a prefix of its packet. */
  predicate SlotOk(s: State, i: nat)
    requires Shaped(s) && PcsInRange(s) && i < MAX_PKT
  {
    if BeingFilled(s, i) then
      s.slots[i] == Padded(s.h.data[..s.h.k])
    else if !s.status[i] then
      s.slots[i] == Zeros(PKT_BUFFER_SIZE)
    else
      Live(s, i) ==> s.idAt[i] < |s.stored| && s.slots[i] == Padded(s.stored[s.idAt[i]])
  }

  predicate SlotsOk(s: State)
    requires Shaped(s) && PcsInRange(s)
  {
    forall i: nat :: i < MAX_PKT ==> SlotOk(s, i)
  }

  /** How far `i` is ahead of `start`. */
  function Ahead(start: nat, i: nat): (d: nat)
    requires start < MAX_PKT && i < MAX_PKT
  {
    if i >= start then i - start else i + MAX_PKT - start
  }

  /** The scan has tested `tries` slots, and the taken ones are among them. */
  predicate ScanAt(s: State, start: nat, ci: nat, tries: nat)
    requires Shaped(s) && start < MAX_PKT && ci < MAX_PKT
  {
    && (tries < MAX_PKT ==> Ahead(start, ci) == tries)
    && (forall j :: 0 <= j < |s.taken| ==> Ahead(start, s.taken[j]) < tries)
  }

  predicate DistinctTaken(s: State)
  {
    forall j, k :: 0 <= j < k < |s.taken| ==> s.taken[j] != s.taken[k]
  }

  /** The taken slots are distinct, hold packets, and their records are complete copies. */
  predicate RecordsOk(s: State)
    requires Shaped(s)
  {
    && DistinctTaken(s)
    && (forall j :: 0 <= j < |s.taken| ==> s.status[s.taken[j]] && s.temp[j] == s.slots[s.taken[j]])
  }

  predicate StillFlagged(s: State, i: nat)
    requires Shaped(s)
  {
    forall j :: i <= j < |s.taken| ==> s.status[s.taken[j]]
  }

  predicate ReaderOk(s: State)
    requires Shaped(s) && PcsInRange(s)
  {
    match s.r
    case Resting => true
    case Scanning(start, ci, tries) => ScanAt(s, start, ci, tries) && RecordsOk(s)
    case Grabbing(start, ci, tries, k) =>
      && ScanAt(s, start, ci, tries) && RecordsOk(s)
      && s.status[ci] && s.temp[|s.taken|][..k] == s.slots[ci][..k]
    case Delivering => RecordsOk(s)
    case Wiping(i, k) =>
      && DistinctTaken(s)
      && StillFlagged(s, i)
      && (i < |s.taken| ==> s.slots[s.taken[i]][..k] == Zeros(k))
  }

  /** Packet `id` is where its place says: in a live slot, or handed out whole. */
  predicate PlaceOk(s: State, id: nat)
    requires Shaped(s) && id < |s.stored|
  {
    match s.place[id]
    case InSlot(i) => i < MAX_PKT && Live(s, i) && s.idAt[i] == id
    case Out(p) => p < |s.out| && s.out[p] == Delivery(id, Padded(s.stored[id]))
  }

  predicate DeliveryOk(s: State, p: nat)
    requires Shaped(s) && p < |s.out|
  {
    s.out[p].id < |s.stored| && s.place[s.out[p].id] == Out(p)
  }

  /** Every stored packet is in one live slot or was handed out once. */
  predicate PlacesOk(s: State)
    requires Shaped(s)
  {
    && (forall id: nat :: id < |s.stored| ==> PlaceOk(s, id))
    && (forall i: nat :: i < MAX_PKT && Live(s, i) ==> s.idAt[i] < |s.stored| && s.place[s.idAt[i]] == InSlot(i))
    && (forall p: nat :: p < |s.out| ==> DeliveryOk(s, p))
  }

  function LiveSlots(s: State): (live: set<nat>)
    requires |s.status| == MAX_PKT
  {
    set i: nat | i < MAX_PKT && Live(s, i)
  }

  /** Stored = released + occupied, and every packet seen is stored, dropped or in hand. */
  predicate CountsOk(s: State)
    requires Shaped(s)
  {
    && |s.stored| == |s.out| + |LiveSlots(s)|
    && s.seen == |s.stored| + s.overflow + (if s.h.Testing? || s.h.Filling? then 1 else 0)
  }

  /** The handler searches from right behind the slot it flagged last. */
  predicate SearchOk(s: State)
    requires Shaped(s) && PcsInRange(s)
  {
    && (s.h.Testing? ==> s.h.w == TestedSlot(s.current, s.h.tries))
    && (s.stored != [] ==> s.idAt[if s.h.Advancing? then s.h.w else Before(s.current)] == |s.stored| - 1)
  }

  /** The slot the search tests after `tries` others. */
  function TestedSlot(cur: nat, tries: nat): (w: nat)
    ensures w < MAX_PKT
  {
    (cur + tries) % MAX_PKT
  }

  lemma NextTested(cur: nat, tries: nat)
    ensures TestedSlot(cur, tries + 1) == (TestedSlot(cur, tries) + 1) % MAX_PKT
  {
  }

  function Before(i: nat): (j: nat)
    requires i < MAX_PKT
    ensures j < MAX_PKT
  {
    if i == 0 then MAX_PKT - 1 else i - 1
  }

  /** Records of the read buffer that no packet was copied to are zero. */
  predicate UnusedOk(s: State)
    requires Shaped(s)
  {
    match s.r
    case Scanning(_, _, _) => ZeroFrom(s.temp, |s.taken|)
    case Grabbing(_, _, _, _) => ZeroFrom(s.temp, |s.taken| + 1)
    case Delivering => ZeroFrom(s.temp, |s.taken|)
    case Resting => true
    case Wiping(_, _) => true
  }

  predicate ZeroFrom(records: seq<seq<byte>>, n: nat)
  {
    forall j :: n <= j < |records| ==> records[j] == Zeros(PKT_BUFFER_SIZE)
  }

  predicate Inv(s: State)
  {
    && Shaped(s) && PcsInRange(s)
    && SearchOk(s) && UnusedOk(s)
    && HandlerOk(s) && SlotsOk(s) && ReaderOk(s) && PlacesOk(s) && CountsOk(s)
  }

  lemma StartInv()
    ensures Inv(Start)
  {
    assert LiveSlots(Start) == {};
  }

  /* ---- preservation ---- */

  /** Steps that change no packet's slot and hand nothing out keep every packet's place. */
  lemma SameLive(s: State, s': State)
    requires Shaped(s) && Shaped(s') && PlacesOk(s)
    requires s'.stored == s.stored && s'.idAt == s.idAt && s'.place == s.place && s'.out == s.out
    requires forall i: nat :: i < MAX_PKT ==> Live(s', i) == Live(s, i)
    ensures PlacesOk(s') && LiveSlots(s') == LiveSlots(s)
  {
    forall id: nat | id < |s'.stored| ensures PlaceOk(s', id) {
      assert PlaceOk(s, id);
    }
    forall p: nat | p < |s'.out| ensures DeliveryOk(s', p) {
      assert DeliveryOk(s, p);
    }
  }

  lemma PlacesKept(s: State, s': State)
    requires Shaped(s) && Shaped(s') && PlacesOk(s) && s'.status == s.status
    requires s'.stored == s.stored && s'.idAt == s.idAt && s'.place == s.place && s'.out == s.out
    requires if s.r.Wiping? then s'.r.Wiping? && s'.r.i == s.r.i && s'.taken == s.taken else !s'.r.Wiping?
    ensures PlacesOk(s') && LiveSlots(s') == LiveSlots(s)
    ensures forall i: nat :: i < MAX_PKT ==> Live(s', i) == Live(s, i)
  {
    SameLive(s, s');
  }

  /* ---- preservation, handler ---- */

  lemma OfferKeepsInv(s: State, data: PacketData)
    requires Inv(s) && s.h.Idle?
    ensures Inv(Step(s, Offer(data)))
  {
    var s' := Step(s, Offer(data));
    PlacesKept(s, s');
    forall i: nat | i < MAX_PKT ensures SlotOk(s', i) {
      assert SlotOk(s, i);
    }
  }

  lemma FoundKeepsInv(s: State)
    requires Inv(s) && s.h.Testing? && !s.status[s.h.w]
    ensures Inv(HandlerStep(s))
  {
    var s' := HandlerStep(s);
    PlacesKept(s, s');
    assert Padded([]) == Zeros(PKT_BUFFER_SIZE);
    forall i: nat | i < MAX_PKT ensures SlotOk(s', i) {
      assert SlotOk(s, i);
    }
  }

  lemma PassKeepsInv(s: State)
    requires Inv(s) && s.h.Testing? && s.status[s.h.w]
    ensures Inv(HandlerStep(s))
  {
    NextTested(s.current, s.h.tries);
    hide TestedSlot;
    var s' := HandlerStep(s);
    PlacesKept(s, s');
    forall i: nat | i < MAX_PKT ensures SlotOk(s', i) {
      assert SlotOk(s, i);
    }
  }

  lemma AdvanceKeepsInv(s: State)
    requires Inv(s) && s.h.Advancing?
    ensures Inv(HandlerStep(s))
  {
    var s' := HandlerStep(s);
    PlacesKept(s, s');
    forall i: nat | i < MAX_PKT ensures SlotOk(s', i) {
      assert SlotOk(s, i);
    }
  }

  lemma PaddedPrefix(data: PacketData, k: nat)
    requires k < |data|
    ensures Padded(data[..k])[k := data[k]] == Padded(data[..k + 1])
  {
  }

  lemma FillKeepsInv(s: State)
    requires Inv(s) && s.h.Filling? && s.h.k < |s.h.data|
    ensures Inv(HandlerStep(s))
  {
    var s' := HandlerStep(s);
    PaddedPrefix(s.h.data, s.h.k);
    assert forall i: nat :: i < MAX_PKT && s.status[i] ==> s'.slots[i] == s.slots[i];
    PlacesKept(s, s');
    forall i: nat | i < MAX_PKT ensures SlotOk(s', i) {
      assert SlotOk(s, i);
    }
  }

  lemma FlagLive(s: State)
    requires Inv(s) && s.h.Filling? && s.h.k == |s.h.data|
    ensures var s' := HandlerStep(s);
            && !Live(s, s.h.w)
            && (forall i: nat :: i < MAX_PKT ==> (Live(s', i) <==> Live(s, i) || i == s.h.w))
            && LiveSlots(s') == LiveSlots(s) + {s.h.w}
  {
    var s', w := HandlerStep(s), s.h.w;
    assert !Leaving(s, w) && !Leaving(s', w);
  }

  lemma FlagSlots(s: State)
    requires Inv(s) && s.h.Filling? && s.h.k == |s.h.data|
    ensures var s' := HandlerStep(s); Shaped(s') && PcsInRange(s') && HandlerOk(s') && SlotsOk(s')
  {
    var s' := HandlerStep(s);
    FlagLive(s);
    assert s.h.data[..s.h.k] == s.h.data;
    forall i: nat | i < MAX_PKT ensures SlotOk(s', i) {
      assert SlotOk(s, i);
    }
  }

  lemma FlagPlaces(s: State)
    requires Inv(s) && s.h.Filling? && s.h.k == |s.h.data|
    ensures PlacesOk(HandlerStep(s)) && CountsOk(HandlerStep(s))
  {
    FlagLive(s);
    var s' := HandlerStep(s);
    forall id: nat | id < |s'.stored| ensures PlaceOk(s', id) {
      if id < |s.stored| { assert PlaceOk(s, id); }
    }
    forall p: nat | p < |s'.out| ensures DeliveryOk(s', p) {
      assert DeliveryOk(s, p);
    }
  }

  lemma FlagKeepsInv(s: State)
    requires Inv(s) && s.h.Filling? && s.h.k == |s.h.data|
    ensures Inv(HandlerStep(s))
  {
    FlagSlots(s);
    FlagPlaces(s);
  }

  /* ---- preservation, reader ---- */

  lemma StartReadKeepsInv(s: State)
    requires Inv(s) && s.r.Resting?
    ensures Inv(Step(s, StartRead))
  {
    var s' := Step(s, StartRead);
    PlacesKept(s, s');
    forall i: nat | i < MAX_PKT ensures SlotOk(s', i) {
      assert SlotOk(s, i);
    }
  }

  lemma ScanKeepsInv(s: State)
    requires Inv(s) && s.r.Scanning?
    ensures Inv(ReaderStep(s, true))
  {
    var s' := ReaderStep(s, true);
    PlacesKept(s, s');
    forall i: nat | i < MAX_PKT ensures SlotOk(s', i) {
      assert SlotOk(s, i);
    }
  }

  lemma GrabByteKeepsInv(s: State)
    requires Inv(s) && s.r.Grabbing? && s.r.k < PKT_BUFFER_SIZE
    ensures Inv(ReaderStep(s, true))
  {
    var s' := ReaderStep(s, true);
    PlacesKept(s, s');
    forall i: nat | i < MAX_PKT ensures SlotOk(s', i) {
      assert SlotOk(s, i);
    }
  }

  lemma TakeKeepsInv(s: State)
    requires Inv(s) && s.r.Grabbing? && s.r.k == PKT_BUFFER_SIZE
    ensures Inv(ReaderStep(s, true))
  {
    var s' := ReaderStep(s, true);
    PlacesKept(s, s');
    forall i: nat | i < MAX_PKT ensures SlotOk(s', i) {
      assert SlotOk(s, i);
    }
    assert s.temp[|s.taken|] == s.slots[s.r.ci];
  }

  lemma FailKeepsInv(s: State)
    requires Inv(s) && s.r.Delivering?
    ensures Inv(ReaderStep(s, false))
  {
    var s' := ReaderStep(s, false);
    PlacesKept(s, s');
    forall i: nat | i < MAX_PKT ensures SlotOk(s', i) {
      assert SlotOk(s, i);
    }
  }

  function Taken(s: State): (t: set<nat>)
  {
    set j | 0 <= j < |s.taken| :: s.taken[j]
  }

  lemma {:induction false} DistinctCardinality(xs: seq<nat>)
    requires forall j, k :: 0 <= j < k < |xs| ==> xs[j] != xs[k]
    ensures |set j | 0 <= j < |xs| :: xs[j]| == |xs|
    decreases |xs|
  {
    var all := set j | 0 <= j < |xs| :: xs[j];
    if xs == [] {
      assert all == {};
    } else {
      var init := xs[..|xs| - 1];
      var some := set j | 0 <= j < |init| :: init[j];
      DistinctCardinality(init);
      forall x | x in all ensures x in some + {xs[|xs| - 1]} {
        var j :| 0 <= j < |xs| && xs[j] == x;
        if j < |init| { assert init[j] == x; }
      }
      forall x | x in some ensures x in all && x != xs[|xs| - 1] {
        var j :| 0 <= j < |init| && init[j] == x;
        assert xs[j] == x;
      }
      assert all == some + {xs[|xs| - 1]};
    }
  }

  lemma DeliverLive(s: State)
    requires Inv(s) && s.r.Delivering?
    ensures var s' := ReaderStep(s, true);
            && (forall i: nat :: i < MAX_PKT ==> (Live(s', i) <==> Live(s, i) && i !in s.taken))
            && |LiveSlots(s)| == |LiveSlots(s')| + |s.taken|
  {
    var s' := ReaderStep(s, true);
    forall i: nat | i < MAX_PKT ensures Live(s', i) <==> Live(s, i) && i !in s.taken {
      if i in s.taken {
        var j :| 0 <= j < |s.taken| && s.taken[j] == i;
      }
    }
    DistinctCardinality(s.taken);
    assert Taken(s) <= LiveSlots(s);
    assert LiveSlots(s') == LiveSlots(s) - Taken(s);
  }

  lemma DeliverPlacesById(s: State, id: nat)
    requires Inv(s) && s.r.Delivering? && id < |s.stored|
    ensures PlaceOk(ReaderStep(s, true), id)
  {
    var s' := ReaderStep(s, true);
    DeliverLive(s);
    assert PlaceOk(s, id);
    if s.place[id].InSlot? && s.place[id].i in s.taken {
      var i := s.place[id].i;
      assert SlotOk(s, i);
      assert s'.out[|s.out| + IndexOf(s.taken, i)] == Deliveries(s)[IndexOf(s.taken, i)];
    }
  }

  lemma DeliverPlacesByEntry(s: State, p: nat)
    requires Inv(s) && s.r.Delivering? && p < |s.out| + |s.taken|
    ensures DeliveryOk(ReaderStep(s, true), p)
  {
    if p < |s.out| {
      assert DeliveryOk(s, p);
    } else {
      var i := s.taken[p - |s.out|];
      assert Live(s, i);
      assert IndexOf(s.taken, i) == p - |s.out|;
    }
  }

  lemma DeliverPlaces(s: State)
    requires Inv(s) && s.r.Delivering?
    ensures PlacesOk(ReaderStep(s, true))
  {
    var s' := ReaderStep(s, true);
    DeliverLive(s);
    forall id: nat | id < |s.stored| ensures PlaceOk(s', id) {
      DeliverPlacesById(s, id);
    }
    forall p: nat | p < |s'.out| ensures DeliveryOk(s', p) {
      DeliverPlacesByEntry(s, p);
    }
  }

  lemma DeliverKeepsInv(s: State)
    requires Inv(s) && s.r.Delivering?
    ensures Inv(ReaderStep(s, true))
  {
    var s' := ReaderStep(s, true);
    DeliverLive(s);
    DeliverPlaces(s);
    forall i: nat | i < MAX_PKT ensures SlotOk(s', i) {
      assert SlotOk(s, i);
    }
  }

  lemma WipeByteKeepsInv(s: State)
    requires Inv(s) && s.r.Wiping? && s.r.i < |s.taken| && s.r.k < PKT_BUFFER_SIZE
    ensures Inv(ReaderStep(s, true))
  {
    var s' := ReaderStep(s, true);
    var i := s.taken[s.r.i];
    assert Leaving(s, i);
    PlacesKept(s, s');
    forall j: nat | j < MAX_PKT ensures SlotOk(s', j) {
      assert SlotOk(s, j);
    }
    assert s'.slots[i][..s.r.k + 1] == Zeros(s.r.k + 1);
  }

  lemma UnflagKeepsInv(s: State)
    requires Inv(s) && s.r.Wiping? && s.r.i < |s.taken| && s.r.k == PKT_BUFFER_SIZE
    ensures Inv(ReaderStep(s, true))
  {
    var s' := ReaderStep(s, true);
    var i := s.taken[s.r.i];
    assert Leaving(s, i);
    assert s.slots[i] == Zeros(PKT_BUFFER_SIZE);
    forall j: nat | j < MAX_PKT ensures Live(s', j) == Live(s, j) {
    }
    SameLive(s, s');
    forall j: nat | j < MAX_PKT ensures SlotOk(s', j) {
      assert SlotOk(s, j);
    }
  }

  lemma RestKeepsInv(s: State)
    requires Inv(s) && s.r.Wiping? && s.r.i == |s.taken|
    ensures Inv(ReaderStep(s, true))
  {
    var s' := ReaderStep(s, true);
    assert forall i: nat :: i < MAX_PKT ==> Live(s', i) == Live(s, i);
    SameLive(s, s');
    forall i: nat | i < MAX_PKT ensures SlotOk(s', i) {
      assert SlotOk(s, i);
    }
  }

  /* ---- runs ---- */

  lemma StepKeepsInv(s: State, m: Move)
    requires Inv(s) && Enabled(s, m)
    ensures Inv(Step(s, m))
  {
    match m {
      case Offer(data) => OfferKeepsInv(s, data);
      case StartRead => StartReadKeepsInv(s);
      case HandlerMove =>
        match s.h {
          case Testing(_, w, _) => if s.status[w] { PassKeepsInv(s); } else { FoundKeepsInv(s); }
          case Filling(data, _, k) => if k < |data| { FillKeepsInv(s); } else { FlagKeepsInv(s); }
          case Advancing(_) => AdvanceKeepsInv(s);
        }
      case ReaderMove(copyOk) =>
        match s.r {
          case Scanning(_, _, _) => ScanKeepsInv(s);
          case Grabbing(_, _, _, k) => if k < PKT_BUFFER_SIZE { GrabByteKeepsInv(s); } else { TakeKeepsInv(s); }
          case Delivering => if copyOk { DeliverKeepsInv(s); } else { FailKeepsInv(s); }
          case Wiping(i, k) =>
            if i == |s.taken| { RestKeepsInv(s); }
            else if k < PKT_BUFFER_SIZE { WipeByteKeepsInv(s); }
            else { UnflagKeepsInv(s); }
        }
    }
  }

  /** A schedule: which party takes each step, and what it meets. */
  predicate Schedule(s: State, moves: seq<Move>)
    requires Shaped(s) && PcsInRange(s)
    decreases |moves|
  {
    moves == [] || (Enabled(s, moves[0]) && Schedule(Step(s, moves[0]), moves[1..]))
  }

  function Run(s: State, moves: seq<Move>): (s': State)
    requires Shaped(s) && PcsInRange(s) && Schedule(s, moves)
    ensures Shaped(s') && PcsInRange(s')
    decreases |moves|
  {
    if moves == [] then s else Run(Step(s, moves[0]), moves[1..])
  }

  lemma {:induction false} RunKeepsInv(s: State, moves: seq<Move>)
    requires Inv(s) && Schedule(s, moves)
    ensures Inv(Run(s, moves))
    decreases |moves|
  {
    if moves != [] {
      StepKeepsInv(s, moves[0]);
      RunKeepsInv(Step(s, moves[0]), moves[1..]);
    }
  }

  ghost predicate HandedOut(s: State, id: nat)
  {
    exists p: nat :: p < |s.out| && s.out[p].id == id
  }

  /** A live slot holds the whole of packet `id`, zero-padded. */
  ghost predicate InCache(s: State, id: nat)
    requires Shaped(s) && id < |s.stored|
  {
    exists i: nat :: i < MAX_PKT && Live(s, i) && s.idAt[i] == id && s.slots[i] == Padded(s.stored[id])
  }

  lemma HandedOutAtMostOnce(s: State, p: nat, q: nat)
    requires Inv(s) && p < q < |s.out|
    ensures s.out[p].id != s.out[q].id
  {
    assert DeliveryOk(s, p) && DeliveryOk(s, q);
  }

  lemma HandedOutWhole(s: State, p: nat)
    requires Inv(s) && p < |s.out|
    ensures s.out[p].id < |s.stored| && s.out[p].bytes == Padded(s.stored[s.out[p].id])
  {
    assert DeliveryOk(s, p) && PlaceOk(s, s.out[p].id);
  }

  lemma StoredIsInOnePlace(s: State, id: nat)
    requires Inv(s) && id < |s.stored|
    ensures HandedOut(s, id) <==> !InCache(s, id)
  {
    assert PlaceOk(s, id);
    match s.place[id] {
      case InSlot(i) =>
        assert SlotOk(s, i);
        forall p: nat | p < |s.out| ensures s.out[p].id != id {
          assert DeliveryOk(s, p);
        }
      case Out(p) =>
        assert s.out[p].id == id;
    }
  }

  /** In every reachable state, for every schedule: a stored packet was handed out or is in
      the cache and not both, none was handed out twice, each was handed out whole, stored =
      released + occupied, and every packet seen is stored, counted as overflow or in hand. */
  lemma NoLossNoDuplicationNoTearing(moves: seq<Move>)
    requires Schedule(Start, moves)
    ensures var s := Run(Start, moves);
            && (forall id: nat :: id < |s.stored| ==> (HandedOut(s, id) <==> !InCache(s, id)))
            && (forall p: nat, q: nat :: p < q < |s.out| ==> s.out[p].id != s.out[q].id)
            && (forall p: nat :: p < |s.out| ==>
                  s.out[p].id < |s.stored| && s.out[p].bytes == Padded(s.stored[s.out[p].id]))
            && |s.stored| == |s.out| + |LiveSlots(s)|
            && s.seen == |s.stored| + s.overflow + (if s.h.Testing? || s.h.Filling? then 1 else 0)
  {
    StartInv();
    RunKeepsInv(Start, moves);
    var s := Run(Start, moves);
    forall id: nat | id < |s.stored| ensures HandedOut(s, id) <==> !InCache(s, id) {
      StoredIsInOnePlace(s, id);
    }
    forall p: nat, q: nat | p < q < |s.out| ensures s.out[p].id != s.out[q].id {
      HandedOutAtMostOnce(s, p, q);
    }
    forall p: nat | p < |s.out|
      ensures s.out[p].id < |s.stored| && s.out[p].bytes == Padded(s.stored[s.out[p].id])
    {
      HandedOutWhole(s, p);
    }
  }

  /** What copy_to_user sees, whatever the handler did meanwhile: complete packets from distinct
      slots, zero-padded, and zeros in the records after them. */
  lemma BufferIsWhole(moves: seq<Move>, j: nat)
    requires Schedule(Start, moves) && Run(Start, moves).r.Delivering? && j < PKTS_PER_BUFFER
    ensures var s := Run(Start, moves);
            if j < |s.taken| then
              s.idAt[s.taken[j]] < |s.stored| && s.temp[j] == Padded(s.stored[s.idAt[s.taken[j]]])
            else
              s.temp[j] == Zeros(PKT_BUFFER_SIZE)
  {
    StartInv();
    RunKeepsInv(Start, moves);
    var s := Run(Start, moves);
    if j < |s.taken| {
      assert SlotOk(s, s.taken[j]);
    }
  }
}
