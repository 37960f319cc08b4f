/** The kernel-module path from client to user log with the handler and `read` interleaved byte by
    byte (kernel_module/intercept-module.c, kernel_module/user-processing.c). Where KernelPath
    takes each of them as one step, here every uid is accounted for under every schedule. */
module InterleavedPath {
  import opened Common
  import opened PacketCaches
  import opened InterleavedCache
  import opened KernelModules
  import KernelPath

  /* ---- the system ---- */

  datatype Path = Path(
    cache: State,
    pending: seq<seq<byte>>,       // records of the last read not yet looked at
    kern: map<nat, u64>,           // kernel log
    user: map<nat, u64>,           // user log
    clock: u64,
    // history
    sent: map<nat, u64>,           // when the handler read the clock for each uid
    looks: map<nat, u64>,          // when the process read it for each data record
    dropped: set<nat>,             // uids of discarded packets
    ids: map<nat, nat>,            // ids of the stored packets by uid
    looked: nat)                   // how many of the delivered packets the process has looked at

  function Initial(cache: State): (s: Path)
  {
    Path(cache, [], map[], map[], 0, map[], map[], {}, map[], 0)
  }

  datatype Event =
    | Arrive(uid: u64, created: u64, at: u64)
    | CacheStep(m: Move)
    | LookAtRecord(at: u64)

  /** Client uids are distinct and the clock is monotone; the process looks at records after the
      read has returned and starts the next read when it is through with them. */
  predicate Legal(s: Path, e: Event)
  {
    match e
    case Arrive(uid, created, at) => s.clock <= at && created != 0 && uid !in s.sent && s.cache.h.Idle?
    case CacheStep(m) => Enabled(s.cache, m) && !m.Offer? && (m.StartRead? ==> s.pending == [])
    case LookAtRecord(at) => s.clock <= at && s.cache.r.Resting? && s.pending != []
  }

  predicate Formed(s: Path)
  {
    && Shaped(s.cache) && PcsInRange(s.cache)
    && forall k :: 0 <= k < |s.pending| ==> |s.pending[k]| == PKT_BUFFER_SIZE
  }

  function Uid(data: PacketData): (uid: u64)
  {
    KernelPath.UidOf(Padded(data))
  }

  predicate FlagsPacket(c: State, m: Move)
  {
    m.HandlerMove? && c.h.Filling? && c.h.k >= |c.h.data|
  }

  predicate GivesUp(c: State, m: Move)
    requires Shaped(c) && PcsInRange(c)
  {
    m.HandlerMove? && c.h.Testing? && c.status[c.h.w] && c.h.tries + 1 == KM_FIND_BUFF_SLOT_MAX_TRY
  }

  function Advance(s: Path, e: Event): (s': Path)
    requires Formed(s) && Legal(s, e)
    ensures Formed(s')
  {
    match e
    case Arrive(uid, created, at) =>
      s.(cache := Step(s.cache, Offer(KernelPath.ClientPacket(uid, created))),
         kern := Stamped(s.kern, uid, at), sent := s.sent[uid := at], clock := at)
    case CacheStep(m) =>
      s.(cache := Step(s.cache, m),
         pending := if !(m.ReaderMove? && s.cache.r.Delivering?) then s.pending
                    else if m.copyOk then s.cache.temp else AllZero(PKTS_PER_BUFFER),
         dropped := if GivesUp(s.cache, m) then s.dropped + {Uid(s.cache.h.data)} else s.dropped,
         ids := if FlagsPacket(s.cache, m) then s.ids[Uid(s.cache.h.data) := |s.cache.stored|] else s.ids)
    case LookAtRecord(at) =>
      var r := s.pending[0];
      s.(user := Logged(s.user, r, at), pending := s.pending[1..],
         looks := if KernelPath.DataRecord(r) then s.looks[KernelPath.UidOf(r) := at] else s.looks,
         looked := if Blank(r) then s.looked else s.looked + 1, clock := at)
  }

  /* ---- the invariant ---- */

  predicate InHand(c: State, uid: nat)
  {
    (c.h.Testing? || c.h.Filling?) && Uid(c.h.data) == uid
  }

  /** A packet that arrived was dropped, is in hand or was stored: exactly one of these. */
  predicate FateOk(s: Path, uid: nat)
  {
    && (uid in s.sent <==> uid in s.dropped || InHand(s.cache, uid) || uid in s.ids)
    && !(uid in s.dropped && InHand(s.cache, uid)) && !(uid in s.dropped && uid in s.ids)
    && !(InHand(s.cache, uid) && uid in s.ids)
    && (uid in s.ids ==> s.ids[uid] < |s.cache.stored| && Uid(s.cache.stored[s.ids[uid]]) == uid)
  }

  predicate StoredOk(s: Path, id: nat)
    requires id < |s.cache.stored|
  {
    var data := s.cache.stored[id];
    KernelPath.DataRecord(Padded(data)) && Uid(data) in s.ids && s.ids[Uid(data)] == id
  }

  /** The process has looked at the packet. */
  predicate Looked(s: Path, uid: nat)
    requires Shaped(s.cache) && FateOk(s, uid)
  {
    uid in s.ids && s.cache.place[s.ids[uid]].Out? && s.cache.place[s.ids[uid]].p < s.looked
  }

  predicate StampsOk(s: Path, uid: nat)
    requires Shaped(s.cache) && FateOk(s, uid)
  {
    && (uid in s.sent ==> s.sent[uid] <= s.clock)
    && (uid in s.kern <==> uid in s.sent && uid < MAX_LOG_ENTRY)
    && (uid in s.kern ==> s.kern[uid] == s.sent[uid])
    && (uid in s.looks <==> Looked(s, uid))
    && (uid in s.user <==> uid in s.looks && uid < MAX_LOG_ENTRY)
    && (uid in s.user ==> s.sent[uid] <= s.user[uid] == s.looks[uid])
  }

  /** `pending` has the deliveries from the `looked`-th on, and then blank records. */
  predicate Remaining(pending: seq<seq<byte>>, out: seq<Delivery>, looked: nat)
  {
    && looked <= |out| <= looked + |pending|
    && forall j :: 0 <= j < |pending| ==>
         pending[j] == if looked + j < |out| then out[looked + j].bytes else Zeros(PKT_BUFFER_SIZE)
  }

  predicate PendingOk(s: Path)
    requires Formed(s)
  {
    && Remaining(s.pending, s.cache.out, s.looked)
    && (s.cache.r.Scanning? || s.cache.r.Grabbing? || s.cache.r.Delivering? ==> s.pending == [])
  }

  ghost predicate PathInv(s: Path)
  {
    && Formed(s) && Inv(s.cache) && PendingOk(s)
    && (s.cache.h.Testing? || s.cache.h.Filling? ==> KernelPath.DataRecord(Padded(s.cache.h.data)))
    && (forall id: nat :: id < |s.cache.stored| ==> StoredOk(s, id))
    && (forall uid: nat :: FateOk(s, uid) && StampsOk(s, uid))
  }

  /* ---- preservation ---- */

  lemma ArriveKeepsPath(s: Path, e: Event)
    requires PathInv(s) && Legal(s, e) && e.Arrive?
    ensures PathInv(Advance(s, e))
  {
    var s' := Advance(s, e);
    KernelPath.ClientPacketIsData(e.uid, e.created);
    StepKeepsInv(s.cache, Offer(KernelPath.ClientPacket(e.uid, e.created)));
    hide Inv, KernelPath.ClientPacket, KernelPath.DataRecord, Padded;
    forall id: nat | id < |s'.cache.stored| ensures StoredOk(s', id) {
      assert StoredOk(s, id);
    }
    forall uid: nat ensures FateOk(s', uid) && StampsOk(s', uid) {
      assert FateOk(s, uid) && StampsOk(s, uid);
    }
  }

  /** What a cache step does to the packets that were stored before it. */
  lemma StepAndPackets(c: State, m: Move)
    requires Inv(c) && Enabled(c, m) && !m.Offer?
    ensures var c' := Step(c, m);
            && c'.stored == c.stored + (if FlagsPacket(c, m) then [c.h.data] else [])
            && (forall id: nat :: id < |c.stored| && c.place[id].Out? ==> c'.place[id] == c.place[id])
            && (forall id: nat :: id < |c.stored| && c.place[id].InSlot? && c'.place[id].Out? ==>
                  c'.place[id].p >= |c.out|)
            && (FlagsPacket(c, m) ==> c'.place[|c.stored|].InSlot?)
            && (forall uid: nat :: InHand(c', uid) <==> InHand(c, uid) && !FlagsPacket(c, m) && !GivesUp(c, m))
            && (c'.h.Testing? || c'.h.Filling? ==> (c.h.Testing? || c.h.Filling?) && c'.h.data == c.h.data)
  {
    hide SearchOk, UnusedOk, SlotsOk, ReaderOk, PlacesOk, CountsOk, Padded, KernelPath.UidOf;
  }

  lemma CacheKeepsStored(s: Path, e: Event, id: nat)
    requires PathInv(s) && Legal(s, e) && e.CacheStep? && id < |Advance(s, e).cache.stored|
    ensures StoredOk(Advance(s, e), id)
  {
    StepAndPackets(s.cache, e.m);
    hide Inv, StampsOk, PendingOk, KernelPath.DataRecord, Padded, Step, Uid;
    assert !s.cache.h.Idle? && !s.cache.h.Advancing? ==> FateOk(s, Uid(s.cache.h.data));
    if id < |s.cache.stored| { assert StoredOk(s, id); }
  }

  lemma CacheKeepsFate(s: Path, e: Event, uid: nat)
    requires PathInv(s) && Legal(s, e) && e.CacheStep?
    ensures FateOk(Advance(s, e), uid) && StampsOk(Advance(s, e), uid)
  {
    StepAndPackets(s.cache, e.m);
    hide Inv, KernelPath.DataRecord, Padded, Step, Uid;
    assert FateOk(s, uid) && StampsOk(s, uid);
  }

  lemma DeliveredRecords(c: State)
    requires Inv(c) && c.r.Delivering?
    ensures Remaining(c.temp, ReaderStep(c, true).out, |c.out|)
  {
    var out := ReaderStep(c, true).out;
    forall j | 0 <= j < |c.taken| ensures out[|c.out| + j].bytes == c.temp[j] {
      assert out[|c.out| + j] == Deliveries(c)[j];
    }
  }

  lemma DeliveryKeepsPending(s: Path, copyOk: bool)
    requires Formed(s) && Inv(s.cache) && PendingOk(s) && s.cache.r.Delivering?
    ensures PendingOk(Advance(s, CacheStep(ReaderMove(copyOk))))
  {
    hide SearchOk, UnusedOk, HandlerOk, SlotsOk, ReaderOk, PlacesOk, CountsOk, Deliveries, Moved;
    var c' := ReaderStep(s.cache, copyOk);
    assert s.looked == |s.cache.out| && s.pending == [];
    assert copyOk ==> c'.r == Wiping(0, 0);
    assert !copyOk ==> c'.r == Resting && c'.out == s.cache.out;
    if copyOk { DeliveredRecords(s.cache); }
    assert Remaining(AllZero(PKTS_PER_BUFFER), s.cache.out, s.looked);
    hide Remaining, ReaderStep;
  }

  /** A read that ends leaves its records, or zeros; no other step touches the process's buffer. */
  lemma CacheKeepsPending(s: Path, m: Move)
    requires Formed(s) && Inv(s.cache) && PendingOk(s) && Legal(s, CacheStep(m))
    ensures PendingOk(Advance(s, CacheStep(m)))
  {
    hide SearchOk, UnusedOk, HandlerOk, SlotsOk, ReaderOk, PlacesOk, CountsOk, Deliveries, Moved;
    if m.ReaderMove? && s.cache.r.Delivering? {
      DeliveryKeepsPending(s, m.copyOk);
    } else {
      var c' := Step(s.cache, m);
      assert c'.out == s.cache.out;
      assert c'.r.Scanning? || c'.r.Grabbing? || c'.r.Delivering? ==>
        m.StartRead? || s.cache.r.Scanning? || s.cache.r.Grabbing? || s.cache.r.Delivering?;
      hide Step;
    }
  }

  lemma CacheKeepsPath(s: Path, e: Event)
    requires PathInv(s) && Legal(s, e) && e.CacheStep?
    ensures PathInv(Advance(s, e))
  {
    var s' := Advance(s, e);
    StepKeepsInv(s.cache, e.m);
    StepAndPackets(s.cache, e.m);
    CacheKeepsPending(s, e.m);
    hide Inv, StoredOk, FateOk, StampsOk, PendingOk, KernelPath.DataRecord, Padded, Step;
    forall id: nat | id < |s'.cache.stored| ensures StoredOk(s', id) {
      CacheKeepsStored(s, e, id);
    }
    forall uid: nat ensures FateOk(s', uid) && StampsOk(s', uid) {
      CacheKeepsFate(s, e, uid);
    }
  }

  /** The next record is the delivered packet `looked`, or blank. */
  lemma NextRecord(s: Path)
    requires PathInv(s) && s.pending != []
    ensures s.looked < |s.cache.out| ==>
              var id := s.cache.out[s.looked].id;
              && id < |s.cache.stored| && s.pending[0] == Padded(s.cache.stored[id])
              && s.cache.place[id] == Out(s.looked) && StoredOk(s, id)
              && KernelPath.DataRecord(s.pending[0]) && KernelPath.UidOf(s.pending[0]) == Uid(s.cache.stored[id])
              && !Blank(s.pending[0]) && Loggable(Decode(s.pending[0])) == (Uid(s.cache.stored[id]) < MAX_LOG_ENTRY)
    ensures s.looked >= |s.cache.out| ==> Blank(s.pending[0])
  {
    if s.looked < |s.cache.out| {
      HandedOutWhole(s.cache, s.looked);
      assert DeliveryOk(s.cache, s.looked);
      assert StoredOk(s, s.cache.out[s.looked].id);
    }
  }

  /** Each place of the delivered packets belongs to one packet. */
  lemma PlaceOfOne(s: Path, uid: nat)
    requires PathInv(s) && uid in s.ids && s.looked < |s.cache.out|
    requires FateOk(s, uid)
    ensures s.cache.place[s.ids[uid]] == Out(s.looked) <==> s.ids[uid] == s.cache.out[s.looked].id
  {
    assert PlaceOk(s.cache, s.ids[uid]) && DeliveryOk(s.cache, s.looked);
  }

  lemma UidOfRecord(r: seq<byte>)
    requires |r| == PKT_BUFFER_SIZE
    ensures KernelPath.UidOf(r) == Decode(r).uid && (Blank(r) ==> !KernelPath.DataRecord(r))
  {
  }

  lemma LookKeepsStamps(s: Path, e: Event, uid: nat)
    requires PathInv(s) && Legal(s, e) && e.LookAtRecord?
    ensures FateOk(Advance(s, e), uid) && StampsOk(Advance(s, e), uid)
  {
    hide Inv, KernelPath.DataRecord, KernelPath.UidOf, Padded, Decode, Loggable, Blank, StoredOk, PendingOk;
    assert FateOk(s, uid) && StampsOk(s, uid);
    NextRecord(s);
    UidOfRecord(s.pending[0]);
    if s.looked < |s.cache.out| && uid in s.ids { PlaceOfOne(s, uid); }
  }

  lemma RemainingAfterOne(pending: seq<seq<byte>>, out: seq<Delivery>, looked: nat)
    requires Remaining(pending, out, looked) && pending != []
    ensures Remaining(pending[1..], out, if looked < |out| then looked + 1 else looked)
  {
    assert forall j :: 0 <= j < |pending| - 1 ==> pending[1..][j] == pending[j + 1];
  }

  lemma LookKeepsPath(s: Path, e: Event)
    requires PathInv(s) && Legal(s, e) && e.LookAtRecord?
    ensures PathInv(Advance(s, e))
  {
    var s' := Advance(s, e);
    NextRecord(s);
    RemainingAfterOne(s.pending, s.cache.out, s.looked);
    hide Inv, Remaining, KernelPath.DataRecord, Padded, Decode, Loggable, Blank, FateOk, StampsOk, Logged;
    forall id: nat | id < |s'.cache.stored| ensures StoredOk(s', id) {
      assert StoredOk(s, id);
    }
    forall uid: nat ensures FateOk(s', uid) && StampsOk(s', uid) {
      LookKeepsStamps(s, e, uid);
    }
  }

  /* ---- runs ---- */

  predicate LegalRun(s: Path, events: seq<Event>)
    requires Formed(s)
    decreases |events|
  {
    events == [] || (Legal(s, events[0]) && LegalRun(Advance(s, events[0]), events[1..]))
  }

  function RunPath(s: Path, events: seq<Event>): (s': Path)
    requires Formed(s) && LegalRun(s, events)
    ensures Formed(s')
    decreases |events|
  {
    if events == [] then s else RunPath(Advance(s, events[0]), events[1..])
  }

  lemma {:induction false} RunKeepsPath(s: Path, events: seq<Event>)
    requires PathInv(s) && LegalRun(s, events)
    ensures PathInv(RunPath(s, events))
    decreases |events|
  {
    hide Inv, StoredOk, FateOk, StampsOk, PendingOk, Legal, Advance;
    if events != [] {
      match events[0] {
        case Arrive(_, _, _) => ArriveKeepsPath(s, events[0]);
        case CacheStep(_) => CacheKeepsPath(s, events[0]);
        case LookAtRecord(_) => LookKeepsPath(s, events[0]);
      }
      RunKeepsPath(Advance(s, events[0]), events[1..]);
    }
  }

  /** The packet is in the cache, whole, and was not delivered. */
  ghost predicate Cached(s: Path, uid: nat)
    requires Shaped(s.cache) && FateOk(s, uid)
  {
    uid in s.ids && InCache(s.cache, s.ids[uid])
  }

  /** It was delivered, whole, and the process has not looked at it. */
  ghost predicate Delivered(s: Path, uid: nat)
  {
    exists p: nat :: s.looked <= p < |s.cache.out| && p - s.looked < |s.pending| &&
      s.pending[p - s.looked] == s.cache.out[p].bytes && uid in s.ids && s.cache.out[p].id == s.ids[uid]
  }

  function One(b: bool): (n: nat)
  {
    if b then 1 else 0
  }

  lemma WhereStored(s: Path, uid: nat)
    requires PathInv(s) && uid in s.ids
    ensures FateOk(s, uid) && One(Cached(s, uid)) + One(Delivered(s, uid)) + One(Looked(s, uid)) == 1
  {
    assert FateOk(s, uid);
    var id := s.ids[uid];
    assert PlaceOk(s.cache, id);
    forall q: nat | q < |s.cache.out| && s.cache.out[q].id == id ensures s.cache.place[id] == Out(q) {
      assert DeliveryOk(s.cache, q);
    }
    StoredIsInOnePlace(s.cache, id);
    match s.cache.place[id] {
      case InSlot(i) =>
        assert SlotOk(s.cache, i);
      case Out(p) =>
        assert s.cache.out[p].id == id;
        if s.looked <= p {
          assert s.pending[p - s.looked] == s.cache.out[p].bytes;
        }
    }
  }

  /** For every legal run, with handler and reader interleaved in any way: each packet that
      arrived is in exactly one place: dropped, in the handler's hands, whole in the cache, whole
      in the read buffer, or looked at; its kernel stamp is its arrival time; and exactly the
      packets looked at are in the user log, with the time of the look, which is not earlier. */
  lemma EveryPacketIsInOnePlace(events: seq<Event>, uid: nat)
    requires LegalRun(Initial(Start), events)
    ensures var s := RunPath(Initial(Start), events);
            && FateOk(s, uid)
            && (uid in s.sent ==> One(uid in s.dropped) + One(InHand(s.cache, uid)) + One(Cached(s, uid)) +
                                  One(Delivered(s, uid)) + One(Looked(s, uid)) == 1)
            && (uid in s.kern <==> uid in s.sent && uid < MAX_LOG_ENTRY)
            && (uid in s.kern ==> s.kern[uid] == s.sent[uid])
            && (uid in s.user <==> Looked(s, uid) && uid < MAX_LOG_ENTRY)
            && (uid in s.looks <==> Looked(s, uid))
            && (uid in s.user ==> uid in s.kern && s.kern[uid] <= s.user[uid] == s.looks[uid])
  {
    StartInv();
    assert PathInv(Initial(Start));
    RunKeepsPath(Initial(Start), events);
    var s := RunPath(Initial(Start), events);
    assert FateOk(s, uid) && StampsOk(s, uid);
    if uid in s.ids { WhereStored(s, uid); }
  }
}
