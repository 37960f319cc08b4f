/** The eBPF path: the XDP program writes a packet's kernel timestamp and then its payload into
    two array maps (__eBPF_measure/ebpf_measure_kern.c); the user process polls the payload map
    uid by uid (__eBPF_measure/ebpf_measure_user.c). Map operations are atomic; any number of
    CPUs can be between the two writes. */
module EbpfHandoff {
  import opened Common
  import opened KernelModules

  /** max_entries of both maps */
  const MAP_ENTRIES := 1 + MAX_LOG_ENTRY

  /** The maps' keys are unsigned ints. */
  function Key(uid: u64): (key: u32)
  {
    uid % U32
  }

  /** An array map starts out zeroed. */
  const ZERO_PAYLOAD := Payload(0, 0, 0, 0, 0, 0, 0, 0)

  /* ---- the system ---- */

  datatype Handoff = Handoff(
    stamps: seq<u64>,              // uid_timestamps
    payloads: seq<Payload>,        // pkt_payload
    inFlight: map<nat, Payload>,   // stamped, payload not yet stored
    nextUid: u32,
    user: map<nat, u64>,           // user log
    sent: set<nat>,
    stored: set<nat>,              // uids the program is done with
    arrivals: map<nat, u64>,       // history: when the program read the clock for each uid
    polls: map<nat, u64>,          // history: when the user process read it for each fetched uid
    clock: u64)

  const Initial :=
    Handoff(seq(MAP_ENTRIES, _ => 0), seq(MAP_ENTRIES, _ => ZERO_PAYLOAD), map[], 0, map[], {}, {},
            map[], map[], 0)

  datatype Event =
    | Stamp(p: Payload, at: u64)
    | Store(uid: nat)
    | Poll(at: u64)

  /** Each uid is sent once and fits the maps' key; the clock is monotone. */
  predicate Legal(s: Handoff, e: Event)
  {
    match e {
      case Stamp(p, at) => s.clock <= at && p.uid < U32 && p.uid !in s.sent
      case Store(uid) => uid in s.inFlight
      case Poll(at) => s.clock <= at
    }
  }

  predicate Sized(s: Handoff)
  {
    |s.stamps| == |s.payloads| == MAP_ENTRIES
  }

  /** The user process accepts what the map holds for `uid`. */
  predicate Fetchable(payloads: seq<Payload>, uid: nat)
    requires |payloads| == MAP_ENTRIES
  {
    uid < MAP_ENTRIES && Loggable(payloads[uid])
  }

  function Step(s: Handoff, e: Event): (s': Handoff)
    requires Sized(s) && Legal(s, e)
    ensures Sized(s')
  {
    match e {
      case Stamp(p, at) =>
        var key := Key(p.uid);
        s.(stamps := if key < MAP_ENTRIES then s.stamps[key := at] else s.stamps,
           inFlight := s.inFlight[p.uid := p], sent := s.sent + {p.uid},
           arrivals := s.arrivals[p.uid := at], clock := at)
      case Store(uid) =>
        var p := s.inFlight[uid];
        var key := Key(p.uid);
        s.(payloads := if key < MAP_ENTRIES then s.payloads[key := p] else s.payloads,
           inFlight := s.inFlight - {uid}, stored := s.stored + {uid})
      case Poll(at) =>
        if Fetchable(s.payloads, s.nextUid) then
          s.(user := s.user[s.payloads[s.nextUid].uid := at], polls := s.polls[s.nextUid := at],
             nextUid := (s.nextUid + 1) % U32, clock := at)
        else
          s.(clock := at)
    }
  }

  /* ---- the invariant ---- */

  /** What the maps hold of a packet. */
  ghost predicate PacketOk(s: Handoff, uid: nat)
    requires Sized(s)
  {
    && (uid in s.inFlight ==> s.inFlight[uid].uid == uid && uid < U32 && uid in s.sent && uid !in s.stored)
    && (uid in s.sent ==> uid in s.inFlight || uid in s.stored)
    && (uid in s.stored ==> uid in s.sent)
    && (uid in s.arrivals <==> uid in s.sent)
    && (uid in s.arrivals ==> s.arrivals[uid] <= s.clock)
    && (uid < MAP_ENTRIES ==> KeyOk(s, uid))
  }

  ghost predicate KeyOk(s: Handoff, uid: nat)
    requires Sized(s) && uid < MAP_ENTRIES
  {
    && s.stamps[uid] == (if uid in s.arrivals then s.arrivals[uid] else 0)
    && (if uid in s.stored then s.payloads[uid].uid == uid else s.payloads[uid] == ZERO_PAYLOAD)
  }

  ghost predicate MapsOk(s: Handoff)
    requires Sized(s)
  {
    forall uid: nat :: PacketOk(s, uid)
  }

  /** Exactly the uids below next_uid are logged, none before it was stamped in the kernel. */
  ghost predicate EntryOk(s: Handoff, uid: nat)
    requires Sized(s) && s.nextUid <= MAX_LOG_ENTRY
  {
    && (uid in s.user <==> uid < s.nextUid)
    && (uid in s.polls <==> uid < s.nextUid)
    && (uid < s.nextUid ==> s.user[uid] == s.polls[uid])
    && (uid < s.nextUid ==> uid in s.stored && Loggable(s.payloads[uid]) && s.stamps[uid] <= s.user[uid])
  }

  ghost predicate LogOk(s: Handoff)
    requires Sized(s)
  {
    s.nextUid <= MAX_LOG_ENTRY && forall uid: nat :: EntryOk(s, uid)
  }

  ghost predicate Inv(s: Handoff)
  {
    Sized(s) && MapsOk(s) && LogOk(s)
  }

  lemma InitialInv()
    ensures Inv(Initial)
  {
    forall uid: nat ensures PacketOk(Initial, uid) {
    }
    forall uid: nat ensures EntryOk(Initial, uid) {
    }
  }

  lemma StampKeepsInv(s: Handoff, e: Event)
    requires Inv(s) && Legal(s, e) && e.Stamp?
    ensures Inv(Step(s, e))
  {
    var s' := Step(s, e);
    assert Key(e.p.uid) == e.p.uid;
    forall uid: nat ensures PacketOk(s', uid) {
      assert PacketOk(s, uid);
    }
    forall uid: nat ensures EntryOk(s', uid) {
      assert EntryOk(s, uid) && PacketOk(s, uid);
    }
  }

  lemma StoreKeepsInv(s: Handoff, e: Event)
    requires Inv(s) && Legal(s, e) && e.Store?
    ensures Inv(Step(s, e))
  {
    var s' := Step(s, e);
    assert PacketOk(s, e.uid);
    assert Key(s.inFlight[e.uid].uid) == e.uid;
    forall uid: nat ensures PacketOk(s', uid) {
      assert PacketOk(s, uid);
    }
    forall uid: nat ensures EntryOk(s', uid) {
      assert EntryOk(s, uid);
    }
  }

  /** What can be fetched was stored under its own uid: it is not the zero payload. */
  lemma FetchedUid(s: Handoff)
    requires Inv(s) && Fetchable(s.payloads, s.nextUid)
    ensures s.payloads[s.nextUid].uid == s.nextUid < MAX_LOG_ENTRY && s.nextUid in s.stored
    ensures s.stamps[s.nextUid] <= s.clock
  {
    assert PacketOk(s, s.nextUid);
  }

  lemma PollKeepsInv(s: Handoff, e: Event)
    requires Inv(s) && Legal(s, e) && e.Poll?
    ensures Inv(Step(s, e))
  {
    var s' := Step(s, e);
    if Fetchable(s.payloads, s.nextUid) {
      FetchedUid(s);
    }
    forall uid: nat ensures PacketOk(s', uid) {
      assert PacketOk(s, uid);
    }
    forall uid: nat ensures EntryOk(s', uid) {
      assert EntryOk(s, uid);
    }
  }

  lemma StepKeepsInv(s: Handoff, e: Event)
    requires Inv(s) && Legal(s, e)
    ensures Inv(Step(s, e))
  {
    match e {
      case Stamp(_, _) => StampKeepsInv(s, e);
      case Store(_) => StoreKeepsInv(s, e);
      case Poll(_) => PollKeepsInv(s, e);
    }
  }

  /* ---- runs ---- */

  predicate LegalRun(s: Handoff, events: seq<Event>)
    requires Sized(s)
    decreases |events|
  {
    events == [] || (Legal(s, events[0]) && LegalRun(Step(s, events[0]), events[1..]))
  }

  function Run(s: Handoff, events: seq<Event>): (s': Handoff)
    requires Sized(s) && LegalRun(s, events)
    ensures Sized(s')
    decreases |events|
  {
    if events == [] then s else Run(Step(s, events[0]), events[1..])
  }

  lemma {:induction false} RunKeepsInv(s: Handoff, events: seq<Event>)
    requires Inv(s) && LegalRun(s, events)
    ensures Inv(Run(s, events))
    decreases |events|
  {
    if events != [] {
      StepKeepsInv(s, events[0]);
      RunKeepsInv(Step(s, events[0]), events[1..]);
    }
  }

  /** In every reachable state next_uid is within the log, the map holds the arrival time of every
      packet sent so far, and exactly the uids below next_uid are logged, each at the time it was
      fetched, not before its arrival, and with a stored payload of its own. */
  lemma HandoffIsInOrder(events: seq<Event>, uid: nat)
    requires LegalRun(Initial, events)
    ensures var s := Run(Initial, events);
            && s.nextUid <= MAX_LOG_ENTRY
            && (uid in s.user <==> uid < s.nextUid)
            && (uid in s.arrivals <==> uid in s.sent)
            && (uid < MAP_ENTRIES ==> s.stamps[uid] == if uid in s.sent then s.arrivals[uid] else 0)
            && (uid in s.user ==> uid in s.sent && s.payloads[uid].uid == uid &&
                                  s.stamps[uid] == s.arrivals[uid] <= s.user[uid])
            && (uid in s.user <==> uid in s.polls)
            && (uid in s.user ==> s.user[uid] == s.polls[uid])
  {
    InitialInv();
    RunKeepsInv(Initial, events);
    var s := Run(Initial, events);
    assert PacketOk(s, uid) && EntryOk(s, uid);
  }

  /* ---- progress ---- */

  /** The first uid from `k` on that cannot be fetched, or MAX_LOG_ENTRY. */
  function FirstMissing(payloads: seq<Payload>, k: nat): (m: nat)
    requires |payloads| == MAP_ENTRIES && k <= MAX_LOG_ENTRY
    ensures k <= m <= MAX_LOG_ENTRY
    ensures forall j :: k <= j < m ==> Fetchable(payloads, j)
    ensures m < MAX_LOG_ENTRY ==> !Fetchable(payloads, m)
    decreases MAX_LOG_ENTRY - k
  {
    if k < MAX_LOG_ENTRY && Fetchable(payloads, k) then FirstMissing(payloads, k + 1) else k
  }

  predicate Polls(events: seq<Event>)
  {
    forall i :: 0 <= i < |events| ==> events[i].Poll?
  }

  /** Where polling will stop. */
  function Target(s: Handoff): (m: nat)
    requires Sized(s) && s.nextUid <= MAX_LOG_ENTRY
    ensures s.nextUid <= m
  {
    FirstMissing(s.payloads, s.nextUid)
  }

  lemma PollMoves(s: Handoff, e: Event)
    requires Inv(s) && Legal(s, e) && e.Poll?
    ensures var s' := Step(s, e);
            && Inv(s') && Target(s') == Target(s)
            && s'.nextUid == if s.nextUid < Target(s) then s.nextUid + 1 else s.nextUid
  {
    PollKeepsInv(s, e);
    hide MapsOk, EntryOk;
    if Fetchable(s.payloads, s.nextUid) {
      FetchedUid(s);
    }
  }

  lemma {:induction false} PollsAdvance(s: Handoff, polls: seq<Event>)
    requires Inv(s) && LegalRun(s, polls) && Polls(polls)
    ensures Run(s, polls).nextUid == if s.nextUid + |polls| <= Target(s) then s.nextUid + |polls| else Target(s)
    decreases |polls|
  {
    hide MapsOk, Target, Step, Legal;
    if polls != [] {
      PollMoves(s, polls[0]);
      PollsAdvance(Step(s, polls[0]), polls[1..]);
    }
  }

  /** From any reachable state, polling without arrivals advances next_uid by one a poll, up to
      exactly the first uid that is missing or MAX_LOG_ENTRY, and no further. */
  lemma PollingReachesFirstMissing(events: seq<Event>, polls: seq<Event>)
    requires LegalRun(Initial, events) && LegalRun(Run(Initial, events), polls) && Polls(polls)
    ensures var s := Run(Initial, events); var n := Run(s, polls).nextUid;
            && s.nextUid <= MAX_LOG_ENTRY
            && n == if s.nextUid + |polls| <= Target(s) then s.nextUid + |polls| else Target(s)
  {
    InitialInv();
    RunKeepsInv(Initial, events);
    PollsAdvance(Run(Initial, events), polls);
  }

  /* ---- what the client sends ---- */

  /** A data packet, as helper/client.c sends them. */
  predicate IsData(p: Payload)
  {
    p.clientUid != 0 && p.kind == PL_DATA && p.createdTime != 0
  }

  ghost predicate DataOnly(s: Handoff)
    requires Sized(s)
  {
    && (forall uid :: uid in s.inFlight ==> IsData(s.inFlight[uid]))
    && (forall uid: nat :: uid < MAP_ENTRIES && uid in s.stored ==> IsData(s.payloads[uid]))
  }

  predicate AllData(events: seq<Event>)
  {
    forall i :: 0 <= i < |events| && events[i].Stamp? ==> IsData(events[i].p)
  }

  lemma StepKeepsData(s: Handoff, e: Event)
    requires Inv(s) && Legal(s, e) && DataOnly(s) && (e.Stamp? ==> IsData(e.p))
    ensures DataOnly(Step(s, e))
  {
    if e.Store? {
      assert PacketOk(s, e.uid);
      assert Key(s.inFlight[e.uid].uid) == e.uid;
    }
  }

  lemma {:induction false} RunKeepsData(s: Handoff, events: seq<Event>)
    requires Inv(s) && LegalRun(s, events) && DataOnly(s) && AllData(events)
    ensures DataOnly(Run(s, events))
    decreases |events|
  {
    hide MapsOk, LogOk, DataOnly, Step, Legal;
    if events != [] {
      assert AllData([events[0]]);
      StepKeepsInv(s, events[0]);
      StepKeepsData(s, events[0]);
      RunKeepsData(Step(s, events[0]), events[1..]);
    }
  }

  lemma TargetIsFirstUnstored(s: Handoff)
    requires Inv(s) && DataOnly(s)
    ensures forall uid: nat :: uid < Target(s) ==> uid in s.stored
    ensures Target(s) < MAX_LOG_ENTRY ==> Target(s) !in s.stored
  {
    assert PacketOk(s, Target(s));
    forall uid: nat | uid < Target(s) ensures uid in s.stored {
      assert PacketOk(s, uid) && EntryOk(s, uid);
      if uid >= s.nextUid {
        assert Fetchable(s.payloads, uid);
      }
    }
  }

  /** If the client sends data packets only, what polling stops at is the first uid whose payload
      the program has not stored. */
  lemma PollingStopsAtFirstUnstored(events: seq<Event>)
    requires LegalRun(Initial, events) && AllData(events)
    ensures var s := Run(Initial, events);
            && s.nextUid <= MAX_LOG_ENTRY
            && (forall uid: nat :: uid < Target(s) ==> uid in s.stored)
            && (Target(s) < MAX_LOG_ENTRY ==> Target(s) !in s.stored)
  {
    hide Target, Step, Legal;
    InitialInv();
    RunKeepsInv(Initial, events);
    RunKeepsData(Initial, events);
    TargetIsFirstUnstored(Run(Initial, events));
  }
}
