/** The kernel module and the user process, run on any sequence of events, go through
    exactly the states of the step system in KernelPath. */
module Replay {
  import opened Common
  import opened PacketCaches
  import opened ChunkedLogs
  import opened KernelModules
  import opened KernelPath

  /** A client packet as it reaches the handler; `headers` are its IP and UDP headers. */
  function ClientFrame(headers: seq<byte>, uid: u64, created: u64): (f: Frame)
    requires |headers| == IP_UDP_HEADERS
    ensures Accepted(f) && InBounds(f)
  {
    Frame(4, UDP_PROTOCOL, KM_PORT, PAYLOAD_SIZE + 8, headers + ClientPacket(uid, created))
  }

  lemma FrameSlices(f: Frame, headers: seq<byte>, payload: PacketData)
    requires |headers| == IP_UDP_HEADERS && |payload| >= 16
    requires f.data == headers + payload && f.udpLen == |payload| + 8
    ensures UdpPayload(f) == payload && FrameUid(f) == WordAt(payload, 1)
  {
    assert f.data[IP_UDP_HEADERS + 8..IP_UDP_HEADERS + 16] == payload[8..16];
  }

  lemma ClientUid(uid: u64, created: u64)
    ensures |ClientPacket(uid, created)| == PAYLOAD_SIZE && WordAt(ClientPacket(uid, created), 1) == uid
  {
    var p := Payload(1, uid, PL_DATA, created, 0, 0, 0, 0);
    WordSlice(Fields(p), 1);
    ReadU64RoundTrip(uid);
  }

  lemma ClientFrameContents(headers: seq<byte>, uid: u64, created: u64)
    requires |headers| == IP_UDP_HEADERS
    ensures var f := ClientFrame(headers, uid, created);
            UdpPayload(f) == ClientPacket(uid, created) && FrameUid(f) == uid
  {
    ClientUid(uid, created);
    FrameSlices(ClientFrame(headers, uid, created), headers, ClientPacket(uid, created));
  }

  /** The kernel side is in state `s`. */
  ghost predicate KernelIn(km: KernelModule, s: System)
    reads km, km.cache, km.cache.status, km.cache.slots, km.cache.slots.bytes, km.cache.temp, km.cache.temp.bytes,
          km.log, km.log.chunks
  {
    && km.Valid()
    && km.cache.queue == s.queue && km.log.flat == s.kern
    && km.countPkt == |s.sent| % U64 && km.cache.countOverflow == |s.dropped| % U64
  }

  /** The user side is in state `s`. */
  ghost predicate UserIn(up: UserProcess, s: System)
    reads up, up.buffRead, up.buffRead.bytes, up.log, up.log.chunks
  {
    && up.Valid()
    && up.log.flat == s.user
    && |s.pending| <= PKTS_PER_BUFFER
    && up.buffRead.view[PKTS_PER_BUFFER - |s.pending|..] == s.pending
  }

  /** What the two packet counters need of a state. */
  ghost predicate Counted(s: System)
  {
    Shaped(s) && s.dropped <= s.sent
  }

  lemma ArrivalCounts(s: System, e: Event)
    requires Counted(s) && Legal(s, e) && e.Arrive?
    ensures var s' := Step(s, e);
            && Counted(s')
            && s'.kern == Stamped(s.kern, e.uid, e.at)
            && s'.queue == s.queue + (if |s.queue| < MAX_PKT then [ClientPacket(e.uid, e.created)] else [])
            && |s'.sent| % U64 == (|s.sent| % U64 + 1) % U64
            && |s'.dropped| % U64 == if |s.queue| < MAX_PKT then |s.dropped| % U64 else (|s.dropped| % U64 + 1) % U64
  {
    hide Stamped, ClientPacket;
    assert e.uid !in s.dropped;
  }

  /** The handler on one client packet. */
  method Receive(km: KernelModule, headers: seq<byte>, uid: u64, created: u64, at: u64)
    requires km.Valid() && |headers| == IP_UDP_HEADERS
    modifies km.Repr
    ensures km.Valid()
    ensures km.cache.queue == old(km.cache.queue) +
              if |old(km.cache.queue)| < MAX_PKT then [ClientPacket(uid, created)] else []
    ensures km.log.flat == Stamped(old(km.log.flat), uid, at)
    ensures km.countPkt == (old(km.countPkt) + 1) % U64
    ensures km.cache.countOverflow == if |old(km.cache.queue)| < MAX_PKT then old(km.cache.countOverflow)
                                      else (old(km.cache.countOverflow) + 1) % U64
  {
    var f := ClientFrame(headers, uid, created);
    ClientFrameContents(headers, uid, created);
    var stored := km.RxhPacketIn(f, at);
  }

  method Arrival(km: KernelModule, ghost s: System, e: Event, headers: seq<byte>)
    requires KernelIn(km, s) && Counted(s) && Legal(s, e) && e.Arrive? && |headers| == IP_UDP_HEADERS
    modifies km.Repr
    ensures KernelIn(km, Step(s, e))
  {
    ArrivalCounts(s, e);
    Receive(km, headers, e.uid, e.created, e.at);
  }

  /** Arrivals leave the user side alone, looks the kernel side. */
  lemma OtherSideStays(s: System, e: Event)
    requires Shaped(s) && Legal(s, e)
    ensures var s' := Step(s, e);
            && (e.Arrive? ==> s'.user == s.user && s'.pending == s.pending)
            && (e.LookAtRecord? ==> s'.queue == s.queue && s'.kern == s.kern && s'.sent == s.sent &&
                                    s'.dropped == s.dropped)
  {
  }

  method ArrivalStep(km: KernelModule, up: UserProcess, ghost s: System, e: Event, headers: seq<byte>)
    requires KernelIn(km, s) && UserIn(up, s) && km.Repr !! up.Repr
    requires Counted(s) && Legal(s, e) && e.Arrive? && |headers| == IP_UDP_HEADERS
    modifies km.Repr
    ensures KernelIn(km, Step(s, e)) && UserIn(up, Step(s, e))
  {
    OtherSideStays(s, e);
    hide KernelIn, Step;
    Arrival(km, s, e, headers);
  }

  method BatchRead(km: KernelModule, up: UserProcess, ghost s: System, e: Event)
    requires KernelIn(km, s) && UserIn(up, s) && km.Repr !! up.Repr && Counted(s) && Legal(s, e) && e.ReadBatch?
    modifies km.Repr, up.buffRead, up.buffRead.bytes
    ensures KernelIn(km, Step(s, e)) && UserIn(up, Step(s, e))
  {
    var delivered, records := km.cache.Read(0, e.copyOk);
    up.Refill(delivered, if delivered then records else AllZero(PKTS_PER_BUFFER));
  }

  method LookAt(up: UserProcess, ghost s: System, e: Event, i: nat)
    requires UserIn(up, s) && Counted(s) && Legal(s, e) && e.LookAtRecord? && i == PKTS_PER_BUFFER - |s.pending|
    modifies up.log.Repr
    ensures UserIn(up, Step(s, e))
  {
    assert up.buffRead.view[i..][0] == s.pending[0];
    up.ProcessRecord(i, e.at);
    assert up.buffRead.view[i + 1..] == s.pending[1..];
  }

  method LookStep(km: KernelModule, up: UserProcess, ghost s: System, e: Event, i: nat)
    requires KernelIn(km, s) && UserIn(up, s) && km.Repr !! up.Repr
    requires Counted(s) && Legal(s, e) && e.LookAtRecord? && i == PKTS_PER_BUFFER - |s.pending|
    modifies up.Repr
    ensures KernelIn(km, Step(s, e)) && UserIn(up, Step(s, e))
  {
    OtherSideStays(s, e);
    hide Step;
    LookAt(up, s, e, i);
  }

  /** A client's record goes into the user log at its uid, with the time given. */
  method LookAtClientRecord(up: UserProcess, i: nat, now: u64, uid: u64, created: u64)
    requires up.Valid() && i < PKTS_PER_BUFFER && up.buffRead.view[i] == Padded(ClientPacket(uid, created))
    requires created != 0 && uid < MAX_LOG_ENTRY
    modifies up.log.Repr
    ensures up.Valid() && up.log.flat == old(up.log.flat)[uid := now]
  {
    ClientPacketIsData(uid, created);
    up.ProcessRecord(i, now);
  }

  function ClientQueue(uids: seq<u64>, created: seq<u64>): (queue: seq<PacketData>)
    requires |uids| == |created|
    ensures |queue| == |uids|
  {
    seq(|uids|, k requires 0 <= k < |uids| => ClientPacket(uids[k], created[k]))
  }

  lemma RecordOfClient(uids: seq<u64>, created: seq<u64>, k: nat, uid: nat)
    requires |uids| == |created| && k < PKTS_PER_BUFFER && forall i :: 0 <= i < |created| ==> created[i] != 0
    ensures LogsUid(Batch(ClientQueue(uids, created)), k, uid) <==> k < |uids| && uids[k] == uid < MAX_LOG_ENTRY
  {
    var queue := ClientQueue(uids, created);
    assert Batch(queue)[k] == if k < |uids| then Padded(queue[k]) else Zeros(PKT_BUFFER_SIZE);
    hide Batch, ClientPacket, Padded, Decode;
    if k < |uids| {
      ClientPacketIsData(uids[k], created[k]);
    }
  }

  predicate DistinctUids(uids: seq<u64>)
  {
    forall i, j :: 0 <= i < j < |uids| ==> uids[i] != uids[j]
  }

  /** One of the first four packets has this uid, and it fits the log. */
  predicate InBatch(uids: seq<u64>, k: nat, uid: nat)
  {
    k < |uids| && k < 4 && uids[k] == uid < MAX_LOG_ENTRY
  }

  lemma ClientsAreLogged(log: map<nat, u64>, uids: seq<u64>, created: seq<u64>, times: seq<u64>, uid: nat)
    requires |uids| == |created| && |times| == PKTS_PER_BUFFER && DistinctUids(uids)
    requires forall i :: 0 <= i < |created| ==> created[i] != 0
    ensures var log' := LoggedFrom(log, Batch(ClientQueue(uids, created)), times, 0);
            && (forall k: nat :: InBatch(uids, k, uid) ==> uid in log' && log'[uid] == times[k])
            && ((forall k: nat :: !InBatch(uids, k, uid)) ==> SameAt(log, log', uid))
  {
    var records := Batch(ClientQueue(uids, created));
    hide LogsUid, ClientQueue, Batch, LoggedFrom, SameAt;
    BatchIsLogged(log, records, times);
    forall k: nat | k < PKTS_PER_BUFFER ensures LogsUid(records, k, uid) <==> InBatch(uids, k, uid) {
      RecordOfClient(uids, created, k, uid);
    }
    forall k: nat | InBatch(uids, k, uid) ensures LastFor(records, k, uid) {
    }
  }

  /** One turn of the outer loop on the oldest packets of a queue of client packets: each is
      logged at its uid with the time it was looked at, and no other entry changes. */
  method DrainClientPackets(up: UserProcess, uids: seq<u64>, created: seq<u64>, times: seq<u64>)
    requires up.Valid() && |uids| == |created| && |times| == PKTS_PER_BUFFER && DistinctUids(uids)
    requires forall i :: 0 <= i < |created| ==> created[i] != 0
    modifies up.Repr
    ensures up.Valid()
    ensures forall k: nat :: k < |uids| && k < 4 && uids[k] < MAX_LOG_ENTRY ==>
              uids[k] in up.log.flat && up.log.flat[uids[k]] == times[k]
    ensures forall uid: nat :: (forall k: nat :: !InBatch(uids, k, uid)) ==>
              (uid in up.log.flat <==> uid in old(up.log.flat)) &&
              (uid in up.log.flat ==> up.log.flat[uid] == old(up.log.flat)[uid])
  {
    ghost var before := up.log.flat;
    up.Drain(true, Batch(ClientQueue(uids, created)), times);
    ghost var after := up.log.flat;
    hide UserProcess.Valid, LoggedFrom, DistinctUids, NoneFor, LastFor;
    forall uid: nat
      ensures forall k: nat :: InBatch(uids, k, uid) ==> uid in after && after[uid] == times[k]
      ensures (forall k: nat :: !InBatch(uids, k, uid)) ==> SameAt(before, after, uid)
    {
      ClientsAreLogged(before, uids, created, times, uid);
    }
    forall k: nat | k < |uids| && k < 4 && uids[k] < MAX_LOG_ENTRY ensures InBatch(uids, k, uids[k]) {
    }
  }

  /** `left` is the number of records of the last batch the user process has yet to see. */
  method Perform(km: KernelModule, up: UserProcess, ghost s: System, e: Event, headers: seq<byte>, left: nat)
    returns (left': nat)
    requires KernelIn(km, s) && UserIn(up, s) && km.Repr !! up.Repr
    requires Counted(s) && Legal(s, e) && |headers| == IP_UDP_HEADERS && left == |s.pending|
    modifies km.Repr, up.Repr
    ensures KernelIn(km, Step(s, e)) && UserIn(up, Step(s, e)) && left' == |Step(s, e).pending|
  {
    hide KernelIn, Logged, DataRecord, Stamped, Batch, ClientPacket;
    left' := left;
    match e {
      case Arrive(_, _, _) =>
        ArrivalStep(km, up, s, e, headers);
      case ReadBatch(_, _) =>
        BatchRead(km, up, s, e);
        left' := PKTS_PER_BUFFER;
      case LookAtRecord(_) =>
        LookStep(km, up, s, e, PKTS_PER_BUFFER - left);
        left' := left - 1;
    }
  }

  lemma FirstStep(s: System, events: seq<Event>) returns (s': System)
    requires Counted(s) && LegalRun(s, events) && events != []
    ensures Legal(s, events[0]) && s' == Step(s, events[0]) && Counted(s')
    ensures LegalRun(s', events[1..]) && Run(s, events) == Run(s', events[1..])
  {
    s' := Step(s, events[0]);
  }

  /** Any legal run of the system, carried out by the real operations. */
  method ReplayRun(km: KernelModule, up: UserProcess, ghost s: System, events: seq<Event>, headers: seq<byte>,
                   left: nat)
    requires KernelIn(km, s) && UserIn(up, s) && km.Repr !! up.Repr
    requires Counted(s) && LegalRun(s, events) && |headers| == IP_UDP_HEADERS && left == |s.pending|
    modifies km.Repr, up.Repr
    ensures KernelIn(km, Run(s, events)) && UserIn(up, Run(s, events))
    decreases |events|
  {
    if events != [] {
      ghost var s' := FirstStep(s, events);
      var left' := Perform(km, up, s, events[0], headers, left);
      ReplayRun(km, up, s', events[1..], headers, left');
    }
  }

  /** The module as loaded and the process as started are in the initial state. */
  method StartUp() returns (km: KernelModule, up: UserProcess)
    ensures KernelIn(km, Start) && UserIn(up, Start) && km.Repr !! up.Repr && Counted(Start)
    ensures fresh(km.Repr) && fresh(up.Repr)
  {
    CompiledSizes();
    km := new KernelModule(6);
    up := new UserProcess(6);
  }
}
