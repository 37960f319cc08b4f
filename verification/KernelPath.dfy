/** The kernel-module measurement path from end to end: client packets (helper/client.c) are
    stamped and cached by the handler, read out in batches, and stamped again by the user
    process. Handler, `read` and the processing of one record are each one step, in any
    interleaving. */
module KernelPath {
  import opened Common
  import opened PacketCaches
  import opened KernelModules

  /* ---- client packets ---- */

  /** What helper/client.c sends with number `uid`. */
  function ClientPacket(uid: u64, created: u64): (d: PacketData)
  {
    Encode(Payload(1, uid, PL_DATA, created, 0, 0, 0, 0))
  }

  function UidOf(record: seq<byte>): (uid: u64)
    requires |record| == PKT_BUFFER_SIZE
  {
    Decode(record).uid
  }

  /** A record that the user process recognises as data. */
  predicate DataRecord(record: seq<byte>)
    requires |record| == PKT_BUFFER_SIZE
  {
    var p := Decode(record);
    !Blank(record) && p.clientUid != 0 && p.kind == PL_DATA && p.createdTime != 0
  }

  lemma ClientPacketIsData(uid: u64, created: u64)
    requires created != 0
    ensures DataRecord(Padded(ClientPacket(uid, created)))
    ensures UidOf(Padded(ClientPacket(uid, created))) == uid
  {
    var p := Payload(1, uid, PL_DATA, created, 0, 0, 0, 0);
    PayloadRoundTrip(p, Zeros(PKT_BUFFER_SIZE - PAYLOAD_SIZE));
    FirstByte(Fields(p));
  }

  lemma FirstByte(words: seq<u64>)
    requires words != []
    ensures EncodeWords(words) != [] && EncodeWords(words)[0] == words[0] % 0x100
  {
  }

  /* ---- the first-byte test ---- */

  /** The records a pass over the buffer does not skip, in order. */
  function NonBlank(records: seq<seq<byte>>): (rs: seq<seq<byte>>)
    requires forall k :: 0 <= k < |records| ==> |records[k]| == PKT_BUFFER_SIZE
    ensures forall k :: 0 <= k < |rs| ==> |rs[k]| == PKT_BUFFER_SIZE && !Blank(rs[k])
  {
    if records == [] then []
    else (if Blank(records[0]) then [] else [records[0]]) + NonBlank(records[1..])
  }

  function PadAll(queue: seq<PacketData>): (rs: seq<seq<byte>>)
    ensures |rs| == |queue|
    ensures forall k :: 0 <= k < |queue| ==> rs[k] == Padded(queue[k])
  {
    seq(|queue|, k requires 0 <= k < |queue| => Padded(queue[k]))
  }

  lemma {:induction false} NonBlankShape(records: seq<seq<byte>>, n: nat)
    requires n <= |records|
    requires forall k :: 0 <= k < |records| ==> |records[k]| == PKT_BUFFER_SIZE
    requires forall k :: n <= k < |records| ==> Blank(records[k])
    ensures |NonBlank(records)| <= n
    ensures NonBlank(records) == records[..n] <==> forall k :: 0 <= k < n ==> !Blank(records[k])
    decreases |records|
  {
    if records != [] {
      var rest := records[1..];
      NonBlankShape(rest, if n == 0 then 0 else n - 1);
      if n > 0 {
        assert records[..n] == [records[0]] + rest[..n - 1];
        assert forall k :: 0 <= k < n - 1 ==> rest[k] == records[k + 1];
      }
    }
  }

  /** The user loop recovers exactly the packets of the batch, in arrival order, if and only
      if none of them starts with a zero byte. */
  lemma FirstByteTestRecoversBatch(queue: seq<PacketData>)
    ensures NonBlank(Batch(queue)) == PadAll(queue[..BatchSize(queue)])
            <==> forall k :: 0 <= k < BatchSize(queue) ==> queue[k] != [] && queue[k][0] != 0
  {
    var n := BatchSize(queue);
    forall k | 0 <= k < PKTS_PER_BUFFER
      ensures |Batch(queue)[k]| == PKT_BUFFER_SIZE && (n <= k ==> Batch(queue)[k] == Zeros(PKT_BUFFER_SIZE))
    {
    }
    NonBlankShape(Batch(queue), n);
    assert Batch(queue)[..n] == PadAll(queue[..n]);
    forall k | 0 <= k < n
      ensures Blank(Batch(queue)[k]) <==> queue[k] == [] || queue[k][0] == 0
    {
    }
  }

  /* ---- the system ---- */

  datatype System = System(
    queue: seq<PacketData>,        // held by the cache
    pending: seq<seq<byte>>,       // records of the last batch not yet looked at
    kern: map<nat, u64>,           // kernel log
    user: map<nat, u64>,           // user log
    dropped: set<nat>,             // uids of discarded packets
    sent: set<nat>,                // uids the client has used
    arrivals: map<nat, u64>,       // history: when the handler read the clock for each uid
    looks: map<nat, u64>,          // history: when the user process read it for each data record
    accepted: seq<seq<byte>>,      // padded packets stored so far, in arrival order
    taken: seq<seq<byte>>,         // data records the user process has looked at, in order
    clock: u64)

  const Start := System([], [], map[], map[], {}, {}, map[], map[], [], [], 0)

  datatype Event =
    | Arrive(uid: u64, created: u64, at: u64)
    | ReadBatch(copyOk: bool, at: u64)
    | LookAtRecord(at: u64)

  /** Client uids are distinct, the clock is monotone, and the user process starts the next
      read when it is through with the last batch. */
  predicate Legal(s: System, e: Event)
  {
    && s.clock <= e.at
    && match e {
         case Arrive(uid, created, _) => created != 0 && uid !in s.sent
         case ReadBatch(_, _) => s.pending == []
         case LookAtRecord(_) => s.pending != []
       }
  }

  predicate Shaped(s: System)
  {
    && |s.queue| <= MAX_PKT
    && |s.pending| <= PKTS_PER_BUFFER
    && forall k :: 0 <= k < |s.pending| ==> |s.pending[k]| == PKT_BUFFER_SIZE
  }

  function Step(s: System, e: Event): (s': System)
    requires Shaped(s) && Legal(s, e)
    ensures Shaped(s')
  {
    match e {
      case Arrive(uid, created, at) =>
        var s1 := s.(kern := Stamped(s.kern, uid, at), sent := s.sent + {uid},
                       arrivals := s.arrivals[uid := at], clock := at);
        if |s.queue| >= MAX_PKT then
          s1.(dropped := s.dropped + {uid})
        else
          s1.(queue := s.queue + [ClientPacket(uid, created)],
              accepted := s.accepted + [Padded(ClientPacket(uid, created))])
      case ReadBatch(copyOk, at) =>
        if copyOk then
          s.(queue := s.queue[BatchSize(s.queue)..], pending := Batch(s.queue), clock := at)
        else
          s.(pending := AllZero(PKTS_PER_BUFFER), clock := at)
      case LookAtRecord(at) =>
        var r := s.pending[0];
        s.(user := Logged(s.user, r, at), pending := s.pending[1..],
           looks := if DataRecord(r) then s.looks[UidOf(r) := at] else s.looks,
           taken := if Blank(r) then s.taken else s.taken + [r], clock := at)
    }
  }

  /* ---- what is held ---- */

  /** Packets that left neither by a drop nor into the user process, oldest first. */
  function Held(s: System): (records: seq<seq<byte>>)
    requires Shaped(s)
    ensures forall k :: 0 <= k < |records| ==> |records[k]| == PKT_BUFFER_SIZE
  {
    NonBlank(s.pending) + PadAll(s.queue)
  }

  predicate AllData(records: seq<seq<byte>>)
    requires forall k :: 0 <= k < |records| ==> |records[k]| == PKT_BUFFER_SIZE
  {
    forall k :: 0 <= k < |records| ==> DataRecord(records[k])
  }

  function Uids(records: seq<seq<byte>>): (uids: set<nat>)
    requires forall k :: 0 <= k < |records| ==> |records[k]| == PKT_BUFFER_SIZE
  {
    set k | 0 <= k < |records| :: UidOf(records[k])
  }

  ghost predicate DistinctUids(records: seq<seq<byte>>)
    requires forall k :: 0 <= k < |records| ==> |records[k]| == PKT_BUFFER_SIZE
  {
    forall j, k :: 0 <= j < k < |records| ==> UidOf(records[j]) != UidOf(records[k])
  }

  lemma HeldAfterArrival(s: System, e: Event)
    requires Shaped(s) && Legal(s, e) && e.Arrive?
    ensures Held(Step(s, e)) ==
            Held(s) + if |s.queue| >= MAX_PKT then [] else [Padded(ClientPacket(e.uid, e.created))]
  {
    if |s.queue| < MAX_PKT {
      var d := ClientPacket(e.uid, e.created);
      assert PadAll(s.queue + [d]) == PadAll(s.queue) + [Padded(d)];
    }
  }

  lemma PadAllSplit(queue: seq<PacketData>, n: nat)
    requires n <= |queue|
    ensures PadAll(queue) == PadAll(queue[..n]) + PadAll(queue[n..])
  {
  }

  lemma DataPacketsAreTaken(queue: seq<PacketData>)
    requires AllData(PadAll(queue))
    ensures NonBlank(Batch(queue)) == PadAll(queue[..BatchSize(queue)])
  {
    forall k | 0 <= k < BatchSize(queue) ensures queue[k] != [] && queue[k][0] != 0 {
      assert DataRecord(PadAll(queue)[k]);
    }
    FirstByteTestRecoversBatch(queue);
  }

  lemma HeldAfterRead(s: System, e: Event)
    requires Shaped(s) && Legal(s, e) && e.ReadBatch? && AllData(PadAll(s.queue))
    ensures Held(Step(s, e)) == Held(s)
  {
    if e.copyOk {
      DataPacketsAreTaken(s.queue);
      PadAllSplit(s.queue, BatchSize(s.queue));
    } else {
      NonBlankShape(AllZero(PKTS_PER_BUFFER), 0);
    }
  }

  lemma HeldAfterLook(s: System, e: Event)
    requires Shaped(s) && Legal(s, e) && e.LookAtRecord?
    ensures var h := Held(s);
            if Blank(s.pending[0]) then Held(Step(s, e)) == h
            else h != [] && h[0] == s.pending[0] && Held(Step(s, e)) == h[1..]
  {
    var p := s.pending;
    hide PadAll, Blank;
    assert NonBlank(p) == (if Blank(p[0]) then [] else [p[0]]) + NonBlank(p[1..]);
    assert NonBlank(p)[..] == NonBlank(p);
  }

  lemma QueueIsData(s: System)
    requires Shaped(s) && AllData(Held(s))
    ensures AllData(PadAll(s.queue))
  {
    forall k | 0 <= k < |s.queue| ensures DataRecord(PadAll(s.queue)[k]) {
      assert Held(s)[|NonBlank(s.pending)| + k] == PadAll(s.queue)[k];
    }
  }

  lemma UidsAppend(records: seq<seq<byte>>, r: seq<byte>)
    requires forall k :: 0 <= k < |records| ==> |records[k]| == PKT_BUFFER_SIZE
    requires |r| == PKT_BUFFER_SIZE
    ensures Uids(records + [r]) == Uids(records) + {UidOf(r)}
    ensures DistinctUids(records) && UidOf(r) !in Uids(records) ==> DistinctUids(records + [r])
    ensures AllData(records) && DataRecord(r) ==> AllData(records + [r])
  {
    var all := records + [r];
    forall uid | uid in Uids(records) + {UidOf(r)} ensures uid in Uids(all) {
      if uid in Uids(records) {
        var k :| 0 <= k < |records| && UidOf(records[k]) == uid;
        assert all[k] == records[k];
      } else {
        assert all[|records|] == r;
      }
    }
  }

  lemma UidsDrop(records: seq<seq<byte>>)
    requires forall k :: 0 <= k < |records| ==> |records[k]| == PKT_BUFFER_SIZE
    requires records != [] && DistinctUids(records) && AllData(records)
    ensures Uids(records[1..]) == Uids(records) - {UidOf(records[0])}
    ensures DistinctUids(records[1..]) && AllData(records[1..])
    ensures UidOf(records[0]) in Uids(records) && DataRecord(records[0])
  {
    var rest := records[1..];
    assert forall k :: 0 <= k < |rest| ==> rest[k] == records[k + 1];
    forall uid | uid in Uids(records) && uid != UidOf(records[0]) ensures uid in Uids(rest) {
      var k :| 0 <= k < |records| && UidOf(records[k]) == uid;
      assert rest[k - 1] == records[k];
    }
  }

  /* ---- the invariant ---- */

  ghost predicate ExactlyOne(a: bool, b: bool, c: bool)
  {
    (a && !b && !c) || (!a && b && !c) || (!a && !b && c)
  }

  /** What the client sent below MAX_LOG_ENTRY has its arrival time as kernel stamp and is in
      exactly one place; a user stamp is the time the record was looked at, and not earlier than
      the kernel stamp. */
  ghost predicate UidOk(s: System, held: set<nat>, uid: nat)
  {
    && (uid in s.kern <==> uid in s.sent && uid < MAX_LOG_ENTRY)
    && (uid in s.arrivals <==> uid in s.sent)
    && (uid in s.kern ==> s.kern[uid] == s.arrivals[uid] <= s.clock)
    && (uid in s.user || uid in s.dropped || uid in held ==> uid in s.sent)
    && (uid in s.user <==> uid in s.looks && uid < MAX_LOG_ENTRY)
    && (uid in s.user ==> s.user[uid] == s.looks[uid])
    && (uid in s.kern ==> ExactlyOne(uid in s.user, uid in held, uid in s.dropped))
    && (uid in s.user ==> s.kern[uid] <= s.user[uid])
  }

  ghost predicate Ledger(s: System, held: set<nat>)
  {
    forall uid: nat :: UidOk(s, held, uid)
  }

  ghost predicate Inv(s: System)
  {
    && Shaped(s)
    && AllData(Held(s)) && DistinctUids(Held(s))
    && s.accepted == s.taken + Held(s)
    && Ledger(s, Uids(Held(s)))
  }

  lemma SameLedger(s: System, s': System, held: set<nat>)
    requires Ledger(s, held) && s.clock <= s'.clock
    requires s'.kern == s.kern && s'.user == s.user && s'.dropped == s.dropped
    requires s'.sent == s.sent && s'.arrivals == s.arrivals && s'.looks == s.looks
    ensures Ledger(s', held)
  {
    forall uid: nat ensures UidOk(s', held, uid) {
      assert UidOk(s, held, uid);
    }
  }

  lemma ArriveKeepsLedger(s: System, e: Event, held: set<nat>)
    requires Shaped(s) && Legal(s, e) && e.Arrive? && Ledger(s, held)
    ensures Ledger(Step(s, e), if |s.queue| >= MAX_PKT then held else held + {e.uid})
  {
    var held' := if |s.queue| >= MAX_PKT then held else held + {e.uid};
    forall uid: nat ensures UidOk(Step(s, e), held', uid) {
      assert UidOk(s, held, uid);
    }
  }

  lemma LookKeepsLedger(s: System, e: Event, held: set<nat>)
    requires Shaped(s) && Legal(s, e) && e.LookAtRecord? && Ledger(s, held)
    requires DataRecord(s.pending[0]) && UidOf(s.pending[0]) in held
    ensures Ledger(Step(s, e), held - {UidOf(s.pending[0])})
  {
    forall uid: nat ensures UidOk(Step(s, e), held - {UidOf(s.pending[0])}, uid) {
      assert UidOk(s, held, uid);
    }
  }

  lemma StoreKeepsHeld(s: System, e: Event)
    requires Inv(s) && Legal(s, e) && e.Arrive? && |s.queue| < MAX_PKT
    ensures var h := Held(Step(s, e));
            && AllData(h) && DistinctUids(h)
            && Uids(h) == Uids(Held(s)) + {e.uid}
            && Step(s, e).accepted == s.taken + h
  {
    assert UidOk(s, Uids(Held(s)), e.uid);
    hide Uids, AllData, DistinctUids, DataRecord, UidOf, NonBlank, PadAll, ClientPacket;
    HeldAfterArrival(s, e);
    ClientPacketIsData(e.uid, e.created);
    UidsAppend(Held(s), Padded(ClientPacket(e.uid, e.created)));
  }

  lemma ArriveKeepsInv(s: System, e: Event)
    requires Inv(s) && Legal(s, e) && e.Arrive?
    ensures Inv(Step(s, e))
  {
    ArriveKeepsLedger(s, e, Uids(Held(s)));
    if |s.queue| < MAX_PKT {
      StoreKeepsHeld(s, e);
    } else {
      HeldAfterArrival(s, e);
    }
  }

  lemma ReadKeepsInv(s: System, e: Event)
    requires Inv(s) && Legal(s, e) && e.ReadBatch?
    ensures Inv(Step(s, e))
  {
    hide Uids, AllData, DistinctUids, UidOk, NonBlank, PadAll, Batch;
    QueueIsData(s);
    HeldAfterRead(s, e);
    SameLedger(s, Step(s, e), Uids(Held(s)));
  }

  lemma BlankIsNoData(r: seq<byte>)
    requires |r| == PKT_BUFFER_SIZE
    ensures Blank(r) ==> !DataRecord(r)
  {
  }

  lemma LookKeepsInv(s: System, e: Event)
    requires Inv(s) && Legal(s, e) && e.LookAtRecord?
    ensures Inv(Step(s, e))
  {
    hide Uids, AllData, DistinctUids, UidOk, NonBlank, PadAll, DataRecord, UidOf;
    BlankIsNoData(s.pending[0]);
    HeldAfterLook(s, e);
    var h, r := Held(s), s.pending[0];
    if !Blank(r) {
      UidsDrop(h);
      LookKeepsLedger(s, e, Uids(h));
      assert s.taken + h == (s.taken + [r]) + h[1..];
    } else {
      SameLedger(s, Step(s, e), Uids(h));
    }
  }

  /* ---- runs ---- */

  predicate LegalRun(s: System, events: seq<Event>)
    requires Shaped(s)
    decreases |events|
  {
    events == [] || (Legal(s, events[0]) && LegalRun(Step(s, events[0]), events[1..]))
  }

  function Run(s: System, events: seq<Event>): (s': System)
    requires Shaped(s) && LegalRun(s, events)
    ensures Shaped(s')
    decreases |events|
  {
    if events == [] then s else Run(Step(s, events[0]), events[1..])
  }

  lemma {:induction false} RunKeepsInv(s: System, events: seq<Event>)
    requires Inv(s) && LegalRun(s, events)
    ensures Inv(Run(s, events))
    decreases |events|
  {
    if events != [] {
      var e := events[0];
      match e {
        case Arrive(_, _, _) => ArriveKeepsInv(s, e);
        case ReadBatch(_, _) => ReadKeepsInv(s, e);
        case LookAtRecord(_) => LookKeepsInv(s, e);
      }
      RunKeepsInv(Step(s, e), events[1..]);
    }
  }

  /** After any run, every uid stamped in the kernel was logged by the user process, or is
      still held by the cache or the pending batch, or was dropped: exactly one of these. The
      kernel stamp is the packet's arrival time, the user stamp is the time the process looked at
      its record, and that is not before. */
  lemma EveryStampedUidIsAccountedFor(events: seq<Event>, uid: nat)
    requires LegalRun(Start, events)
    ensures var s := Run(Start, events);
            && (uid in s.kern <==> uid in s.sent && uid < MAX_LOG_ENTRY)
            && (uid in s.kern ==> ExactlyOne(uid in s.user, uid in Uids(Held(s)), uid in s.dropped))
            && (uid in s.kern ==> uid in s.arrivals && s.kern[uid] == s.arrivals[uid])
            && (uid in s.user <==> uid in s.looks && uid < MAX_LOG_ENTRY)
            && (uid in s.user ==> s.user[uid] == s.looks[uid])
            && (uid in s.user ==> uid in s.kern && s.kern[uid] <= s.user[uid])
  {
    RunKeepsInv(Start, events);
    var s := Run(Start, events);
    assert UidOk(s, Uids(Held(s)), uid);
  }

  /** After any run, the user process has looked at the accepted packets in arrival order,
      each once, and the rest is held. */
  lemma PacketsStayInOrder(events: seq<Event>)
    requires LegalRun(Start, events)
    ensures var s := Run(Start, events); s.accepted == s.taken + Held(s)
  {
    RunKeepsInv(Start, events);
  }
}
