/** The receive handler of the kernel module (kernel_module/intercept-module.c) and the user
    process that drains it (kernel_module/user-processing.c). */
module KernelModules {
  import opened Common
  import opened PacketCaches
  import opened ChunkedLogs

  /* ---- the receive handler ---- */

  const UDP_PROTOCOL := 17
  const KM_PORT := 8080
  const IP_UDP_HEADERS := 28

  /** An incoming packet: the header fields the handler tests and pkt->data, which starts
      with the IP header. */
  datatype Frame = Frame(version: nat, protocol: nat, destPort: nat, udpLen: nat, data: seq<byte>)

  predicate Accepted(f: Frame)
  {
    f.version == 4 && f.protocol == UDP_PROTOCOL && f.destPort == KM_PORT
  }

  /** The memory the handler reads exists, and its copy stays inside one slot; the handler
      itself tests neither. */
  predicate InBounds(f: Frame)
  {
    && 8 <= f.udpLen <= PKT_BUFFER_SIZE + 8
    && IP_UDP_HEADERS + f.udpLen - 8 <= |f.data|
    && IP_UDP_HEADERS + 16 <= |f.data|
  }

  function UdpPayload(f: Frame): (d: PacketData)
    requires InBounds(f)
  {
    f.data[IP_UDP_HEADERS..IP_UDP_HEADERS + f.udpLen - 8]
  }

  /** The second word of the payload. */
  function FrameUid(f: Frame): (uid: u64)
    requires InBounds(f)
  {
    ReadU64(f.data[IP_UDP_HEADERS + 8..IP_UDP_HEADERS + 16])
  }

  /** A log after `uid` was stamped, if it is one the log has room for. */
  function Stamped(log: map<nat, u64>, uid: u64, now: u64): (log': map<nat, u64>)
  {
    if uid < MAX_LOG_ENTRY then log[uid := now] else log
  }

  class KernelModule {
    const cache: PacketCache
    const log: ChunkedLog
    var countPkt: u64
    ghost const Repr: set<object>

    ghost predicate Valid()
      reads this, cache, cache.status, cache.slots, cache.slots.bytes, cache.temp, cache.temp.bytes, log, log.chunks
    {
      && Repr == {this} + cache.Repr + log.Repr
      && this !in cache.Repr && this !in log.Repr && cache.Repr !! log.Repr
      && cache.Valid() && log.Valid()
    }

    constructor (order: nat)
      requires order >= 1 && NumChunks(14, order) * EntriesPerChunk(order) == MaxLogEntry(14)
      ensures Valid() && fresh(Repr)
      ensures cache.queue == [] && log.flat == map[] && countPkt == 0 && cache.countOverflow == 0
    {
      var c := new PacketCache();
      var l := new ChunkedLog(order);
      cache, log, countPkt := c, l, 0;
      Repr := {this} + c.Repr + l.Repr;
    }

    /** Packets that are not IPv4 UDP to port 8080 pass untouched; every other one is counted and
        stamped, and then either queued or, only when the cache is full, dropped. */
    method RxhPacketIn(f: Frame, now: u64) returns (stored: bool)
      requires Valid() && (Accepted(f) ==> InBounds(f))
      modifies Repr
      ensures Valid()
      ensures f.version != 4 || f.protocol != 17 || f.destPort != 8080 ==>
                && !stored && cache.queue == old(cache.queue) && log.flat == old(log.flat)
                && countPkt == old(countPkt) && cache.countOverflow == old(cache.countOverflow)
      ensures f.version == 4 && f.protocol == 17 && f.destPort == 8080 ==>
                && (stored <==> |old(cache.queue)| < MAX_PKT)
                && cache.queue == old(cache.queue) + (if stored then [f.data[28..20 + f.udpLen]] else [])
                && (var uid := ReadU64(f.data[36..44]);
                    log.flat == if uid < MAX_LOG_ENTRY then old(log.flat)[uid := now] else old(log.flat))
                && countPkt == (old(countPkt) + 1) % U64
                && cache.countOverflow == if stored then old(cache.countOverflow)
                                          else (old(cache.countOverflow) + 1) % U64
    {
      if f.version != 4 {
        return false;
      }
      if f.protocol != UDP_PROTOCOL {
        return false;
      }
      if f.destPort != KM_PORT {
        return false;
      }
      countPkt := (countPkt + 1) % U64;
      var uid := FrameUid(f);
      if uid < MAX_LOG_ENTRY {
        log.Write(uid, now);
      }
      stored := cache.Store(UdpPayload(f));
    }
  }

  /* ---- the user process ---- */

  predicate Blank(record: seq<byte>)
    requires |record| == PKT_BUFFER_SIZE
  {
    record[0] == 0
  }

  /** The checks between a non-blank record and its log entry. */
  predicate Loggable(p: Payload)
  {
    p.clientUid != 0 && p.kind == PL_DATA && p.createdTime != 0 && p.uid < MAX_LOG_ENTRY
  }

  /** The user log after one record was looked at. */
  function Logged(log: map<nat, u64>, record: seq<byte>, now: u64): (log': map<nat, u64>)
    requires |record| == PKT_BUFFER_SIZE
  {
    if !Blank(record) && Loggable(Decode(record)) then log[Decode(record).uid := now] else log
  }

  /** The user log after records k, k + 1, ... were looked at, record i at times[i]. */
  function LoggedFrom(log: map<nat, u64>, records: RecordBatch, times: seq<u64>, k: nat): (log': map<nat, u64>)
    requires |times| == PKTS_PER_BUFFER && k <= PKTS_PER_BUFFER
    decreases PKTS_PER_BUFFER - k
  {
    if k == PKTS_PER_BUFFER then log
    else LoggedFrom(Logged(log, records[k], times[k]), records, times, k + 1)
  }

  /** What the log needs to see in a record; PL_DATA is 2. */
  predicate GoesInLog(record: seq<byte>)
    requires |record| == PKT_BUFFER_SIZE
  {
    var p := Decode(record);
    record[0] != 0 && p.clientUid != 0 && p.kind == 2 && p.createdTime != 0 && p.uid < MAX_LOG_ENTRY
  }

  /** Record k is one for the log, at `uid`. */
  predicate LogsUid(records: RecordBatch, k: nat, uid: nat)
    requires k < PKTS_PER_BUFFER
  {
    GoesInLog(records[k]) && Decode(records[k]).uid == uid
  }

  predicate SameAt(log: map<nat, u64>, log': map<nat, u64>, uid: nat)
  {
    (uid in log <==> uid in log') && (uid in log ==> log[uid] == log'[uid])
  }

  /** Record k is the last one from k on that is for `uid`. */
  predicate LastFor(records: RecordBatch, k: nat, uid: nat)
    requires k < PKTS_PER_BUFFER
  {
    LogsUid(records, k, uid) && NoneFor(records, k + 1, uid)
  }

  predicate NoneFor(records: RecordBatch, k: nat, uid: nat)
  {
    forall j: nat :: k <= j < PKTS_PER_BUFFER ==> !LogsUid(records, j, uid)
  }

  /** The last of the records from k on that are for `uid` gives it its time; a uid of none of
      them keeps its entry. */
  lemma {:induction false} LastRecordCounts(log: map<nat, u64>, records: RecordBatch, times: seq<u64>, k: nat, uid: nat)
    requires |times| == PKTS_PER_BUFFER && k <= PKTS_PER_BUFFER
    ensures var log' := LoggedFrom(log, records, times, k);
            && (NoneFor(records, k, uid) ==> SameAt(log, log', uid))
            && (forall i: nat :: k <= i < PKTS_PER_BUFFER && LastFor(records, i, uid) ==>
                  uid in log' && log'[uid] == times[i])
    decreases PKTS_PER_BUFFER - k
  {
    hide Decode;
    if k < PKTS_PER_BUFFER {
      assert NoneFor(records, k, uid) ==> !LogsUid(records, k, uid);
      LastRecordCounts(Logged(log, records[k], times[k]), records, times, k + 1, uid);
    }
  }

  lemma BatchIsLogged(log: map<nat, u64>, records: RecordBatch, times: seq<u64>)
    requires |times| == PKTS_PER_BUFFER
    ensures var log' := LoggedFrom(log, records, times, 0);
            && (forall uid: nat :: NoneFor(records, 0, uid) ==> SameAt(log, log', uid))
            && (forall k: nat, uid: nat :: k < PKTS_PER_BUFFER && LastFor(records, k, uid) ==>
                  uid in log' && log'[uid] == times[k])
  {
    var log' := LoggedFrom(log, records, times, 0);
    hide *;
    forall uid: nat
      ensures NoneFor(records, 0, uid) ==> SameAt(log, log', uid)
      ensures forall k: nat :: k < PKTS_PER_BUFFER && LastFor(records, k, uid) ==> uid in log' && log'[uid] == times[k]
    {
      LastRecordCounts(log, records, times, 0, uid);
    }
  }

  class UserProcess {
    const buffRead: RecordMemory
    const log: ChunkedLog
    ghost const Repr: set<object>

    ghost predicate Valid()
      reads this, buffRead, buffRead.bytes, log, log.chunks
    {
      && Repr == {this, buffRead, buffRead.bytes} + log.Repr
      && {this, buffRead, buffRead.bytes} !! log.Repr
      && buffRead.Valid() && |buffRead.view| == PKTS_PER_BUFFER
      && log.Valid()
    }

    constructor (order: nat)
      requires order >= 1 && NumChunks(14, order) * EntriesPerChunk(order) == MaxLogEntry(14)
      ensures Valid() && fresh(Repr)
      ensures log.flat == map[] && buffRead.view == AllZero(PKTS_PER_BUFFER)
    {
      var b := new RecordMemory(PKTS_PER_BUFFER);
      var l := new ChunkedLog(order);
      buffRead, log := b, l;
      Repr := {this, b, b.bytes} + l.Repr;
    }

    /** memset and pread: a failed read leaves the buffer blank. */
    method Refill(delivered: bool, records: RecordBatch)
      requires Valid()
      modifies buffRead, buffRead.bytes
      ensures Valid() && buffRead.view == if delivered then records else AllZero(PKTS_PER_BUFFER)
    {
      buffRead.ClearAll();
      if delivered {
        for k := 0 to PKTS_PER_BUFFER
          invariant Valid()
          invariant buffRead.view[..k] == records[..k]
        {
          buffRead.Fill(k, records[k]);
          assert buffRead.view[k] == records[k];
        }
      }
    }

    /** One turn of the inner loop: a record is logged at its uid with the time it was looked at,
        if its first byte is not zero, it comes from a client, is data, has a creation time, and
        its uid fits the log. */
    method ProcessRecord(i: nat, now: u64)
      requires Valid() && i < PKTS_PER_BUFFER && |buffRead.view[i]| == PKT_BUFFER_SIZE
      modifies log.Repr
      ensures Valid() && log.flat == Logged(old(log.flat), buffRead.view[i], now)
      ensures var r, p := buffRead.view[i], Decode(buffRead.view[i]);
              log.flat == if r[0] != 0 && p.clientUid != 0 && p.kind == 2 && p.createdTime != 0 &&
                             p.uid < MAX_LOG_ENTRY
                          then old(log.flat)[p.uid := now] else old(log.flat)
    {
      var record := buffRead.Fetch(i);
      if record[0] == 0 {
        return;
      }
      var pl := Decode(record);
      if pl.clientUid != 0 && pl.kind == PL_DATA && pl.createdTime != 0 {
        if pl.uid < MAX_LOG_ENTRY {
          log.Write(pl.uid, now);
        }
      }
    }

    /** One turn of the outer loop. */
    method Drain(delivered: bool, records: RecordBatch, times: seq<u64>)
      requires Valid() && |times| == PKTS_PER_BUFFER
      modifies Repr
      ensures Valid()
      ensures log.flat == if delivered then LoggedFrom(old(log.flat), records, times, 0) else old(log.flat)
      ensures delivered ==> forall k: nat, uid: nat :: k < PKTS_PER_BUFFER && LastFor(records, k, uid) ==>
                uid in log.flat && log.flat[uid] == times[k]
      ensures delivered ==> forall uid: nat :: NoneFor(records, 0, uid) ==> SameAt(old(log.flat), log.flat, uid)
    {
      hide Logged, ChunkedLog.Valid, LastFor, NoneFor, SameAt;
      Refill(delivered, records);
      ghost var view: RecordBatch := if delivered then records else AllZero(PKTS_PER_BUFFER);
      for i := 0 to PKTS_PER_BUFFER
        modifies log.Repr
        invariant Valid()
        invariant LoggedFrom(log.flat, view, times, i) == LoggedFrom(old(log.flat), view, times, 0)
      {
        ProcessRecord(i, times[i]);
      }
      if delivered {
        BatchIsLogged(old(log.flat), records, times);
      } else {
        BlankLogsNothing(old(log.flat), times, 0);
      }
    }
  }

  lemma {:induction false} BlankLogsNothing(log: map<nat, u64>, times: seq<u64>, k: nat)
    requires |times| == PKTS_PER_BUFFER && k <= PKTS_PER_BUFFER
    ensures LoggedFrom(log, AllZero(PKTS_PER_BUFFER), times, k) == log
    decreases PKTS_PER_BUFFER - k
  {
    if k < PKTS_PER_BUFFER {
      BlankLogsNothing(log, times, k + 1);
    }
  }
}
