/** The XDP program's two map writes and the user process's polling loop, as they act on the
    maps in place; together they refine the step system of EbpfHandoff. */
module EbpfPrograms {
  import opened Common
  import opened ChunkedLogs
  import opened EbpfHandoff

  /** The two array maps. */
  class EbpfMaps {
    const uidTimestamps: array<u64>
    const pktPayload: array<Payload>

    constructor ()
      ensures Valid() && fresh(uidTimestamps) && fresh(pktPayload)
      ensures uidTimestamps[..] == Initial.stamps && pktPayload[..] == Initial.payloads
    {
      uidTimestamps := new u64[MAP_ENTRIES](_ => 0);
      pktPayload := new Payload[MAP_ENTRIES](_ => ZERO_PAYLOAD);
    }

    predicate Valid()
      reads this
    {
      uidTimestamps.Length == pktPayload.Length == MAP_ENTRIES
    }

    /** xdp_sock_prog up to the timestamp: bpf_map_lookup_elem finds in-range keys only. */
    method WriteStamp(p: Payload, now: u64)
      requires Valid()
      modifies uidTimestamps
      ensures uidTimestamps[..] == var old_, key := old(uidTimestamps[..]), p.uid % 0x1_0000_0000;
                                   if key < MAP_ENTRIES then old_[key := now] else old_
    {
      var key := Key(p.uid);
      if key < uidTimestamps.Length {
        uidTimestamps[key] := now;
      }
    }

    /** xdp_sock_prog from the payload copy on: bpf_map_update_elem fails on other keys. */
    method WritePayload(p: Payload) returns (r: int)
      requires Valid()
      modifies pktPayload
      ensures r == if p.uid % 0x1_0000_0000 < MAP_ENTRIES then 0 else -1
      ensures pktPayload[..] == var old_ := old(pktPayload[..]);
                                if r == 0 then old_[p.uid % 0x1_0000_0000 := p] else old_
    {
      var key := Key(p.uid);
      if key >= pktPayload.Length {
        return -1;
      }
      pktPayload[key] := p;
      r := 0;
    }
  }

  /** The user process. */
  class EbpfReader {
    const maps: EbpfMaps
    const log: ChunkedLog
    var nextUid: u32

    ghost predicate Valid()
      reads this, maps, log, log.chunks
    {
      && maps.Valid() && log.Valid()
      && this !in log.Repr && maps.pktPayload !in log.Repr && maps.uidTimestamps !in log.Repr
    }

    constructor (maps: EbpfMaps, order: nat)
      requires maps.Valid() && order >= 1 && NumChunks(14, order) * EntriesPerChunk(order) == MaxLogEntry(14)
      ensures Valid() && fresh(log.Repr) && this.maps == maps
      ensures nextUid == 0 && log.flat == map[]
    {
      this.maps, nextUid := maps, 0;
      log := new ChunkedLog(order);
    }

    /** fetch_and_process_packet: a payload is fetched if the map has its key, it comes from a
        client, is data, has a creation time, and its uid fits the log. */
    method FetchAndProcessPacket(uid: u32, now: u64) returns (fetched: bool)
      requires Valid()
      modifies log.Repr
      ensures Valid()
      ensures fetched <==>
                && uid < MAP_ENTRIES && maps.pktPayload[uid].clientUid != 0 && maps.pktPayload[uid].kind == 2
                && maps.pktPayload[uid].createdTime != 0 && maps.pktPayload[uid].uid < MAX_LOG_ENTRY
      ensures log.flat == if fetched then old(log.flat)[maps.pktPayload[uid].uid := now] else old(log.flat)
    {
      if uid < maps.pktPayload.Length {
        var mapPl := maps.pktPayload[uid];
        if mapPl.clientUid != 0 && mapPl.kind == PL_DATA && mapPl.createdTime != 0 {
          if mapPl.uid < MAX_LOG_ENTRY {
            log.Write(mapPl.uid, now);
            return true;
          }
        }
      }
      fetched := false;
    }

    /** One turn of the polling loop. */
    method PollOnce(now: u64)
      requires Valid()
      modifies this`nextUid, log.Repr
      ensures Valid()
      ensures Fetchable(maps.pktPayload[..], old(nextUid)) ==>
                nextUid == (old(nextUid) + 1) % U32 &&
                log.flat == old(log.flat)[maps.pktPayload[old(nextUid)].uid := now]
      ensures !Fetchable(maps.pktPayload[..], old(nextUid)) ==>
                nextUid == old(nextUid) && log.flat == old(log.flat)
    {
      var fetched := FetchAndProcessPacket(nextUid, now);
      if fetched {
        nextUid := (nextUid + 1) % U32;
      }
    }
  }

  /** Maps and user process are in state `s`. */
  ghost predicate In(up: EbpfReader, s: Handoff)
    reads up, up.maps, up.maps.uidTimestamps, up.maps.pktPayload, up.log, up.log.chunks
  {
    && up.Valid()
    && up.maps.uidTimestamps[..] == s.stamps && up.maps.pktPayload[..] == s.payloads
    && up.nextUid == s.nextUid && up.log.flat == s.user
  }

  /** One event; `cpus` are the packets the program is working on. */
  method Perform(up: EbpfReader, ghost s: Handoff, e: Event, cpus: map<nat, Payload>) returns (cpus': map<nat, Payload>)
    requires In(up, s) && Sized(s) && Legal(s, e) && cpus == s.inFlight
    modifies up.maps.uidTimestamps, up.maps.pktPayload, up`nextUid, up.log.Repr
    ensures In(up, Step(s, e)) && cpus' == Step(s, e).inFlight
  {
    match e {
      case Stamp(p, at) =>
        up.maps.WriteStamp(p, at);
        cpus' := cpus[p.uid := p];
      case Store(uid) =>
        var r := up.maps.WritePayload(cpus[uid]);
        cpus' := cpus - {uid};
      case Poll(at) =>
        up.PollOnce(at);
        cpus' := cpus;
    }
  }

  /** Any legal run, carried out by the program and the process. */
  method ReplayRun(up: EbpfReader, ghost s: Handoff, events: seq<Event>, cpus: map<nat, Payload>)
    requires In(up, s) && Sized(s) && LegalRun(s, events) && cpus == s.inFlight
    modifies up.maps.uidTimestamps, up.maps.pktPayload, up`nextUid, up.log.Repr
    ensures In(up, Run(s, events))
    decreases |events|
  {
    if events != [] {
      var cpus' := Perform(up, s, events[0], cpus);
      ReplayRun(up, Step(s, events[0]), events[1..], cpus');
    }
  }

  /** Freshly loaded, they are in the initial state. */
  method StartUp() returns (up: EbpfReader)
    ensures In(up, Initial) && fresh(up) && fresh(up.log.Repr)
    ensures fresh(up.maps.uidTimestamps) && fresh(up.maps.pktPayload)
  {
    CompiledSizes();
    var maps := new EbpfMaps();
    up := new EbpfReader(maps, 6);
  }
}
