/** The packet cache of the kernel module (kernel_module/intercept-module.c), with the
    receive handler and `read` each taken as one atomic step. The code keeps status flags,
    fixed slots and a write index and scans them linearly; nothing in it mentions a queue.
    It is one: the occupied slots always form a single cyclic block that ends just before
    `currentIndex`, in arrival order. */
module PacketCaches {
  import opened Common

  /* ---- positions ---- */

  /** How many slots slot `i` lies behind the most recently written one. */
  function Age(cur: nat, i: nat): (a: nat)
    requires cur < MAX_PKT && i < MAX_PKT
    ensures a < MAX_PKT
  {
    if i < cur then cur - 1 - i else cur - 1 - i + MAX_PKT
  }

  lemma AgesDiffer(cur: nat, i: nat, j: nat)
    requires cur < MAX_PKT && i < MAX_PKT && j < MAX_PKT && i != j
    ensures Age(cur, i) != Age(cur, j)
  {
  }

  lemma AgeOfNext(cur: nat, i: nat)
    requires cur < MAX_PKT && i < MAX_PKT && Age(cur, i) > 0
    ensures Age(cur, (i + 1) % MAX_PKT) == Age(cur, i) - 1
  {
  }

  /* ---- memory of fixed-size records ---- */

  /** A byte buffer addressed in records of PKT_BUFFER_SIZE: buff_from_here and buff_temp.
      `view` is its contents record by record. */
  class RecordMemory {
    const bytes: array<byte>
    ghost var view: seq<seq<byte>>

    ghost predicate Valid()
      reads this, bytes
    {
      && bytes.Length == |view| * PKT_BUFFER_SIZE
      && forall i :: 0 <= i < |view| ==> view[i] == bytes[i * PKT_BUFFER_SIZE..(i + 1) * PKT_BUFFER_SIZE]
    }

    /** kmalloc and memset. */
    constructor (records: nat)
      ensures Valid() && fresh(bytes)
      ensures view == AllZero(records)
    {
      bytes := new byte[records * PKT_BUFFER_SIZE](_ => 0);
      view := AllZero(records);
    }

    /** memcpy to the start of record `i`. */
    method Fill(i: nat, data: PacketData)
      requires Valid() && i < |view|
      modifies this, bytes
      ensures Valid()
      ensures view == old(view)[i := data + old(view)[i][|data|..]]
    {
      var pos := i * PKT_BUFFER_SIZE;
      forall k | 0 <= k < |data| { bytes[pos + k] := data[k]; }
      view := view[i := data + view[i][|data|..]];
    }

    method Clear(i: nat)
      requires Valid() && i < |view|
      modifies this, bytes
      ensures Valid()
      ensures view == old(view)[i := Zeros(PKT_BUFFER_SIZE)]
    {
      Fill(i, Zeros(PKT_BUFFER_SIZE));
      assert view[i] == Zeros(PKT_BUFFER_SIZE);
    }

    method ClearAll()
      requires Valid()
      modifies this, bytes
      ensures Valid() && view == AllZero(|old(view)|)
    {
      forall k | 0 <= k < bytes.Length { bytes[k] := 0; }
      view := AllZero(|view|);
    }

    /** memcpy of one whole record out of the memory. */
    method Fetch(i: nat) returns (data: PacketData)
      requires Valid() && i < |view|
      ensures data == view[i]
    {
      data := bytes[i * PKT_BUFFER_SIZE..(i + 1) * PKT_BUFFER_SIZE];
    }
  }

  /* ---- the queue ---- */

  type PacketData = d: seq<byte> | |d| <= PKT_BUFFER_SIZE

  function AllZero(records: nat): (v: seq<seq<byte>>)
    ensures |v| == records
    ensures forall i :: 0 <= i < records ==> v[i] == Zeros(PKT_BUFFER_SIZE)
  {
    seq(records, i => Zeros(PKT_BUFFER_SIZE))
  }

  /** How many packets one read takes. */
  function BatchSize(queue: seq<PacketData>): (n: nat)
  {
    if |queue| < PKTS_PER_BUFFER then |queue| else PKTS_PER_BUFFER
  }

  type RecordBatch = rs: seq<seq<byte>> |
    |rs| == PKTS_PER_BUFFER && (forall k :: 0 <= k < PKTS_PER_BUFFER ==> |rs[k]| == PKT_BUFFER_SIZE)
    witness AllZero(PKTS_PER_BUFFER)

  /** Record `k` of a buffer that holds the `n` oldest packets. */
  function RecordAt(queue: seq<PacketData>, n: nat, k: nat): (record: seq<byte>)
    requires n <= |queue|
    ensures |record| == PKT_BUFFER_SIZE
  {
    if k < n then Padded(queue[k]) else Zeros(PKT_BUFFER_SIZE)
  }

  /** A read buffer that holds the `n` oldest packets, zero-padded, and zeros after them. */
  function Records(queue: seq<PacketData>, n: nat): (records: RecordBatch)
    requires n <= |queue|
  {
    [RecordAt(queue, n, 0), RecordAt(queue, n, 1), RecordAt(queue, n, 2), RecordAt(queue, n, 3)]
  }

  lemma NoRecords(queue: seq<PacketData>)
    ensures Records(queue, 0) == AllZero(PKTS_PER_BUFFER)
  {
  }

  lemma NextRecord(queue: seq<PacketData>, n: nat)
    requires n < |queue| && n < PKTS_PER_BUFFER
    ensures Records(queue, n + 1) == Records(queue, n)[n := Padded(queue[n])]
  {
  }

  /** What a read hands to user space. */
  function Batch(queue: seq<PacketData>): (records: RecordBatch)
  {
    Records(queue, BatchSize(queue))
  }

  /* ---- the cache ---- */

  class PacketCache {
    const status: array<int>
    const slots: RecordMemory           // buff_from_here
    const temp: RecordMemory            // buff_temp
    var currentIndex: nat
    var countOverflow: u64
    ghost var queue: seq<PacketData>    // payloads held, oldest first

    ghost const Repr: set<object>

    ghost predicate Shape()
      reads this`currentIndex, this`queue, slots, temp, slots.bytes, temp.bytes
    {
      && Repr == {this, status, slots, temp, slots.bytes, temp.bytes}
      && slots != temp && slots.bytes != temp.bytes
      && slots.Valid() && temp.Valid()
      && status.Length == MAX_PKT && |slots.view| == MAX_PKT && |temp.view| == PKTS_PER_BUFFER
      && currentIndex < MAX_PKT
      && |queue| <= MAX_PKT
    }

    /** What the slot at distance `a` behind the newest holds. */
    ghost function Content(a: nat): (bytes: seq<byte>)
      reads this`queue
    {
      if a < |queue| then Padded(queue[|queue| - 1 - a]) else Zeros(PKT_BUFFER_SIZE)
    }

    ghost predicate SlotOk(i: nat)
      requires i < MAX_PKT && currentIndex < MAX_PKT
      requires status.Length == MAX_PKT && |slots.view| == MAX_PKT
      reads this`currentIndex, this`queue, status, slots`view
    {
      && (status[i] != 0 <==> Age(currentIndex, i) < |queue|)
      && slots.view[i] == Content(Age(currentIndex, i))
    }

    /** Cyclic contiguity of the occupied slots, and their bytes; free slots are zero. */
    ghost predicate Valid()
      reads this`currentIndex, this`queue, status, slots, temp, slots.bytes, temp.bytes
    {
      Shape() && forall i: nat :: i < MAX_PKT ==> SlotOk(i)
    }

    /** myinit: both buffers zeroed. */
    constructor ()
      ensures Valid() && fresh(Repr)
      ensures queue == [] && countOverflow == 0 && currentIndex == 0
    {
      var st := new int[MAX_PKT](_ => 0);
      var sl := new RecordMemory(MAX_PKT);
      var tm := new RecordMemory(PKTS_PER_BUFFER);
      status, slots, temp := st, sl, tm;
      Repr := {this, st, sl, tm, sl.bytes, tm.bytes};
      currentIndex, countOverflow, queue := 0, 0, [];
    }

    /** The cache part of rxhPacketIn: look for a free slot from `currentIndex` on. Only the
        first test can succeed, since a free slot exists exactly when that one is free. */
    method Store(data: PacketData) returns (stored: bool)
      requires Valid()
      modifies Repr
      ensures Valid()
      ensures stored <==> |old(queue)| < MAX_PKT
      ensures queue == if stored then old(queue) + [data] else old(queue)
      ensures countOverflow == if stored then old(countOverflow) else (old(countOverflow) + 1) % U64
    {
      var try, writeIndex: nat := 0, currentIndex;
      while try < KM_FIND_BUFF_SLOT_MAX_TRY
        modifies this`countOverflow
        invariant 0 <= try <= KM_FIND_BUFF_SLOT_MAX_TRY
        invariant writeIndex < MAX_PKT && (try == 0 ==> writeIndex == currentIndex)
        invariant try > 0 ==> |queue| == MAX_PKT
        invariant countOverflow == if try < KM_FIND_BUFF_SLOT_MAX_TRY then old(countOverflow)
                                   else (old(countOverflow) + 1) % U64
      {
        assert SlotOk(writeIndex);
        if status[writeIndex] == 0 {
          break;
        }
        writeIndex := (writeIndex + 1) % MAX_PKT;
        try := try + 1;
        if try == KM_FIND_BUFF_SLOT_MAX_TRY {
          countOverflow := (countOverflow + 1) % U64;
        }
      }
      stored := try < KM_FIND_BUFF_SLOT_MAX_TRY;
      if stored {
        PutAt(writeIndex, data);
      }
    }

    method PutAt(w: nat, data: PacketData)
      requires Valid()
      requires w == currentIndex && |queue| < MAX_PKT
      modifies this`currentIndex, this`queue, status, slots, slots.bytes
      ensures Valid() && queue == old(queue) + [data]
    {
      assert SlotOk(w);
      slots.Fill(w, data);
      status[w] := 1;
      currentIndex := (w + 1) % MAX_PKT;
      queue := queue + [data];
      assert Padded(data) == data + Zeros(PKT_BUFFER_SIZE)[|data|..];
      forall i: nat | i < MAX_PKT ensures SlotOk(i) {
        if i != w {
          assert old(SlotOk(i));
          assert Age(currentIndex, i) == Age(w, i) + 1;
        }
      }
    }

    /** The drain callback. `copyOk` is whether copy_to_user succeeds; the packets leave the
        cache only if it does. At or past BUFFER_SIZE nothing is read. */
    method Read(offset: nat, copyOk: bool) returns (delivered: bool, records: seq<seq<byte>>)
      requires Valid()
      modifies Repr
      ensures Valid()
      ensures currentIndex == old(currentIndex) && countOverflow == old(countOverflow)
      ensures delivered == (offset < BUFFER_SIZE && copyOk)
      ensures records == if delivered then Batch(old(queue)) else []
      ensures queue == if delivered then old(queue)[BatchSize(old(queue))..] else old(queue)
      ensures delivered ==>
                && |records| == 4 && queue == old(queue)[if |old(queue)| < 4 then |old(queue)| else 4..]
                && (forall k :: 0 <= k < 4 ==>
                      records[k] == if k < |old(queue)| then Padded(old(queue)[k]) else Zeros(PKT_BUFFER_SIZE))
    {
      if BUFFER_SIZE <= offset {
        return false, [];
      }
      var copiedIndex := Gather();
      if !copyOk {
        return false, [];
      }
      records := CopyOut();
      ReleaseAll(copiedIndex);
      return true, records;
    }

    /** The buffer as copy_to_user sees it. */
    method CopyOut() returns (records: seq<seq<byte>>)
      requires Shape()
      ensures records == temp.view
    {
      records := [];
      for k := 0 to PKTS_PER_BUFFER
        invariant records == temp.view[..k]
      {
        var r := temp.Fetch(k);
        records := records + [r];
      }
    }

    /** `index` lists the slots of the oldest packets, oldest first, then -1. */
    ghost predicate Oldest(index: seq<int>, n: nat)
      requires currentIndex < MAX_PKT && n <= |queue| <= MAX_PKT
      reads this`currentIndex, this`queue
    {
      && |index| == PKTS_PER_BUFFER
      && (forall k :: 0 <= k < n && k < PKTS_PER_BUFFER ==>
            0 <= index[k] < MAX_PKT && Age(currentIndex, index[k]) == |queue| - 1 - k)
      && (forall k :: n <= k < PKTS_PER_BUFFER ==> index[k] == -1)
    }

    /** The scan: collect up to PKTS_PER_BUFFER occupied slots, starting at `currentIndex`. */
    method Gather() returns (copiedIndex: seq<int>)
      requires Valid()
      modifies temp, temp.bytes
      ensures Valid() && temp.view == Batch(queue)
      ensures Oldest(copiedIndex, BatchSize(queue))
    {
      temp.ClearAll();
      NoRecords(queue);
      var ci: nat, copied: nat, try: nat := currentIndex, 0, 0;
      copiedIndex := [-1, -1, -1, -1];
      ghost var free := MAX_PKT - |queue|;
      while copied < PKTS_PER_BUFFER && try < MAX_PKT
        invariant try <= MAX_PKT && ci < MAX_PKT
        invariant try < MAX_PKT ==> Age(currentIndex, ci) == MAX_PKT - 1 - try
        invariant copied == if try <= free then 0 else try - free
        invariant copied <= BatchSize(queue)
        invariant Oldest(copiedIndex, copied)
        invariant Valid()
        invariant temp.view == Records(queue, copied)
      {
        assert SlotOk(ci);
        if status[ci] != 0 {
          Take(ci, copied);
          NextRecord(queue, copied);
          copiedIndex := copiedIndex[copied := ci];
          copied := copied + 1;
        }
        if try < MAX_PKT - 1 { AgeOfNext(currentIndex, ci); }
        ci := (ci + 1) % MAX_PKT;
        try := try + 1;
      }
    }

    /** memcpy of slot `ci` into record `k` of buff_temp. */
    method Take(ci: nat, k: nat)
      requires Shape() && ci < MAX_PKT && k < PKTS_PER_BUFFER
      modifies temp, temp.bytes
      ensures Shape() && temp.view == old(temp.view)[k := slots.view[ci]]
    {
      var record := slots.Fetch(ci);
      assert |temp.view[k]| == PKT_BUFFER_SIZE;
      temp.Fill(k, record);
      assert temp.view[k] == record;
    }

    /** After a successful copy: clear every delivered slot, then its flag. */
    method ReleaseAll(copiedIndex: seq<int>)
      requires Valid() && Oldest(copiedIndex, BatchSize(queue))
      modifies this`queue, status, slots, slots.bytes
      ensures Valid() && queue == old(queue)[BatchSize(old(queue))..]
    {
      ghost var n := BatchSize(queue);
      for i := 0 to PKTS_PER_BUFFER
        invariant Valid()
        invariant queue == old(queue)[if i < n then i else n..]
      {
        if copiedIndex[i] != -1 {
          Release(copiedIndex[i]);
        }
      }
    }

    method Release(i: nat)
      requires Valid() && queue != [] && i < MAX_PKT && Age(currentIndex, i) == |queue| - 1
      modifies this`queue, status, slots, slots.bytes
      ensures Valid() && queue == old(queue)[1..]
    {
      hide Age;
      slots.Clear(i);
      status[i] := 0;
      queue := queue[1..];
      forall j: nat | j < MAX_PKT ensures SlotOk(j) {
        if j != i {
          assert old(SlotOk(j));
          AgesDiffer(currentIndex, i, j);
        }
      }
    }
  }
}
