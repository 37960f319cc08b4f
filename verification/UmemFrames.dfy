/** The frame allocator and the receive and transmit paths of the AF_XDP program
    (__XDP_measure/xdp_measure_user.c), with the kernel acting on the rings at any point in
    between. */
module UmemFrames {
  import opened Common
  import opened XskRings
  import opened FrameOwnership

  const RX_BATCH_SIZE := 64

  /** Frame addresses are computed as int products: i * FRAME_SIZE. */
  const MAX_FRAMES := 0x8_0000

  /** What the kernel can do in copy mode. */
  datatype Act =
    | Receive(off: nat)      // take a fill entry, put packet data `off` bytes into its frame
    | Transmit               // take a TX entry
    | Complete(k: nat)       // report the k-th frame in flight as sent

  /** Where the process can be overtaken by the kernel: before each of its ring accesses. */
  datatype Point =
    | InPoll
    | BeforePeek
    | BeforeCount
    | BeforeReserve
    | BeforeFill(i: nat)
    | BeforeSubmit
    | BeforePacket(i: nat)
    | BeforeTxFill(i: nat)
    | BeforeTxSubmit(i: nat)
    | BeforeRelease
    | InSendto
    | BeforeCompletion(i: nat)
    | BeforeCqRelease

  /** The kernel's behaviour during start-up or one call. */
  type Kernel = Point -> seq<Act>

  /** What kernel steps can only increase. */
  datatype Marks = Marks(cqWaiting: nat, txRoom: int)

  function Excess(n: nat, free: nat): (e: nat)
  {
    if n > free then n - free else 0
  }

  class XskSocket {
    const numFrames: nat
    const echo: bool                     // the responder in process_packet; false as built
    const frameAddr: array<u64>          // umem_frame_addr
    var frameFree: nat                   // umem_frame_free
    var outstandingTx: u32
    const fq: ProducerRing
    const tx: ProducerRing
    const rx: ConsumerRing
    const cq: ConsumerRing
    var flight: seq<u64>                 // with the kernel for transmission
    ghost var doneRx: nat                // received packets already processed
    ghost var doneCq: nat                // completions already freed
    ghost var invalidStocked: nat        // invalid addresses written to the fill ring so far
    ghost var Repr: set<object>

    ghost predicate Shape()
      reads this, frameAddr, fq, fq.entries, tx, tx.entries, rx, rx.entries, cq, cq.entries
    {
      && Repr == {this, frameAddr, fq, fq.entries, tx, tx.entries, rx, rx.entries, cq, cq.entries}
      && fq != tx && rx != cq
      && frameAddr !in {fq.entries, tx.entries, rx.entries, cq.entries}
      && fq.entries !in {tx.entries, rx.entries, cq.entries}
      && tx.entries !in {rx.entries, cq.entries} && rx.entries != cq.entries
      && fq.Valid() && tx.Valid() && rx.Valid() && cq.Valid()
      && frameAddr.Length == numFrames && frameFree <= numFrames < MAX_FRAMES
      && doneRx <= |rx.peeked| && doneCq <= |cq.peeked|
    }

    /** The zeroed socket record and its rings. */
    constructor (numFrames: nat, echo: bool, fillSize: nat, txSize: nat, rxSize: nat, cqSize: nat)
      requires RingSize(fillSize) && RingSize(txSize) && RingSize(rxSize) && RingSize(cqSize)
      requires numFrames < MAX_FRAMES
      ensures Shape() && fresh(Repr) && Blank()
      ensures this.numFrames == numFrames && this.echo == echo
      ensures fq.size == fillSize && tx.size == txSize && rx.size == rxSize && cq.size == cqSize
      ensures fq.producer == tx.producer == rx.consumer == cq.consumer == 0 && invalidStocked == 0
    {
      hide ProducerRing.Valid, ConsumerRing.Valid;
      this.numFrames, this.echo := numFrames, echo;
      frameAddr := new u64[numFrames];
      frameFree, outstandingTx, flight, doneRx, doneCq, invalidStocked := 0, 0, [], 0, 0, 0;
      fq := new ProducerRing(fillSize);
      tx := new ProducerRing(txSize);
      rx := new ConsumerRing(rxSize);
      cq := new ConsumerRing(cqSize);
      new;
      Repr := {this, frameAddr, fq, fq.entries, tx, tx.entries, rx, rx.entries, cq, cq.entries};
    }

    /** Nothing on its way anywhere. */
    ghost predicate Blank()
      reads this, fq, tx, rx, cq
    {
      && fq.submitted == fq.filled == tx.submitted == tx.filled == flight == []
      && rx.waiting == rx.peeked == cq.waiting == cq.peeked == []
      && fq.reserved == tx.reserved == doneRx == doneCq == outstandingTx == fq.lag == 0
    }

    ghost function Progress(): (m: Marks)
      reads cq`waiting, tx`submitted, tx`reserved
    {
      Marks(|cq.waiting|, tx.Room())
    }

    ghost predicate AtLeast(m: Marks)
      reads cq`waiting, tx`submitted, tx`reserved
    {
      |cq.waiting| >= m.cqWaiting && tx.Room() >= m.txRoom
    }

    /** Who owns what. */
    ghost function View(): (o: Owners)
      requires frameFree <= frameAddr.Length && doneRx <= |rx.peeked| && doneCq <= |cq.peeked|
      reads this`frameFree, this`flight, this`doneRx, this`doneCq, frameAddr, fq`submitted, fq`filled
      reads tx`submitted, tx`filled, rx`waiting, rx`peeked, cq`waiting, cq`peeked
    {
      Owners(frameAddr[..frameFree], fq.submitted + fq.filled, rx.waiting, rx.peeked[doneRx..],
             tx.submitted + tx.filled, flight, cq.waiting, cq.peeked[doneCq..])
    }

    /** In every state between two steps, each frame has exactly one owner. */
    ghost predicate Valid()
      reads this, frameAddr, fq, fq.entries, tx, tx.entries, rx, rx.entries, cq, cq.entries
    {
      Shape() && Partition(View(), numFrames)
    }

    /** Between two calls of handle_receive_packets; outstanding_tx is exact, and the cached
        consumer index of the fill ring shows no room. */
    ghost predicate Settled()
      requires Shape()
      reads this, frameAddr, fq, fq.entries, tx, tx.entries, rx, rx.entries, cq, cq.entries
    {
      && fq.reserved == 0 && tx.reserved == 0 && rx.peeked == [] && cq.peeked == []
      && outstandingTx == OutForTransmit(View()) && fq.CachedRoom() == 0
    }

    /** The program as built: the responder is off and the frames cover both receive rings. */
    ghost predicate AsBuilt()
      requires Shape()
      reads this, frameAddr, fq, fq.entries, tx, tx.entries, rx, rx.entries, cq, cq.entries
    {
      && !echo && numFrames >= fq.size + rx.size
      && Real(View().fill) && OutForTransmit(View()) == 0
    }

    /* ---- allocator ---- */

    /** Give the allocator every frame, in address order. */
    method InitFrames()
      requires Shape() && Blank()
      modifies this`frameFree, frameAddr
      ensures Valid() && frameFree == numFrames
      ensures Real(View().fill) && OutForTransmit(View()) == 0
    {
      hide ProducerRing.Valid, ConsumerRing.Valid, Partition;
      for i := 0 to numFrames
        invariant forall j :: 0 <= j < i ==> frameAddr[j] == j * FRAME_SIZE
      {
        frameAddr[i] := i * FRAME_SIZE;
      }
      frameFree := numFrames;
      InitialPartition(frameAddr[..]);
      assert View() == Owners(frameAddr[..], [], [], [], [], [], [], []);
    }

    /** xsk_alloc_umem_frame */
    method AllocFrame() returns (frame: u64)
      requires frameFree <= frameAddr.Length
      modifies this`frameFree, frameAddr
      ensures old(frameFree) == 0 ==> frame == INVALID_UMEM_FRAME && frameFree == 0
      ensures old(frameFree) > 0 ==> frameFree == old(frameFree) - 1 && frame == old(frameAddr[frameFree - 1])
      ensures frameFree <= old(frameFree) && frameAddr[..frameFree] == old(frameAddr[..])[..frameFree]
    {
      if frameFree == 0 {
        return INVALID_UMEM_FRAME;
      }
      frameFree := frameFree - 1;
      frame := frameAddr[frameFree];
      frameAddr[frameFree] := INVALID_UMEM_FRAME;
    }

    /** xsk_free_umem_frame; its assert is the precondition. */
    method FreeFrame(frame: u64)
      requires frameFree < frameAddr.Length
      modifies this`frameFree, frameAddr
      ensures frameFree == old(frameFree) + 1
      ensures frameAddr[..frameFree] == old(frameAddr[..frameFree]) + [frame]
    {
      frameAddr[frameFree] := frame;
      frameFree := frameFree + 1;
    }

    /* ---- the kernel ---- */

    /** A packet arrives, if there is a fill entry to take and room in the RX ring. */
    method KernelReceive(off: nat)
      requires Valid() && off < FRAME_SIZE
      modifies fq`consumer, fq`submitted, fq`lag, rx`producer, rx`waiting, rx`lag, rx.entries
      ensures Valid()
      ensures View() == var o := old(View());
                        if old(fq.submitted) != [] && old(|rx.peeked| + |rx.waiting|) < rx.size
                        then Received(o, off) else o
      ensures OutForTransmit(View()) == old(OutForTransmit(View()))
      ensures |fq.submitted| <= |old(fq.submitted)| && fq.CachedRoom() == old(fq.CachedRoom())
      ensures |rx.waiting| >= |old(rx.waiting)|
      ensures old(Real(View().fill)) ==> Real(View().fill)
    {
      hide ProducerRing.Valid, ConsumerRing.Valid, Partition, Real, Wrap;
      ghost var o := View();
      var ready := fq.KernelHasEntry();
      var room := rx.KernelHasRoom();
      if ready && room {
        var addr := fq.KernelTake();
        assert fq.submitted + fq.filled == o.fill[1..];
        if FrameOf(addr) != NO_FRAME {
          rx.KernelPut(WithOffset(addr, off));
        }
        MoveReceive(o, numFrames, off);
      }
    }

    method KernelTransmit()
      requires Valid()
      modifies tx`consumer, tx`submitted, tx`lag, this`flight
      ensures Valid() && OutForTransmit(View()) == old(OutForTransmit(View()))
      ensures View() == if old(tx.submitted) != [] then Transmitted(old(View())) else old(View())
    {
      hide ProducerRing.Valid, ConsumerRing.Valid, Partition, Real, Wrap;
      var ready := tx.KernelHasEntry();
      if ready {
        ghost var o := View();
        var addr := tx.KernelTake();
        assert tx.submitted + tx.filled == o.sending[1..];
        flight := flight + [addr];
        MoveTransmit(o, numFrames);
      }
    }

    method KernelComplete(k: nat)
      requires Valid()
      modifies cq`producer, cq`waiting, cq`lag, cq.entries, this`flight
      ensures Valid() && OutForTransmit(View()) == old(OutForTransmit(View()))
      ensures View() == var o := old(View());
                        if old(|cq.peeked| + |cq.waiting|) < cq.size && k < |o.flight| then Reported(o, k) else o
    {
      hide ProducerRing.Valid, ConsumerRing.Valid, Partition, Real, Wrap;
      var room := cq.KernelHasRoom();
      if room && k < |flight| {
        ghost var o := View();
        cq.KernelPut(flight[k]);
        flight := flight[..k] + flight[k + 1..];
        MoveComplete(o, numFrames, k);
      }
    }

    method KernelStep(act: Act)
      requires Valid()
      modifies fq`consumer, fq`submitted, fq`lag, tx`consumer, tx`submitted, tx`lag
      modifies rx`producer, rx`waiting, rx`lag, rx.entries, cq`producer, cq`waiting, cq`lag, cq.entries
      modifies this`flight
      ensures Valid()
      ensures OutForTransmit(View()) == old(OutForTransmit(View()))
      ensures |fq.submitted| <= |old(fq.submitted)|
      ensures fq.Room() >= old(fq.Room()) && fq.CachedRoom() == old(fq.CachedRoom())
      ensures |rx.waiting| >= |old(rx.waiting)| && AtLeast(old(Progress()))
      ensures old(Real(View().fill)) ==> Real(View().fill)
    {
      hide ProducerRing.Valid, ConsumerRing.Valid, Partition, Real, Wrap;
      match act {
        case Receive(off) => if off < FRAME_SIZE { KernelReceive(off); }
        case Transmit => KernelTransmit();
        case Complete(k) => KernelComplete(k);
      }
    }

    /** The kernel overtakes the process with any sequence of actions. */
    method KernelActs(acts: seq<Act>)
      requires Valid()
      modifies fq`consumer, fq`submitted, fq`lag, tx`consumer, tx`submitted, tx`lag
      modifies rx`producer, rx`waiting, rx`lag, rx.entries, cq`producer, cq`waiting, cq`lag, cq.entries
      modifies this`flight
      ensures Valid()
      ensures OutForTransmit(View()) == old(OutForTransmit(View()))
      ensures |fq.submitted| <= |old(fq.submitted)|
      ensures fq.Room() >= old(fq.Room()) && fq.CachedRoom() == old(fq.CachedRoom())
      ensures |rx.waiting| >= |old(rx.waiting)| && AtLeast(old(Progress()))
      ensures old(Real(View().fill)) ==> Real(View().fill)
      decreases |acts|
    {
      hide ProducerRing.Valid, ConsumerRing.Valid, Partition, Real, Wrap;
      if acts != [] {
        KernelStep(acts[0]);
        KernelActs(acts[1..]);
      }
    }

    /* ---- receive path ---- */

    /** One turn of a stocking loop: an address from the allocator into the fill ring. */
    method StockOne(idx: u32)
      requires Valid() && |fq.filled| < fq.reserved && idx == Wrap(fq.producer + |fq.filled|)
      modifies this`frameFree, this`invalidStocked, frameAddr, fq`filled, fq.entries
      ensures Valid() && View() == Stocked(old(View()))
      ensures |fq.filled| == |old(fq.filled)| + 1
      ensures OutForTransmit(View()) == old(OutForTransmit(View()))
      ensures frameFree == Excess(old(frameFree), 1)
      ensures invalidStocked == old(invalidStocked) + if old(frameFree) == 0 then 1 else 0
      ensures Real(View().fill) <==> old(frameFree) > 0 && old(Real(View().fill))
    {
      hide ProducerRing.Valid, ConsumerRing.Valid, Partition, Real, Wrap;
      ghost var o := View();
      MoveStock(o, numFrames);
      StackIsReal(o, numFrames);
      var addr := AllocFrame();
      fq.Fill(idx, addr);
      invalidStocked := invalidStocked + if addr == INVALID_UMEM_FRAME then 1 else 0;
      assert fq.submitted + fq.filled == o.fill + [addr];
      assert View() == Stocked(o);
    }

    /** The same, with the kernel acting first. */
    method StockNext(i: nat, idx: u32, kernel: Kernel)
      requires Valid() && |fq.filled| < fq.reserved && idx == Wrap(fq.producer + |fq.filled|)
      modifies this`frameFree, this`invalidStocked, frameAddr, fq`filled, fq.entries
      modifies fq`consumer, fq`submitted, fq`lag, tx`consumer, tx`submitted, tx`lag
      modifies rx`producer, rx`waiting, rx`lag, rx.entries, cq`producer, cq`waiting, cq`lag, cq.entries
      modifies this`flight
      ensures Valid() && |fq.filled| == |old(fq.filled)| + 1 && |fq.submitted| <= |old(fq.submitted)|
      ensures AtLeast(old(Progress())) && fq.CachedRoom() == old(fq.CachedRoom())
      ensures OutForTransmit(View()) == old(OutForTransmit(View()))
      ensures frameFree == Excess(old(frameFree), 1)
      ensures invalidStocked == old(invalidStocked) + if old(frameFree) == 0 then 1 else 0
      ensures old(frameFree) > 0 && old(Real(View().fill)) ==> Real(View().fill)
    {
      hide ProducerRing.Valid, ConsumerRing.Valid, Partition, Real, Wrap, OutForTransmit, View, Excess,
           ProducerRing.CachedRoom;
      KernelActs(kernel(BeforeFill(i)));
      StockOne(idx);
    }

    /** A stocking loop: fill `n` reserved entries from index `first` on. Invalid addresses go in
        for exactly the entries that exceed the free frames. */
    method StockAll(first: u32, n: nat, kernel: Kernel)
      requires Valid() && fq.filled == [] && fq.reserved == n && (n > 0 ==> first == Wrap(fq.producer))
      modifies this`frameFree, this`invalidStocked, frameAddr, fq`filled, fq.entries
      modifies fq`consumer, fq`submitted, fq`lag, tx`consumer, tx`submitted, tx`lag
      modifies rx`producer, rx`waiting, rx`lag, rx.entries, cq`producer, cq`waiting, cq`lag, cq.entries
      modifies this`flight
      ensures Valid() && |fq.filled| == n && |fq.submitted| <= |old(fq.submitted)|
      ensures AtLeast(old(Progress())) && fq.CachedRoom() == old(fq.CachedRoom())
      ensures OutForTransmit(View()) == old(OutForTransmit(View()))
      ensures frameFree == Excess(old(frameFree), n)
      ensures invalidStocked == old(invalidStocked) + Excess(n, old(frameFree))
      ensures n <= old(frameFree) && old(Real(View().fill)) ==> Real(View().fill)
    {
      hide ProducerRing.Valid, ConsumerRing.Valid, Partition, Real, Wrap, OutForTransmit, View,
           ProducerRing.CachedRoom, ProducerRing.Room;
      var idxFq := first;
      ghost var enough := n <= frameFree && Real(View().fill);
      ghost var out := OutForTransmit(View());
      for i := 0 to n
        invariant Valid() && |fq.filled| == i && |fq.submitted| <= |old(fq.submitted)|
        invariant AtLeast(old(Progress())) && fq.CachedRoom() == old(fq.CachedRoom())
        invariant i < n ==> idxFq == Wrap(fq.producer + i)
        invariant OutForTransmit(View()) == out
        invariant frameFree == Excess(old(frameFree), i)
        invariant invalidStocked == old(invalidStocked) + Excess(i, old(frameFree))
        invariant enough ==> Real(View().fill)
      {
        StockNext(i, idxFq, kernel);
        NextOfWrap(fq.producer, i);
        idxFq := Next(idxFq);
      }
    }

    /** Hand the stocked entries to the kernel. */
    method SubmitFill(n: nat)
      requires Valid() && n == fq.reserved == |fq.filled|
      modifies fq`producer, fq`submitted, fq`filled, fq`reserved
      ensures Valid() && fq.reserved == 0 && |fq.submitted| == |old(fq.submitted)| + n
      ensures View() == old(View()) && fq.producer == Wrap(old(fq.producer) + n)
      ensures fq.CachedRoom() == old(fq.CachedRoom())
    {
      hide ProducerRing.Valid, ConsumerRing.Valid, Partition, Real, Wrap;
      ghost var o := View();
      fq.Submit(n);
      assert View() == o by { assert fq.submitted + fq.filled == fq.submitted; }
    }

    /** Reserve, fill and submit `n` entries; the retry loop behind the reserve is never entered. */
    method StockEntries(n: nat, kernel: Kernel)
      requires Valid() && fq.reserved == 0 && 0 < n == fq.CachedRoom() <= fq.Room()
      modifies this`frameFree, this`invalidStocked, frameAddr, fq, fq.entries
      modifies tx`consumer, tx`submitted, tx`lag
      modifies rx`producer, rx`waiting, rx`lag, rx.entries, cq`producer, cq`waiting, cq`lag, cq.entries
      modifies this`flight
      ensures Valid() && fq.reserved == 0 && fq.CachedRoom() == 0
      ensures OutForTransmit(View()) == old(OutForTransmit(View())) && AtLeast(old(Progress()))
      ensures old(fq.submitted) == [] ==> |fq.submitted| == n
      ensures fq.producer == Wrap(old(fq.producer) + n) && frameFree == Excess(old(frameFree), n)
      ensures invalidStocked == old(invalidStocked) + Excess(n, old(frameFree))
      ensures n <= old(frameFree) && old(Real(View().fill)) ==> Real(View().fill)
    {
      hide ProducerRing.Valid, ConsumerRing.Valid, Partition, Real, Wrap, OutForTransmit, View, Excess;
      fq.Bounds();
      SameIndex(fq.producer, 0);
      var ret, idxFq := fq.Reserve(n);
      assert ret == n;
      StockAll(idxFq, n, kernel);
      KernelActs(kernel(BeforeSubmit));
      SubmitFill(n);
    }

    /** xsk_configure_socket: all frames to the allocator, then one fill entry each as far as the
        fill ring reaches. Invalid addresses are stocked if and only if the frames do not reach
        that far. */
    method Configure(kernel: Kernel)
      requires Shape() && Blank()
      modifies this`frameFree, this`invalidStocked, frameAddr, fq, fq.entries
      modifies tx`consumer, tx`submitted, tx`lag
      modifies rx`producer, rx`waiting, rx`lag, rx.entries, cq`producer, cq`waiting, cq`lag, cq.entries
      modifies this`flight
      ensures Valid() && Settled()
      ensures |fq.submitted| == fq.size && frameFree == Excess(numFrames, fq.size)
      ensures fq.producer == Wrap(old(fq.producer) + fq.size)
      ensures invalidStocked == old(invalidStocked) + Excess(fq.size, numFrames)
      ensures invalidStocked - old(invalidStocked) == if numFrames < fq.size then fq.size - numFrames else 0
      ensures OutForTransmit(View()) == 0 && (numFrames >= fq.size ==> Real(View().fill))
      ensures !echo && numFrames >= fq.size + rx.size ==> AsBuilt()
    {
      hide ProducerRing.Valid, ConsumerRing.Valid, Partition, Real, Wrap, OutForTransmit, View, AtLeast;
      InitFrames();
      fq.Bounds();
      StockEntries(fq.size, kernel);
    }

    /** How many fill entries to stock: none if no frame is free, else what the ring has room
        for, which can exceed the free frames. As built, it does not. */
    method StockCount() returns (n: nat)
      requires Valid() && fq.reserved == 0 && fq.CachedRoom() == 0
      modifies fq`cachedCons, fq`lag
      ensures Valid() && View() == old(View())
      ensures n == (if frameFree == 0 then 0 else fq.Room()) && n == fq.CachedRoom()
      ensures AsBuilt() ==> n <= fq.Room() <= frameFree
    {
      hide ProducerRing.Valid, ConsumerRing.Valid, Partition, Real, Wrap, OutForTransmit;
      fq.Bounds();
      rx.Bounds();
      n := fq.NbFree(frameFree);
      if AsBuilt() {
        EnoughFrames(View(), numFrames, fq.size, rx.size, fq.Room());
      }
    }

    /** The branch behind the count. */
    method StockSome(n: nat, kernel: Kernel)
      requires Valid() && fq.reserved == 0 && n == fq.CachedRoom() <= fq.Room()
      modifies this`frameFree, this`invalidStocked, frameAddr, fq, fq.entries
      modifies tx`consumer, tx`submitted, tx`lag
      modifies rx`producer, rx`waiting, rx`lag, rx.entries, cq`producer, cq`waiting, cq`lag, cq.entries
      modifies this`flight
      ensures Valid() && fq.reserved == 0 && fq.CachedRoom() == 0
      ensures OutForTransmit(View()) == old(OutForTransmit(View())) && AtLeast(old(Progress()))
      ensures fq.producer == Wrap(old(fq.producer) + n) && frameFree == Excess(old(frameFree), n)
      ensures invalidStocked == old(invalidStocked) + Excess(n, old(frameFree))
      ensures n <= old(frameFree) && old(Real(View().fill)) ==> Real(View().fill)
    {
      hide ProducerRing.Valid, ConsumerRing.Valid, Partition, Real, Wrap, OutForTransmit, View;
      SameIndex(fq.producer, 0);
      KernelActs(kernel(BeforeReserve));
      if n > 0 {
        StockEntries(n, kernel);
      }
    }

    ghost function RoomOf(): (room: nat)
      requires Valid()
      reads this, frameAddr, fq, fq.entries, tx, tx.entries, rx, rx.entries, cq, cq.entries
      ensures room == fq.Room() <= fq.size
    {
      fq.Bounds();
      fq.Room()
    }

    /** Stuff the fill ring with as many frames as it has room for. Invalid addresses are stocked
        if and only if some frame is free but fewer than the ring has room for. */
    method Stock(kernel: Kernel) returns (ghost room: nat)
      requires Valid() && fq.reserved == 0 && fq.CachedRoom() == 0
      modifies this`frameFree, this`invalidStocked, frameAddr, fq, fq.entries
      modifies tx`consumer, tx`submitted, tx`lag
      modifies rx`producer, rx`waiting, rx`lag, rx.entries, cq`producer, cq`waiting, cq`lag, cq.entries
      modifies this`flight
      ensures Valid() && fq.reserved == 0 && fq.CachedRoom() == 0
      ensures OutForTransmit(View()) == old(OutForTransmit(View())) && AtLeast(old(Progress()))
      ensures old(fq.Room()) <= room <= fq.size
      ensures var n := if old(frameFree) == 0 then 0 else room;
              && fq.producer == Wrap(old(fq.producer) + n)
              && invalidStocked == old(invalidStocked) + Excess(n, old(frameFree))
      ensures frameFree == Excess(old(frameFree), if old(frameFree) == 0 then 0 else room)
      ensures invalidStocked - old(invalidStocked) ==
              if 0 < old(frameFree) < room then room - old(frameFree) else 0
      ensures (old(frameFree) == 0 || room <= old(frameFree)) && old(Real(View().fill)) ==> Real(View().fill)
      ensures old(AsBuilt()) ==> room <= old(frameFree)
    {
      hide ProducerRing.Valid, ConsumerRing.Valid, Partition, Real, Wrap, OutForTransmit, View;
      SameIndex(fq.producer, 0);
      KernelActs(kernel(BeforeCount));
      room := RoomOf();
      var stockFrames := StockCount();
      StockSome(stockFrames, kernel);
    }

    /** The frame at hand goes into the reserved TX entry. */
    method FillTx(txIdx: u32, addr: u64)
      requires Valid() && tx.reserved == 1 && tx.filled == [] && txIdx == Wrap(tx.producer)
      requires doneRx < |rx.peeked| && addr == rx.peeked[doneRx]
      modifies tx`filled, tx.entries, this`doneRx
      ensures Valid() && tx.filled == [addr] && doneRx == old(doneRx) + 1 && View() == SentOn(old(View()))
      ensures OutForTransmit(View()) == old(OutForTransmit(View())) + 1
    {
      hide ProducerRing.Valid, ConsumerRing.Valid, Partition, Real, Wrap;
      ghost var o := View();
      MoveSend(o, numFrames);
      SameIndex(tx.producer, 0);
      tx.Fill(txIdx, addr);
      doneRx := doneRx + 1;
      assert tx.submitted + tx.filled == o.sending + [addr];
    }

    method SubmitTx()
      requires Valid() && tx.reserved == |tx.filled| == 1
      modifies tx`producer, tx`submitted, tx`filled, tx`reserved
      ensures Valid() && tx.reserved == 0 && View() == old(View()) && tx.producer == Wrap(old(tx.producer) + 1)
      ensures tx.Room() == old(tx.Room())
    {
      hide ProducerRing.Valid, ConsumerRing.Valid, Partition, Real, Wrap;
      ghost var o := View();
      tx.Submit(1);
      assert View() == o by { assert tx.submitted + tx.filled == tx.submitted; }
    }

    /** The frame at hand goes out. */
    method SendTx(i: nat, txIdx: u32, addr: u64, kernel: Kernel)
      requires Valid() && tx.reserved == 1 && tx.filled == [] && txIdx == Wrap(tx.producer)
      requires doneRx < |rx.peeked| && addr == rx.peeked[doneRx]
      modifies tx`producer, tx`filled, tx`reserved, tx.entries, this`doneRx
      modifies fq`consumer, fq`submitted, fq`lag, tx`consumer, tx`submitted, tx`lag
      modifies rx`producer, rx`waiting, rx`lag, rx.entries, cq`producer, cq`waiting, cq`lag, cq.entries
      modifies this`flight
      ensures Valid() && tx.reserved == 0 && doneRx == old(doneRx) + 1 && tx.producer == Wrap(old(tx.producer) + 1)
      ensures fq.CachedRoom() == old(fq.CachedRoom()) && |cq.waiting| >= |old(cq.waiting)|
      ensures OutForTransmit(View()) == old(OutForTransmit(View())) + 1
      ensures old(Real(View().fill)) ==> Real(View().fill)
    {
      hide ProducerRing.Valid, ConsumerRing.Valid, Partition, Real, Wrap, OutForTransmit, View, ProducerRing.CachedRoom;
      KernelActs(kernel(BeforeTxFill(i)));
      FillTx(txIdx, addr);
      KernelActs(kernel(BeforeTxSubmit(i)));
      SubmitTx();
    }

    lemma RoomToCount()
      requires Valid() && doneRx < |rx.peeked|
      ensures OutForTransmit(View()) < numFrames
    {
      OutIsBounded(View(), numFrames);
    }

    /** process_packet on the i-th packet: with the responder on, an echo request goes back out
        through the TX ring if that has a free slot. The answer is true if the frame has gone. */
    method ProcessPacket(i: nat, addr: u64, isEcho: bool, kernel: Kernel) returns (sent: bool)
      requires Valid() && tx.reserved == 0 && doneRx < |rx.peeked| && addr == rx.peeked[doneRx]
      requires outstandingTx == OutForTransmit(View())
      modifies tx, tx.entries, this`outstandingTx, this`doneRx, this`flight
      modifies fq`consumer, fq`submitted, fq`lag
      modifies rx`producer, rx`waiting, rx`lag, rx.entries, cq`producer, cq`waiting, cq`lag, cq.entries
      ensures Valid() && tx.reserved == 0
      ensures fq.CachedRoom() == old(fq.CachedRoom()) && |cq.waiting| >= |old(cq.waiting)|
      ensures outstandingTx == OutForTransmit(View())
      ensures outstandingTx == old(outstandingTx) + if sent then 1 else 0
      ensures tx.producer == Wrap(old(tx.producer) + if sent then 1 else 0)
      ensures sent <==> echo && isEcho && old(tx.Room()) > 0
      ensures sent ==> doneRx == old(doneRx) + 1
      ensures !sent ==> doneRx == old(doneRx) && View() == old(View())
      ensures old(Real(View().fill)) ==> Real(View().fill)
    {
      hide ProducerRing.Valid, ConsumerRing.Valid, Partition, Real, Wrap, View, OutForTransmit, ProducerRing.CachedRoom;
      SameIndex(tx.producer, 0);
      if !echo || !isEcho {
        return false;
      }
      tx.Bounds();
      RoomToCount();
      var ret, txIdx := tx.Reserve(1);
      if ret != 1 {
        return false;
      }
      SendTx(i, txIdx, addr, kernel);
      NextCounts(outstandingTx);
      outstandingTx := Next(outstandingTx);
      sent := true;
    }

    /** One turn of the loop over the batch. */
    method ProcessOne(i: nat, idxRx: u32, isEcho: bool, kernel: Kernel) returns (gone: bool)
      requires Valid() && tx.reserved == 0 && doneRx == i < |rx.peeked| && idxRx == Wrap(rx.consumer + i)
      requires outstandingTx == OutForTransmit(View())
      modifies this`frameFree, frameAddr, this`outstandingTx, this`doneRx, this`flight
      modifies tx, tx.entries, fq`consumer, fq`submitted, fq`lag
      modifies rx`producer, rx`waiting, rx`lag, rx.entries, cq`producer, cq`waiting, cq`lag, cq.entries
      ensures Valid() && tx.reserved == 0 && doneRx == i + 1
      ensures fq.CachedRoom() == old(fq.CachedRoom()) && |cq.waiting| >= |old(cq.waiting)|
      ensures outstandingTx == OutForTransmit(View()) == old(outstandingTx) + if gone then 1 else 0
      ensures tx.producer == Wrap(old(tx.producer) + if gone then 1 else 0)
      ensures gone ==> echo && isEcho
      ensures echo && isEcho && old(tx.Room()) > 0 ==> gone
      ensures frameFree == old(frameFree) + if gone then 0 else 1
      ensures old(Real(View().fill)) ==> Real(View().fill)
    {
      hide ProducerRing.Valid, ConsumerRing.Valid, Partition, Real, Wrap, OutForTransmit, View,
           ProducerRing.CachedRoom, ProducerRing.Room;
      KernelActs(kernel(BeforePacket(i)));
      var addr := rx.Entry(idxRx, i);
      gone := ProcessPacket(i, addr, isEcho, kernel);
      if !gone {
        FreeReceived(addr);
      }
    }

    /** The receive batch: each frame goes out again or back to the allocator. */
    method ProcessBatch(first: u32, rcvd: nat, isEcho: nat -> bool, kernel: Kernel) returns (ghost sent: nat)
      requires Valid() && tx.reserved == 0 && doneRx == 0 && rcvd == |rx.peeked| && first == Wrap(rx.consumer)
      requires outstandingTx == OutForTransmit(View())
      modifies this`frameFree, frameAddr, this`outstandingTx, this`doneRx, this`flight
      modifies tx, tx.entries, fq`consumer, fq`submitted, fq`lag
      modifies rx`producer, rx`waiting, rx`lag, rx.entries, cq`producer, cq`waiting, cq`lag, cq.entries
      ensures Valid() && tx.reserved == 0 && doneRx == |rx.peeked|
      ensures fq.CachedRoom() == old(fq.CachedRoom()) && |cq.waiting| >= |old(cq.waiting)|
      ensures outstandingTx == OutForTransmit(View()) == old(outstandingTx) + sent
      ensures tx.producer == Wrap(old(tx.producer) + sent)
      ensures sent <= rcvd && (!echo ==> sent == 0)
      ensures echo && rcvd > 0 && isEcho(0) && old(tx.Room()) > 0 ==> sent > 0
      ensures frameFree == old(frameFree) + rcvd - sent
      ensures old(Real(View().fill)) ==> Real(View().fill)
    {
      hide ProducerRing.Valid, ConsumerRing.Valid, Partition, Real, Wrap, OutForTransmit, View,
           ProducerRing.CachedRoom, ProducerRing.Room;
      var idxRx := first;
      sent := 0;
      SameIndex(tx.producer, 0);
      for i := 0 to rcvd
        invariant Valid() && tx.reserved == 0 && doneRx == i
        invariant fq.CachedRoom() == old(fq.CachedRoom()) && |cq.waiting| >= |old(cq.waiting)|
        invariant i < rcvd ==> idxRx == Wrap(rx.consumer + i)
        invariant outstandingTx == OutForTransmit(View()) == old(outstandingTx) + sent
        invariant tx.producer == Wrap(old(tx.producer) + sent)
        invariant sent <= i && (!echo ==> sent == 0)
        invariant i == 0 ==> tx.Room() == old(tx.Room())
        invariant i > 0 && echo && isEcho(0) && old(tx.Room()) > 0 ==> sent > 0
        invariant frameFree == old(frameFree) + i - sent
        invariant old(Real(View().fill)) ==> Real(View().fill)
      {
        var gone := ProcessOne(i, idxRx, isEcho(i), kernel);
        NextOfWrap(rx.consumer, i);
        idxRx := Next(idxRx);
        WrapAdd(old(tx.producer), sent, if gone then 1 else 0);
        sent := sent + if gone then 1 else 0;
      }
    }

    /** The frame of a packet that was not sent on goes back. */
    method FreeReceived(addr: u64)
      requires Valid() && doneRx < |rx.peeked| && addr == rx.peeked[doneRx]
      modifies this`frameFree, frameAddr, this`doneRx
      ensures Valid() && doneRx == old(doneRx) + 1 && View() == FreedReceived(old(View()))
      ensures View().stack == old(View()).stack + [addr]
      ensures OutForTransmit(View()) == old(OutForTransmit(View()))
      ensures frameFree == old(frameFree) + 1
    {
      hide ProducerRing.Valid, ConsumerRing.Valid, Partition, Real, Wrap;
      ghost var o := View();
      RoomOnStack(o, numFrames);
      MoveFreeReceived(o, numFrames);
      FreeFrame(addr);
      doneRx := doneRx + 1;
    }

    /** One completed transmission: its frame goes back to the allocator. */
    method FreeCompleted(addr: u64)
      requires Valid() && doneCq < |cq.peeked| && addr == cq.peeked[doneCq]
      modifies this`frameFree, frameAddr, this`doneCq
      ensures Valid() && doneCq == old(doneCq) + 1 && View() == FreedCompleted(old(View()))
      ensures View().stack == old(View()).stack + [addr]
      ensures OutForTransmit(View()) == old(OutForTransmit(View())) - 1
      ensures frameFree == old(frameFree) + 1
    {
      hide ProducerRing.Valid, ConsumerRing.Valid, Partition, Real, Wrap;
      ghost var o := View();
      RoomOnStack(o, numFrames);
      MoveFreeCompleted(o, numFrames);
      FreeFrame(addr);
      doneCq := doneCq + 1;
    }

    /** The completion batch. */
    method FreeBatch(first: u32, completed: nat, kernel: Kernel)
      requires Valid() && doneCq == 0 && completed == |cq.peeked| && first == Wrap(cq.consumer)
      modifies this`frameFree, frameAddr, this`doneCq, this`flight
      modifies fq`consumer, fq`submitted, fq`lag, tx`consumer, tx`submitted, tx`lag
      modifies rx`producer, rx`waiting, rx`lag, rx.entries, cq`producer, cq`waiting, cq`lag, cq.entries
      ensures Valid() && doneCq == completed
      ensures OutForTransmit(View()) == old(OutForTransmit(View())) - completed
      ensures fq.CachedRoom() == old(fq.CachedRoom())
      ensures old(Real(View().fill)) ==> Real(View().fill)
      ensures frameFree == old(frameFree) + completed
    {
      hide ProducerRing.Valid, ConsumerRing.Valid, Partition, Real, Wrap, OutForTransmit, View,
           ProducerRing.CachedRoom, ProducerRing.Room;
      var idxCq := first;
      for i := 0 to completed
        invariant Valid() && doneCq == i
        invariant i < completed ==> idxCq == Wrap(cq.consumer + i)
        invariant frameFree == old(frameFree) + i
        invariant OutForTransmit(View()) == old(OutForTransmit(View())) - i
        invariant fq.CachedRoom() == old(fq.CachedRoom())
        invariant old(Real(View().fill)) ==> Real(View().fill)
      {
        KernelActs(kernel(BeforeCompletion(i)));
        var addr := cq.Entry(idxCq, i);
        NextOfWrap(cq.consumer, i);
        idxCq := Next(idxCq);
        FreeCompleted(addr);
      }
    }

    /** Free the completed frames and give their ring entries back. */
    method CollectCq(first: u32, completed: nat, kernel: Kernel)
      requires Valid() && doneCq == 0 && completed == |cq.peeked| && first == Wrap(cq.consumer)
      modifies this`frameFree, frameAddr, this`doneCq, this`flight
      modifies fq`consumer, fq`submitted, fq`lag, tx`consumer, tx`submitted, tx`lag
      modifies rx`producer, rx`waiting, rx`lag, rx.entries, cq, cq.entries
      ensures Valid() && cq.peeked == [] && cq.consumer == Wrap(old(cq.consumer) + completed)
      ensures OutForTransmit(View()) == old(OutForTransmit(View())) - completed
      ensures fq.CachedRoom() == old(fq.CachedRoom())
      ensures old(Real(View().fill)) ==> Real(View().fill)
      ensures frameFree == old(frameFree) + completed
    {
      hide ProducerRing.Valid, ConsumerRing.Valid, Partition, Real, Wrap, OutForTransmit, View, ProducerRing.CachedRoom;
      FreeBatch(first, completed, kernel);
      KernelActs(kernel(BeforeCqRelease));
      ReleaseCq(completed);
    }

    /** complete_tx: collect what the kernel has sent. The clamp in its last step never clips. */
    method CompleteTx(kernel: Kernel) returns (ghost collected: nat)
      requires Valid() && cq.peeked == [] && outstandingTx == OutForTransmit(View())
      modifies this`frameFree, frameAddr, this`outstandingTx, this`doneCq, this`flight
      modifies fq`consumer, fq`submitted, fq`lag, tx`consumer, tx`submitted, tx`lag
      modifies rx`producer, rx`waiting, rx`lag, rx.entries, cq, cq.entries
      ensures Valid() && cq.peeked == [] && outstandingTx == OutForTransmit(View())
      ensures outstandingTx == old(outstandingTx) - collected
      ensures cq.consumer == Wrap(old(cq.consumer) + collected)
      ensures old(outstandingTx) > 0 && old(cq.waiting) != [] ==> collected > 0
      ensures fq.CachedRoom() == old(fq.CachedRoom())
      ensures frameFree == old(frameFree) + collected
      ensures old(Real(View().fill)) ==> Real(View().fill)
    {
      hide ProducerRing.Valid, ConsumerRing.Valid, Partition, Real, Wrap, OutForTransmit, View,
           ProducerRing.CachedRoom, ProducerRing.Room;
      SameIndex(cq.consumer, 0);
      collected := 0;
      if outstandingTx == 0 {
        return;
      }
      KernelActs(kernel(InSendto));
      var completed, idxCq := PeekCq();
      collected := completed;
      if completed > 0 {
        CollectCq(idxCq, completed, kernel);
        assert completed <= outstandingTx;
        outstandingTx := outstandingTx - if completed < outstandingTx then completed else outstandingTx;
      }
    }

    /** Peek at up to a full ring of completions. */
    method PeekCq() returns (completed: nat, idxCq: u32)
      requires Valid() && cq.peeked == []
      modifies cq`cachedProd, cq`cachedCons, cq`waiting, cq`peeked, cq`lag
      ensures Valid() && |cq.peeked| == completed && doneCq == old(doneCq) && idxCq == Wrap(cq.consumer)
      ensures completed == 0 ==> old(cq.waiting) == []
      ensures OutForTransmit(View()) == old(OutForTransmit(View())) && View().fill == old(View()).fill
    {
      hide ProducerRing.Valid, ConsumerRing.Valid, Partition, Real, Wrap;
      ghost var o := View();
      cq.Bounds();
      completed, idxCq := cq.Peek(cq.size);
      MovePeekCq(o, numFrames, cq.peeked, cq.waiting);
    }

    method ReleaseCq(completed: nat)
      requires Valid() && doneCq == completed == |cq.peeked|
      modifies cq`consumer, cq`peeked, this`doneCq
      ensures Valid() && cq.peeked == [] && View() == old(View()) && cq.consumer == Wrap(old(cq.consumer) + completed)
    {
      hide ProducerRing.Valid, ConsumerRing.Valid, Partition, Real, Wrap;
      ghost var o := View();
      cq.Release(completed);
      doneCq := 0;
      assert View() == o;
    }

    method ReleaseRx(rcvd: nat)
      requires Valid() && doneRx == rcvd == |rx.peeked|
      modifies rx`consumer, rx`peeked, this`doneRx
      ensures Valid() && rx.peeked == [] && View() == old(View()) && rx.consumer == Wrap(old(rx.consumer) + rcvd)
    {
      hide ProducerRing.Valid, ConsumerRing.Valid, Partition, Real, Wrap;
      ghost var o := View();
      rx.Release(rcvd);
      doneRx := 0;
      assert View() == o;
    }

    /** Peek at up to RX_BATCH_SIZE received packets. */
    method PeekRx() returns (rcvd: nat, idxRx: u32)
      requires Valid() && rx.peeked == []
      modifies rx`cachedProd, rx`cachedCons, rx`waiting, rx`peeked, rx`lag
      ensures Valid() && |rx.peeked| == rcvd && doneRx == old(doneRx) && idxRx == Wrap(rx.consumer)
      ensures rcvd <= RX_BATCH_SIZE && (rcvd == 0 ==> old(rx.waiting) == [])
      ensures OutForTransmit(View()) == old(OutForTransmit(View())) && View().fill == old(View()).fill
      ensures old(AsBuilt()) ==> AsBuilt()
      ensures |rx.peeked| <= rx.size
    {
      hide ProducerRing.Valid, ConsumerRing.Valid, Partition, Real, Wrap;
      ghost var o := View();
      rx.Bounds();
      rcvd, idxRx := rx.Peek(RX_BATCH_SIZE);
      MovePeekRx(o, numFrames, rx.peeked, rx.waiting);
    }

    /** Process the batch and give the RX entries back. */
    method ProcessAndRelease(first: u32, rcvd: nat, isEcho: nat -> bool, kernel: Kernel) returns (ghost sent: nat)
      requires Valid() && tx.reserved == 0 && doneRx == 0 && rcvd == |rx.peeked| && first == Wrap(rx.consumer)
      requires outstandingTx == OutForTransmit(View())
      modifies this`frameFree, frameAddr, this`outstandingTx, this`doneRx, this`flight
      modifies tx, tx.entries, fq`consumer, fq`submitted, fq`lag
      modifies rx, rx.entries, cq`producer, cq`waiting, cq`lag, cq.entries
      ensures Valid() && tx.reserved == 0 && rx.peeked == [] && rx.consumer == Wrap(old(rx.consumer) + rcvd)
      ensures fq.CachedRoom() == old(fq.CachedRoom()) && |cq.waiting| >= |old(cq.waiting)|
      ensures outstandingTx == OutForTransmit(View()) == old(outstandingTx) + sent
      ensures tx.producer == Wrap(old(tx.producer) + sent)
      ensures sent <= rcvd && (!echo ==> sent == 0)
      ensures echo && rcvd > 0 && isEcho(0) && old(tx.Room()) > 0 ==> sent > 0
      ensures frameFree == old(frameFree) + rcvd - sent
      ensures old(Real(View().fill)) ==> Real(View().fill)
    {
      hide ProducerRing.Valid, ConsumerRing.Valid, Partition, Real, Wrap, OutForTransmit, View,
           ProducerRing.CachedRoom, ProducerRing.Room;
      sent := ProcessBatch(first, rcvd, isEcho, kernel);
      KernelActs(kernel(BeforeRelease));
      ReleaseRx(rcvd);
    }

    /** A call that received something, from the count on. */
    method HandleBatch(first: u32, rcvd: nat, isEcho: nat -> bool, kernel: Kernel)
      returns (ghost room: nat, ghost sent: nat, ghost collected: nat)
      requires Valid() && fq.reserved == 0 && fq.CachedRoom() == 0 && tx.reserved == 0 && cq.peeked == []
      requires doneRx == 0 && rcvd == |rx.peeked| > 0 && first == Wrap(rx.consumer)
      requires outstandingTx == OutForTransmit(View())
      modifies Repr
      ensures Valid() && Settled() && Repr == old(Repr)
      ensures rx.consumer == Wrap(old(rx.consumer) + rcvd)
      ensures old(fq.Room()) <= room <= fq.size
      ensures var n := if old(frameFree) == 0 then 0 else room;
              && fq.producer == Wrap(old(fq.producer) + n)
              && invalidStocked == old(invalidStocked) + Excess(n, old(frameFree))
              && frameFree == Excess(old(frameFree), n) + rcvd - sent + collected
              && (n <= old(frameFree) && old(Real(View().fill)) ==> Real(View().fill))
      ensures sent <= rcvd && (!echo ==> sent == 0) && tx.producer == Wrap(old(tx.producer) + sent)
      ensures echo && isEcho(0) && old(tx.Room()) > 0 ==> sent > 0
      ensures outstandingTx == old(outstandingTx) + sent - collected
      ensures cq.consumer == Wrap(old(cq.consumer) + collected)
      ensures old(outstandingTx) > 0 && old(cq.waiting) != [] ==> collected > 0
      ensures old(AsBuilt()) ==> AsBuilt() && invalidStocked == old(invalidStocked)
    {
      hide ProducerRing.Valid, ConsumerRing.Valid, Partition, Real, Wrap, OutForTransmit, View,
           ProducerRing.CachedRoom, ProducerRing.Room;
      room := Stock(kernel);
      sent := ProcessAndRelease(first, rcvd, isEcho, kernel);
      collected := CompleteTx(kernel);
    }

    /** handle_receive_packets, with the kernel at work before each ring access. Every frame keeps
        exactly one owner and outstanding_tx stays exact. `rcvd`, `sent` and `collected` count the
        packets received, sent on and found completed; `room` is the room of the fill ring when
        it is counted. Invalid addresses are stocked if and only if some frame is free then but
        fewer than the ring has room for; as built that never happens. */
    method HandleReceivePackets(isEcho: nat -> bool, kernel: Kernel)
      returns (ghost rcvd: nat, ghost room: nat, ghost sent: nat, ghost collected: nat)
      requires Valid() && Settled()
      modifies Repr
      ensures Valid() && Settled() && Repr == old(Repr)
      ensures rcvd <= RX_BATCH_SIZE && (rcvd == 0 ==> old(rx.waiting) == [] && room == sent == collected == 0)
      ensures rx.consumer == Wrap(old(rx.consumer) + rcvd)
      ensures rcvd > 0 ==> old(fq.Room()) <= room <= fq.size
      ensures var n := if old(frameFree) == 0 then 0 else room;
              && fq.producer == Wrap(old(fq.producer) + n)
              && invalidStocked == old(invalidStocked) + Excess(n, old(frameFree))
              && frameFree == Excess(old(frameFree), n) + rcvd - sent + collected
              && (n <= old(frameFree) && old(Real(View().fill)) ==> Real(View().fill))
      ensures sent <= rcvd && (!echo ==> sent == 0) && tx.producer == Wrap(old(tx.producer) + sent)
      ensures echo && rcvd > 0 && isEcho(0) && old(tx.Room()) > 0 ==> sent > 0
      ensures outstandingTx == old(outstandingTx) + sent - collected
      ensures cq.consumer == Wrap(old(cq.consumer) + collected)
      ensures rcvd > 0 && old(outstandingTx) > 0 && old(cq.waiting) != [] ==> collected > 0
      ensures old(AsBuilt()) ==> AsBuilt() && invalidStocked == old(invalidStocked)
      ensures rcvd <= rx.size
      ensures invalidStocked - old(invalidStocked) ==
              if rcvd > 0 && 0 < old(frameFree) < room then room - old(frameFree) else 0
    {
      hide ProducerRing.Valid, ConsumerRing.Valid, Partition, Real, Wrap, OutForTransmit, View,
           ProducerRing.CachedRoom, ProducerRing.Room;
      SameIndex(rx.consumer, 0);
      SameIndex(fq.producer, 0);
      SameIndex(tx.producer, 0);
      SameIndex(cq.consumer, 0);
      KernelActs(kernel(BeforePeek));
      var n, idxRx := PeekRx();
      rcvd, room, sent, collected := n, 0, 0, 0;
      if n > 0 {
        room, sent, collected := HandleBatch(idxRx, n, isEcho, kernel);
      }
    }

    /** rx_and_process: any number of calls, with packets arriving in poll and at any other time. */
    method RxAndProcess(calls: seq<(nat -> bool, Kernel)>)
      requires Valid() && Settled()
      modifies Repr
      ensures Valid() && Settled() && Repr == old(Repr)
      ensures old(AsBuilt()) ==> AsBuilt() && invalidStocked == old(invalidStocked)
    {
      hide ProducerRing.Valid, ConsumerRing.Valid, Partition, Real, Wrap, OutForTransmit, View, AtLeast,
           ProducerRing.CachedRoom, ProducerRing.Room, Excess;
      for i := 0 to |calls|
        invariant Valid() && Settled() && Repr == old(Repr)
        invariant old(AsBuilt()) ==> AsBuilt() && invalidStocked == old(invalidStocked)
      {
        KernelActs(calls[i].1(InPoll));
        ghost var rcvd, room, sent, collected := HandleReceivePackets(calls[i].0, calls[i].1);
      }
    }
  }

  /** Every run of the program, from start-up on: each frame has exactly one owner in every state
      the kernel can observe, and with the responder off and frames for both receive rings no
      invalid address is ever stocked. */
  method Run(numFrames: nat, echo: bool, fillSize: nat, txSize: nat, rxSize: nat, cqSize: nat,
             startUp: Kernel, calls: seq<(nat -> bool, Kernel)>) returns (s: XskSocket)
    requires RingSize(fillSize) && RingSize(txSize) && RingSize(rxSize) && RingSize(cqSize)
    requires numFrames < MAX_FRAMES
    ensures s.Valid() && s.Settled()
    ensures !echo && numFrames >= fillSize + rxSize ==> s.invalidStocked == 0 && s.AsBuilt()
  {
    hide ProducerRing.Valid, ConsumerRing.Valid, Partition, Real, Wrap, OutForTransmit;
    s := new XskSocket(numFrames, echo, fillSize, txSize, rxSize, cqSize);
    s.Configure(startUp);
    s.RxAndProcess(calls);
  }
}
