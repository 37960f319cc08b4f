/** Particular runs of the AF_XDP program: one in which frames travel all the way, and one in
    which the fill ring is stocked with an invalid address. */
module UmemRuns {
  import opened XskRings
  import opened FrameOwnership
  import opened UmemFrames

  /** A socket after start-up; all rings have the same size. */
  method Ready(numFrames: nat, echo: bool, size: nat) returns (s: XskSocket)
    requires RingSize(size) && size <= numFrames < MAX_FRAMES
    ensures fresh(s.Repr) && s.Valid() && s.Settled()
    ensures s.numFrames == numFrames && s.echo == echo && s.fq.size == s.tx.size == s.rx.size == s.cq.size == size
    ensures |s.fq.submitted| == size && s.frameFree == numFrames - size && s.invalidStocked == 0
    ensures s.fq.producer == size && s.rx.consumer == s.tx.producer == s.cq.consumer == 0
    ensures s.rx.waiting == s.tx.submitted == [] && s.outstandingTx == 0 && Real(s.View().fill)
  {
    hide ProducerRing.Valid, ConsumerRing.Valid, Partition, Real, OutForTransmit, XskSocket.View;
    s := new XskSocket(numFrames, echo, size, size, size, size);
    s.Configure(_ => []);
    NothingElsewhere(s);
  }

  lemma NothingElsewhere(s: XskSocket)
    requires s.Valid() && s.Settled() && Real(s.View().fill) && |s.fq.submitted| + s.frameFree == s.numFrames
    ensures s.rx.waiting == s.tx.submitted == [] && s.outstandingTx == 0
  {
    Census(s.View(), s.numFrames);
    NoStrays(s.View().fill);
  }

  lemma ReceivedSizes(o: Owners, off: nat)
    requires o.fill != [] && Real(o.fill) && off < FRAME_SIZE
    ensures |Received(o, off).fill| == |o.fill| - 1 && |Received(o, off).arrived| == |o.arrived| + 1
  {
  }

  lemma Sizes(s: XskSocket)
    requires s.Valid() && s.Settled()
    ensures |s.View().fill| == |s.fq.submitted| && |s.View().arrived| == |s.rx.waiting| && s.rx.peeked == []
  {
    s.fq.Bounds();
  }

  /** One packet arrives. */
  method Arrive(s: XskSocket)
    requires s.Valid() && s.Settled() && Real(s.View().fill)
    requires s.fq.submitted != [] && |s.rx.waiting| < s.rx.size
    modifies s.fq`consumer, s.fq`submitted, s.fq`lag, s.rx`producer, s.rx`waiting, s.rx`lag, s.rx.entries
    ensures s.Valid() && s.Settled() && Real(s.View().fill)
    ensures |s.fq.submitted| == |old(s.fq.submitted)| - 1 && |s.rx.waiting| == |old(s.rx.waiting)| + 1
  {
    hide ProducerRing.Valid, ConsumerRing.Valid, Partition, Real, OutForTransmit, XskSocket.View, Received;
    Sizes(s);
    ReceivedSizes(s.View(), 0);
    s.KernelReceive(0);
    Sizes(s);
  }

  /** With 20 frames and a fill ring of 16, five packets leave more room in the ring than there
      are free frames: the next call stocks an invalid address. */
  method StockingFails() returns (s: XskSocket)
    ensures s.Valid() && s.Settled() && s.numFrames == 20 && s.fq.size == 16 && !s.echo
    ensures s.invalidStocked > 0
  {
    hide ProducerRing.Valid, ConsumerRing.Valid, Partition, Real, Wrap, OutForTransmit, XskSocket.View;
    s := Ready(20, false, 16);
    for i := 0 to 5
      modifies s.Repr
      invariant s.Valid() && s.Settled() && Real(s.View().fill) && fresh(s.Repr)
      invariant |s.fq.submitted| == 16 - i && |s.rx.waiting| == i && s.frameFree == 4 && s.invalidStocked == 0
    {
      Arrive(s);
    }
    ghost var rcvd, room, sent, collected := s.HandleReceivePackets(_ => false, _ => []);
  }

  lemma OutSizes(s: XskSocket)
    requires s.Valid() && s.Settled()
    ensures |s.View().sending| == |s.tx.submitted| && s.View().flight == s.flight
    ensures |s.View().sent| == |s.cq.waiting| && s.View().completed == [] && s.cq.peeked == []
  {
    s.tx.Bounds();
  }

  /** A kernel step on the TX ring leaves a frame in flight or sent, if one is out at all. */
  lemma InFlightOrSent(o: Owners)
    requires OutForTransmit(o) > 0 && o.completed == []
    ensures var o' := if o.sending != [] then Transmitted(o) else o; o'.flight != [] || o'.sent != []
  {
  }

  /** A frame that is out for transmit is reported as sent. */
  method Report(s: XskSocket)
    requires s.Valid() && s.Settled() && s.outstandingTx > 0
    modifies s.tx`consumer, s.tx`submitted, s.tx`lag
    modifies s.cq`producer, s.cq`waiting, s.cq`lag, s.cq.entries, s`flight
    ensures s.Valid() && s.Settled() && s.cq.waiting != []
    ensures s.View().fill == old(s.View()).fill
  {
    hide ProducerRing.Valid, ConsumerRing.Valid, Partition, Real, OutForTransmit, XskSocket.View;
    OutSizes(s);
    InFlightOrSent(s.View());
    s.KernelTransmit();
    OutSizes(s);
    s.cq.Bounds();
    s.KernelComplete(0);
    OutSizes(s);
  }

  /** Eight frames, rings of four: after a call that received something the RX ring or the fill
      ring is not empty. */
  lemma SomethingToReceive(s: XskSocket, room: nat, rcvd: nat)
    requires s.Valid() && s.Settled() && Real(s.View().fill) && s.numFrames == 8
    requires s.frameFree + s.outstandingTx == 4 - room + rcvd && room > 0 && rcvd <= 4
    ensures s.rx.waiting != [] || s.fq.submitted != []
  {
    Census(s.View(), 8);
    NoStrays(s.View().fill);
    s.fq.Bounds();
  }

  /** A packet arrives unless the RX ring is full. */
  method ArriveIfRoom(s: XskSocket)
    requires s.Valid() && s.Settled() && Real(s.View().fill)
    requires s.rx.waiting != [] || s.fq.submitted != []
    modifies s.fq`consumer, s.fq`submitted, s.fq`lag, s.rx`producer, s.rx`waiting, s.rx`lag, s.rx.entries
    ensures s.Valid() && s.Settled() && s.rx.waiting != []
  {
    hide ProducerRing.Valid, ConsumerRing.Valid, Partition, Real;
    s.rx.Bounds();
    var room := s.rx.KernelHasRoom();
    var ready := s.fq.KernelHasEntry();
    if room && ready {
      Arrive(s);
    }
  }

  /** One packet comes in and is answered. */
  method FirstCall() returns (s: XskSocket)
    ensures fresh(s.Repr) && s.Valid() && s.Settled() && s.invalidStocked == 0
    ensures 0 < s.rx.consumer <= 4 < s.fq.producer <= 8 && 0 < s.tx.producer <= 4
    ensures s.outstandingTx > 0 ==> s.cq.consumer <= 4
    ensures s.outstandingTx == 0 ==> s.cq.consumer > 0
    ensures s.outstandingTx > 0 ==> Real(s.View().fill) && (s.rx.waiting != [] || s.fq.submitted != [])
    ensures s.fq.size == s.rx.size == 4
  {
    hide ProducerRing.Valid, ConsumerRing.Valid, Partition, Real, OutForTransmit, XskSocket.View, Stored;
    s := Ready(8, true, 4);
    Arrive(s);
    s.tx.Bounds();
    assert s.tx.Room() > 0;
    hide XskSocket.Settled, XskSocket.Shape, ProducerRing.CachedRoom, ProducerRing.Room;
    ghost var rcvd, room, sent, collected := s.HandleReceivePackets(_ => true, _ => []);
    SomethingToReceive(s, room, rcvd);
  }

  /** Its frame is sent while another packet comes in. */
  method BeforeSecondCall(s: XskSocket)
    requires s.Valid() && s.Settled() && s.outstandingTx > 0
    requires Real(s.View().fill) && (s.rx.waiting != [] || s.fq.submitted != []) && s.fq.size == 4
    modifies s.Repr
    ensures s.Valid() && s.Settled() && s.cq.waiting != [] && s.rx.waiting != []
    ensures s.outstandingTx == old(s.outstandingTx) && s.Repr == old(s.Repr)
    ensures s.rx.consumer == old(s.rx.consumer) && s.fq.producer == old(s.fq.producer)
    ensures s.tx.producer == old(s.tx.producer) && s.cq.consumer == old(s.cq.consumer)
  {
    hide ProducerRing.Valid, ConsumerRing.Valid, Partition, Real, OutForTransmit, XskSocket.View,
         ProducerRing.Room, ProducerRing.CachedRoom;
    Report(s);
    ArriveIfRoom(s);
  }

  /** Its frame is collected. */
  method SecondCall(s: XskSocket)
    requires s.Valid() && s.Settled() && s.outstandingTx > 0
    requires Real(s.View().fill) && (s.rx.waiting != [] || s.fq.submitted != []) && s.fq.size == 4
    requires 0 < s.rx.consumer <= 4 < s.fq.producer <= 8 && 0 < s.tx.producer <= 4 && s.cq.consumer <= 4
    modifies s.Repr
    ensures s.Valid() && s.Settled()
    ensures s.rx.consumer > 0 && s.fq.producer > 4 && s.tx.producer > 0 && s.cq.consumer > 0
  {
    hide ProducerRing.Valid, ConsumerRing.Valid, Partition, Real, OutForTransmit, XskSocket.View, Excess,
         ProducerRing.Room, ProducerRing.CachedRoom, XskSocket.Settled;
    BeforeSecondCall(s);
    ghost var n := s.outstandingTx;
    ghost var rcvd, room, sent, collected := s.HandleReceivePackets(_ => false, _ => []);
    assert collected > 0 && collected <= n + sent;
  }

  /** A run in which a packet is received, answered and sent and its frame collected again. */
  method RoundTrip() returns (s: XskSocket)
    ensures s.Valid() && s.Settled()
    ensures s.rx.consumer > 0 && s.fq.producer > 4 && s.tx.producer > 0 && s.cq.consumer > 0
  {
    hide ProducerRing.Valid, ConsumerRing.Valid, Partition, Real, OutForTransmit, XskSocket.View;
    s := FirstCall();
    if s.outstandingTx > 0 {
      SecondCall(s);
    }
  }
}
