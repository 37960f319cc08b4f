/** Who owns which UMEM frame (__XDP_measure/xdp_measure_user.c): counting over address lists. */
module FrameOwnership {
  import opened Common

  const FRAME_SIZE := 4096
  const INVALID_UMEM_FRAME: u64 := 0xFFFF_FFFF_FFFF_FFFF

  /** The frame an address lies in; receive descriptors point past the frame's start. */
  function FrameOf(addr: u64): (f: nat)
  {
    addr / FRAME_SIZE
  }

  /** What the address of no frame counts as. */
  const NO_FRAME: nat := 0xF_FFFF_FFFF_FFFF

  function Frames(addrs: seq<u64>): (fs: seq<nat>)
    ensures |fs| == |addrs|
  {
    seq(|addrs|, i requires 0 <= i < |addrs| => FrameOf(addrs[i]))
  }

  /** The frames in a list of addresses. */
  function Bag(addrs: seq<u64>): (fs: multiset<nat>)
  {
    multiset(Frames(addrs))
  }

  /** Frames 0 to n - 1, each once. */
  function AllFrames(n: nat): (fs: multiset<nat>)
    ensures |fs| == n
    ensures forall f: nat :: fs[f] == if f < n then 1 else 0
  {
    if n == 0 then multiset{} else AllFrames(n - 1) + multiset{n - 1 as nat}
  }

  lemma BagAppend(a: seq<u64>, b: seq<u64>)
    ensures Bag(a + b) == Bag(a) + Bag(b)
  {
    assert Frames(a + b) == Frames(a) + Frames(b);
  }

  lemma BagOne(a: u64)
    ensures Bag([a]) == multiset{FrameOf(a)}
  {
    assert Frames([a]) == [FrameOf(a)];
  }

  lemma BagPush(addrs: seq<u64>, a: u64)
    ensures Bag(addrs + [a]) == Bag(addrs) + multiset{FrameOf(a)}
  {
    BagAppend(addrs, [a]);
    BagOne(a);
  }

  lemma BagPop(addrs: seq<u64>)
    requires addrs != []
    ensures Bag(addrs) == multiset{FrameOf(addrs[0])} + Bag(addrs[1..])
  {
    assert addrs == [addrs[0]] + addrs[1..];
    BagAppend([addrs[0]], addrs[1..]);
    BagOne(addrs[0]);
  }

  lemma BagRemove(addrs: seq<u64>, k: nat)
    requires k < |addrs|
    ensures Bag(addrs) == multiset{FrameOf(addrs[k])} + Bag(addrs[..k] + addrs[k + 1..])
  {
    var l, r := addrs[..k], addrs[k + 1..];
    assert addrs == l + [addrs[k]] + r;
    BagAppend(l + [addrs[k]], r);
    BagPush(l, addrs[k]);
    BagAppend(l, r);
  }

  /* ---- owners ---- */

  datatype Owners = Owners(
    stack: seq<u64>,       // free frames, the allocator's array
    fill: seq<u64>,        // written to the fill ring, not yet taken by the kernel
    arrived: seq<u64>,     // in the RX ring, not yet peeked at
    received: seq<u64>,    // peeked at, not yet processed
    sending: seq<u64>,     // written to the TX ring, not yet taken by the kernel
    flight: seq<u64>,      // with the kernel for transmission
    sent: seq<u64>,        // in the completion ring, not yet peeked at
    completed: seq<u64>)   // completions peeked at, not yet freed

  function Total(o: Owners): (fs: multiset<nat>)
  {
    Bag(o.stack) + Bag(o.fill) + Bag(o.arrived) + Bag(o.received) +
    Bag(o.sending) + Bag(o.flight) + Bag(o.sent) + Bag(o.completed)
  }

  /** Frames that were sent and are not free again. */
  function OutForTransmit(o: Owners): (n: nat)
  {
    |o.sending| + |o.flight| + |o.sent| + |o.completed|
  }

  /** All addresses in the list are addresses of frames. */
  predicate Real(addrs: seq<u64>)
  {
    forall k :: 0 <= k < |addrs| ==> FrameOf(addrs[k]) != NO_FRAME
  }

  /** Only the fill ring can hold the address of no frame. */
  predicate Clean(o: Owners)
  {
    && Real(o.stack) && Real(o.arrived) && Real(o.received)
    && Real(o.sending) && Real(o.flight) && Real(o.sent) && Real(o.completed)
  }

  /** Every frame has exactly one owner. */
  ghost predicate Partition(o: Owners, numFrames: nat)
  {
    Clean(o) && EachOnce(Total(o), numFrames)
  }

  ghost predicate EachOnce(fs: multiset<nat>, numFrames: nat)
  {
    numFrames < NO_FRAME && forall f: nat :: f != NO_FRAME ==> fs[f] == if f < numFrames then 1 else 0
  }

  /** Spelled out: the places that own frame `f` add up to one. */
  lemma OneOwner(o: Owners, numFrames: nat, f: nat)
    requires Partition(o, numFrames) && f < numFrames
    ensures Bag(o.stack)[f] + Bag(o.fill)[f] + Bag(o.arrived)[f] + Bag(o.received)[f] +
            Bag(o.sending)[f] + Bag(o.flight)[f] + Bag(o.sent)[f] + Bag(o.completed)[f] == 1
  {
    assert Total(o)[f] == 1;
  }

  /** The addresses of no frame, which only the fill ring can hold, come on top. */
  lemma Census(o: Owners, numFrames: nat)
    requires Partition(o, numFrames)
    ensures |o.stack| + |o.fill| + |o.arrived| + |o.received| + OutForTransmit(o)
            == numFrames + Bag(o.fill)[NO_FRAME]
  {
    var strays := multiset{}[NO_FRAME := Total(o)[NO_FRAME]];
    assert Total(o) == AllFrames(numFrames) + strays;
    NoStrays(o.stack);
    NoStrays(o.arrived);
    NoStrays(o.received);
    NoStrays(o.sending);
    NoStrays(o.flight);
    NoStrays(o.sent);
    NoStrays(o.completed);
  }

  lemma NoStrays(addrs: seq<u64>)
    requires Real(addrs)
    ensures Bag(addrs)[NO_FRAME] == 0
  {
    assert NO_FRAME !in Frames(addrs);
  }

  /** A frame owned outside the allocator leaves room on its stack: the assert in
      xsk_free_umem_frame cannot fire. */
  lemma RoomOnStack(o: Owners, numFrames: nat)
    requires Partition(o, numFrames)
    requires o.received != [] || o.completed != []
    ensures |o.stack| < numFrames
  {
    Census(o, numFrames);
  }

  lemma OutIsBounded(o: Owners, numFrames: nat)
    requires Partition(o, numFrames)
    ensures |o.received| + OutForTransmit(o) <= numFrames
  {
    Census(o, numFrames);
    assert Bag(o.fill)[NO_FRAME] <= |o.fill|;
  }

  /** At start-up the allocator owns everything. */
  lemma InitialPartition(addrs: seq<u64>)
    requires |addrs| < NO_FRAME
    requires forall i :: 0 <= i < |addrs| ==> FrameOf(addrs[i]) == i
    ensures Partition(Owners(addrs, [], [], [], [], [], [], []), |addrs|)
  {
    InitialBag(addrs);
    assert Total(Owners(addrs, [], [], [], [], [], [], [])) == Bag(addrs);
  }

  lemma {:induction false} InitialBag(addrs: seq<u64>)
    requires forall i :: 0 <= i < |addrs| ==> FrameOf(addrs[i]) == i
    ensures Bag(addrs) == AllFrames(|addrs|)
  {
    if addrs != [] {
      var n := |addrs| - 1;
      InitialBag(addrs[..n]);
      BagPush(addrs[..n], addrs[n]);
      assert addrs == addrs[..n] + [addrs[n]];
    }
  }

  /** The count of a stocking step is 0 without a free frame and else the room of the fill ring.
      Where the frames must be for it to exceed the free ones: */
  lemma StockExceedsFree(o: Owners, numFrames: nat, fillSize: nat)
    requires Partition(o, numFrames) && Real(o.fill) && |o.fill| <= fillSize
    ensures var elsewhere := |o.arrived| + |o.received| + OutForTransmit(o);
            0 < |o.stack| < fillSize - |o.fill|
            <==> elsewhere > numFrames - fillSize && |o.fill| + elsewhere < numFrames
  {
    Census(o, numFrames);
    NoStrays(o.fill);
  }

  /** With nothing out for transmit, and room for all of the fill and RX rings, it never does. */
  lemma EnoughFrames(o: Owners, numFrames: nat, fillSize: nat, rxSize: nat, n: nat)
    requires Partition(o, numFrames) && OutForTransmit(o) == 0
    requires numFrames >= fillSize + rxSize
    requires |o.arrived| + |o.received| <= rxSize && n <= fillSize - |o.fill|
    ensures n <= |o.stack|
  {
    Census(o, numFrames);
  }

  /* ---- moves ---- */

  lemma MoveAlloc(o: Owners, numFrames: nat)
    requires Partition(o, numFrames) && o.stack != []
    ensures var n := |o.stack| - 1;
            Partition(o.(stack := o.stack[..n], fill := o.fill + [o.stack[n]]), numFrames)
  {
    var n := |o.stack| - 1;
    BagPush(o.fill, o.stack[n]);
    BagPush(o.stack[..n], o.stack[n]);
    assert o.stack == o.stack[..n] + [o.stack[n]];
    assert Total(o.(stack := o.stack[..n], fill := o.fill + [o.stack[n]])) == Total(o);
  }

  lemma MoveInvalid(o: Owners, numFrames: nat)
    requires Partition(o, numFrames)
    ensures Partition(o.(fill := o.fill + [INVALID_UMEM_FRAME]), numFrames)
  {
    BagPush(o.fill, INVALID_UMEM_FRAME);
    assert Total(o.(fill := o.fill + [INVALID_UMEM_FRAME])) == Total(o) + multiset{NO_FRAME};
  }

  lemma RealParts(a: seq<u64>, b: seq<u64>)
    ensures Real(a + b) <==> Real(a) && Real(b)
  {
    assert forall k :: 0 <= k < |a| ==> (a + b)[k] == a[k];
    assert forall k :: 0 <= k < |b| ==> (a + b)[|a| + k] == b[k];
  }

  /** The owners after one stocking step. */
  function Stocked(o: Owners): (o': Owners)
  {
    if o.stack == [] then
      o.(fill := o.fill + [INVALID_UMEM_FRAME])
    else
      var n := |o.stack| - 1;
      o.(stack := o.stack[..n], fill := o.fill + [o.stack[n]])
  }

  lemma StackIsReal(o: Owners, numFrames: nat)
    requires Partition(o, numFrames)
    ensures forall k :: 0 <= k < |o.stack| ==> o.stack[k] != INVALID_UMEM_FRAME
  {
  }

  lemma MoveStock(o: Owners, numFrames: nat)
    requires Partition(o, numFrames)
    ensures Partition(Stocked(o), numFrames)
    ensures Real(Stocked(o).fill) <==> o.stack != [] && Real(o.fill)
  {
    if o.stack == [] {
      MoveInvalid(o, numFrames);
      assert FrameOf([INVALID_UMEM_FRAME][0]) == NO_FRAME;
      RealParts(o.fill, [INVALID_UMEM_FRAME]);
    } else {
      MoveAlloc(o, numFrames);
      RealParts(o.fill, [o.stack[|o.stack| - 1]]);
    }
  }

  /** The first frame of the receive batch goes back to the allocator. */
  function FreedReceived(o: Owners): (o': Owners)
    requires o.received != []
  {
    o.(stack := o.stack + [o.received[0]], received := o.received[1..])
  }

  lemma MoveFreeReceived(o: Owners, numFrames: nat)
    requires Partition(o, numFrames) && o.received != []
    ensures Partition(FreedReceived(o), numFrames)
  {
    BagPush(o.stack, o.received[0]);
    BagPop(o.received);
    assert Total(FreedReceived(o)) == Total(o);
  }

  /** The first frame of the receive batch goes out again. */
  function SentOn(o: Owners): (o': Owners)
    requires o.received != []
  {
    o.(sending := o.sending + [o.received[0]], received := o.received[1..])
  }

  lemma MoveSend(o: Owners, numFrames: nat)
    requires Partition(o, numFrames) && o.received != []
    ensures Partition(SentOn(o), numFrames)
  {
    BagPush(o.sending, o.received[0]);
    BagPop(o.received);
    assert Total(SentOn(o)) == Total(o);
  }

  /** The first completed frame goes back to the allocator. */
  function FreedCompleted(o: Owners): (o': Owners)
    requires o.completed != []
  {
    o.(stack := o.stack + [o.completed[0]], completed := o.completed[1..])
  }

  lemma MoveFreeCompleted(o: Owners, numFrames: nat)
    requires Partition(o, numFrames) && o.completed != []
    ensures Partition(FreedCompleted(o), numFrames)
  {
    BagPush(o.stack, o.completed[0]);
    BagPop(o.completed);
    assert Total(FreedCompleted(o)) == Total(o);
  }

  lemma MovePeekRx(o: Owners, numFrames: nat, head: seq<u64>, tail: seq<u64>)
    requires Partition(o, numFrames) && o.received == [] && o.arrived == head + tail
    ensures Partition(o.(arrived := tail, received := head), numFrames)
  {
    BagAppend(head, tail);
    RealParts(head, tail);
    assert Total(o.(arrived := tail, received := head)) == Total(o);
  }

  lemma MovePeekCq(o: Owners, numFrames: nat, head: seq<u64>, tail: seq<u64>)
    requires Partition(o, numFrames) && o.completed == [] && o.sent == head + tail
    ensures Partition(o.(sent := tail, completed := head), numFrames)
  {
    BagAppend(head, tail);
    RealParts(head, tail);
    assert Total(o.(sent := tail, completed := head)) == Total(o);
  }

  /** The kernel writes packet data at some offset of the frame it takes. */
  function WithOffset(addr: u64, off: nat): (a: u64)
    requires off < FRAME_SIZE
    ensures FrameOf(a) == FrameOf(addr)
  {
    FrameOf(addr) * FRAME_SIZE + off
  }

  /** The kernel takes the oldest fill entry: a frame receives a packet `off` bytes in, the
      address of no frame is skipped. */
  function Received(o: Owners, off: nat): (o': Owners)
    requires o.fill != [] && off < FRAME_SIZE
  {
    if FrameOf(o.fill[0]) == NO_FRAME then o.(fill := o.fill[1..])
    else o.(fill := o.fill[1..], arrived := o.arrived + [WithOffset(o.fill[0], off)])
  }

  lemma SkipInvalid(o: Owners, numFrames: nat)
    requires Partition(o, numFrames) && o.fill != [] && FrameOf(o.fill[0]) == NO_FRAME
    ensures Partition(o.(fill := o.fill[1..]), numFrames)
  {
    var o' := o.(fill := o.fill[1..]);
    BagPop(o.fill);
    hide Bag;
    assert Total(o) == Total(o') + multiset{NO_FRAME};
    forall f: nat | f != NO_FRAME ensures Total(o')[f] == Total(o)[f] {
    }
  }

  lemma FillFrame(o: Owners, numFrames: nat, a: u64)
    requires Partition(o, numFrames) && o.fill != [] && FrameOf(a) == FrameOf(o.fill[0]) != NO_FRAME
    ensures Partition(o.(fill := o.fill[1..], arrived := o.arrived + [a]), numFrames)
  {
    var o' := o.(fill := o.fill[1..], arrived := o.arrived + [a]);
    BagPop(o.fill);
    BagPush(o.arrived, a);
    hide Bag;
    assert Total(o') == Total(o);
  }

  lemma MoveReceive(o: Owners, numFrames: nat, off: nat)
    requires Partition(o, numFrames) && o.fill != [] && off < FRAME_SIZE
    ensures Partition(Received(o, off), numFrames)
    ensures Real(o.fill) ==> Real(Received(o, off).fill)
  {
    hide Partition;
    if FrameOf(o.fill[0]) == NO_FRAME {
      SkipInvalid(o, numFrames);
    } else {
      FillFrame(o, numFrames, WithOffset(o.fill[0], off));
    }
  }

  /** The kernel takes the oldest TX entry. */
  function Transmitted(o: Owners): (o': Owners)
    requires o.sending != []
  {
    o.(sending := o.sending[1..], flight := o.flight + [o.sending[0]])
  }

  lemma MoveTransmit(o: Owners, numFrames: nat)
    requires Partition(o, numFrames) && o.sending != []
    ensures Partition(Transmitted(o), numFrames)
  {
    BagPop(o.sending);
    BagPush(o.flight, o.sending[0]);
    assert Total(Transmitted(o)) == Total(o);
  }

  /** The kernel reports the k-th frame in flight as sent. */
  function Reported(o: Owners, k: nat): (o': Owners)
    requires k < |o.flight|
  {
    o.(flight := o.flight[..k] + o.flight[k + 1..], sent := o.sent + [o.flight[k]])
  }

  lemma MoveComplete(o: Owners, numFrames: nat, k: nat)
    requires Partition(o, numFrames) && k < |o.flight|
    ensures Partition(Reported(o, k), numFrames)
  {
    BagRemove(o.flight, k);
    BagPush(o.sent, o.flight[k]);
    assert Total(Reported(o, k)) == Total(o);
  }
}
