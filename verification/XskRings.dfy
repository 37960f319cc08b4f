/** The shared single-producer single-consumer rings of an AF_XDP socket. Their code is not
    in the repository; its use of xsk_ring_prod__free (__XDP_measure/xdp_measure_user.c)
    fixes the representation: free-running 32-bit indices, of which the owner keeps cached
    copies, into a power-of-two array. */
module XskRings {
  import opened Common
  import opened DivMod

  /* ---- free-running indices ---- */

  predicate PowerOfTwo(n: nat)
  {
    n == 1 || (n > 1 && n % 2 == 0 && PowerOfTwo(n / 2))
  }

  /** A ring size is a power of two, so it divides 2^32 and an index keeps its slot when it wraps. */
  predicate RingSize(size: nat)
  {
    size < U32 && PowerOfTwo(size)
  }

  lemma {:induction false} SmallerPowerDivides(n: nat, size: nat)
    requires PowerOfTwo(n) && PowerOfTwo(size) && size <= n
    ensures n % size == 0
  {
    if size > 1 {
      SmallerPowerDivides(n / 2, size / 2);
      ghost var q: nat := n / 2 / (size / 2);
      ExactMultiple(n / 2, size / 2);
      assert n == q * size;
      QuotientUnique(n, size, q, 0);
    }
  }

  lemma DoublePower(n: nat)
    requires PowerOfTwo(n)
    ensures PowerOfTwo(2 * n)
  {
    assert 2 * n / 2 == n;
  }

  lemma PowerTimes256(n: nat)
    requires PowerOfTwo(n)
    ensures PowerOfTwo(0x100 * n)
  {
    hide PowerOfTwo;
    DoublePower(n);
    DoublePower(2 * n);
    DoublePower(4 * n);
    DoublePower(8 * n);
    DoublePower(16 * n);
    DoublePower(32 * n);
    DoublePower(64 * n);
    DoublePower(128 * n);
  }

  lemma SizeDividesIndices(size: nat)
    requires RingSize(size)
    ensures U32 % size == 0
  {
    assert PowerOfTwo(1);
    hide PowerOfTwo;
    PowerTimes256(1);
    PowerTimes256(0x100);
    PowerTimes256(0x1_0000);
    PowerTimes256(0x100_0000);
    SmallerPowerDivides(U32, size);
  }

  function Wrap(n: int): (i: u32)
  {
    n % U32
  }

  /** The array slot of the entry `k` places after index `from`. */
  function SlotAt(from: u32, k: nat, size: nat): (slot: nat)
    requires size > 0
    ensures slot < size
  {
    (from + k) % size
  }

  lemma WholeTurn(i: nat, size: nat)
    requires RingSize(size)
    ensures (i + U32) % size == i % size
  {
    SizeDividesIndices(size);
    ExactMultiple(U32, size);
    ghost var q: nat := U32 / size;
    ModPlusMultiple(i, q, size);
    assert i + q * size == i + U32;
  }

  /** Advancing an index past 2^32 does not move the entries behind it. */
  lemma WrapKeepsSlot(from: u32, n: nat, k: nat, size: nat)
    requires RingSize(size) && n <= size
    ensures SlotAt(Wrap(from + n), k, size) == SlotAt(from, n + k, size)
  {
    if from + n >= U32 {
      var over: nat := from + n - U32;
      assert over + k + U32 == from + (n + k);
      assert Wrap(from + n) == over;
      WholeTurn(over + k, size);
    }
  }

  /** Two entries less than `size` apart lie in different slots. */
  lemma SlotsDiffer(from: u32, j: nat, k: nat, size: nat)
    requires RingSize(size) && j < k < j + size
    ensures SlotAt(from, j, size) != SlotAt(from, k, size)
  {
    RemaindersDiffer(from + j, from + k, size);
  }

  lemma WrapAdd(a: u32, m: nat, n: nat)
    ensures Wrap(Wrap(a + m) + n) == Wrap(a + m + n)
  {
  }

  /** idx++ on a 32-bit index. */
  function Next(idx: u32): (i: u32)
  {
    Wrap(idx + 1)
  }

  lemma NextCounts(n: u32)
    requires n + 1 < U32
    ensures Next(n) == n + 1
  {
  }

  lemma NextOfWrap(from: u32, n: nat)
    ensures Next(Wrap(from + n)) == Wrap(from + (n + 1))
  {
    WrapAdd(from, n, 1);
  }

  /** 32-bit subtraction of two indices less than 2^32 apart. */
  function Distance(to: u32, from: u32): (d: u32)
  {
    Wrap(to - from)
  }

  lemma DistanceOfWrap(from: u32, n: nat)
    requires n < U32
    ensures Distance(Wrap(from + n), from) == n
  {
  }

  lemma SameIndex(from: u32, n: nat)
    requires n < U32
    ensures Wrap(from + n) == from <==> n == 0
  {
  }

  lemma FreeCount(consumer: u32, used: nat, top: nat)
    requires used <= top < U32
    ensures Distance(Wrap(consumer + top), Wrap(consumer + used)) == top - used
  {
  }

  /** `q` lies in the array from index `from` on. */
  ghost predicate Stored(entries: seq<u64>, from: u32, q: seq<u64>)
  {
    |q| <= |entries| && forall k :: 0 <= k < |q| ==> entries[SlotAt(from, k, |entries|)] == q[k]
  }

  lemma StoredPush(entries: seq<u64>, from: u32, q: seq<u64>, v: u64)
    requires RingSize(|entries|) && Stored(entries, from, q) && |q| < |entries|
    ensures Stored(entries[SlotAt(from, |q|, |entries|) := v], from, q + [v])
  {
    forall k | 0 <= k < |q| ensures SlotAt(from, k, |entries|) != SlotAt(from, |q|, |entries|) {
      SlotsDiffer(from, k, |q|, |entries|);
    }
  }

  lemma StoredPop(entries: seq<u64>, from: u32, q: seq<u64>, n: nat)
    requires RingSize(|entries|) && Stored(entries, from, q) && n <= |q|
    ensures Stored(entries, Wrap(from + n), q[n..])
  {
    forall k | 0 <= k < |q| - n
      ensures entries[SlotAt(Wrap(from + n), k, |entries|)] == q[n..][k]
    {
      WrapKeepsSlot(from, n, k, |entries|);
    }
  }

  lemma StoredAt(entries: seq<u64>, from: u32, q: seq<u64>, k: nat)
    requires Stored(entries, from, q) && k < |q|
    ensures entries[SlotAt(from, k, |entries|)] == q[k]
  {
  }

  /** The slot the owner computes from a wrapped index. */
  lemma SlotOfIndex(from: u32, n: nat, size: nat)
    requires RingSize(size) && n <= size
    ensures Wrap(from + n) % size == SlotAt(from, n, size)
  {
    WrapKeepsSlot(from, n, 0, size);
  }

  /* ---- producer side: fill and TX rings ---- */

  /** A ring the process produces into and the kernel consumes from. */
  class ProducerRing {
    const size: nat
    const entries: array<u64>
    var producer: u32
    var consumer: u32
    var cachedProd: u32
    var cachedCons: u32                  // a past consumer index, plus size
    ghost var submitted: seq<u64>        // the kernel may take these, oldest first
    ghost var filled: seq<u64>           // written by the process, not yet submitted
    ghost var reserved: nat              // entries reserved, filled or not
    ghost var lag: nat                   // entries consumed since cachedCons was read

    ghost predicate Valid()
      reads this, entries
    {
      && RingSize(size) && entries.Length == size
      && |filled| <= reserved && |submitted| + reserved + lag <= size
      && producer == Wrap(consumer + |submitted|)
      && cachedProd == Wrap(consumer + |submitted| + reserved)
      && cachedCons == Wrap(consumer + size - lag)
      && Stored(entries[..], consumer, submitted + filled)
    }

    lemma Bounds()
      requires Valid()
      ensures |filled| <= reserved && 0 < size && |submitted| + reserved + lag <= size && 0 <= Room() <= size
    {
    }

    /** Entries that are neither waiting for the kernel nor reserved. */
    ghost function Room(): (n: int)
      reads this`submitted, this`reserved
    {
      size - |submitted| - reserved
    }

    /** Of these, the ones the cached consumer index already shows. */
    ghost function CachedRoom(): (n: int)
      reads this`submitted, this`reserved, this`lag
    {
      Room() - lag
    }

    constructor (size: nat)
      requires RingSize(size)
      ensures Valid() && fresh(entries) && this.size == size
      ensures submitted == [] && filled == [] && reserved == 0 && lag == 0 && producer == 0
    {
      this.size := size;
      entries := new u64[size];
      producer, consumer, cachedProd, cachedCons := 0, 0, 0, size;
      submitted, filled, reserved, lag := [], [], 0, 0;
    }

    /** xsk_ring_prod__free: refresh the cached consumer and subtract, in 32 bits. */
    method Free() returns (n: u32)
      requires Valid()
      modifies this`cachedCons, this`lag
      ensures Valid() && n == Room() && lag == 0
    {
      hide Stored, Wrap, Distance;
      cachedCons := Wrap(consumer + size);
      lag := 0;
      FreeCount(consumer, |submitted| + reserved, size);
      n := Distance(cachedCons, cachedProd);
    }

    /** xsk_prod_nb_free: the cached count if it is enough for `nb`, else a fresh one. Either
        may exceed `nb`. */
    method NbFree(nb: nat) returns (n: u32)
      requires Valid()
      modifies this`cachedCons, this`lag
      ensures Valid() && n == CachedRoom()
      ensures if nb <= old(CachedRoom()) then lag == old(lag) else lag == 0
    {
      hide Stored, Wrap, Distance;
      FreeCount(consumer, |submitted| + reserved, size - lag);
      n := Distance(cachedCons, cachedProd);
      if n < nb {
        n := Free();
      }
    }

    /** xsk_ring_prod__reserve: all `nb` entries or none. */
    method Reserve(nb: nat) returns (got: nat, idx: u32)
      requires Valid()
      modifies this`cachedCons, this`lag, this`cachedProd, this`reserved
      ensures Valid()
      ensures got == (if nb <= old(Room()) then nb else 0)
      ensures reserved == old(reserved) + got
      ensures nb <= old(CachedRoom()) ==> CachedRoom() == old(CachedRoom()) - nb
      ensures got > 0 ==> idx == Wrap(producer + old(reserved))
    {
      hide Stored, Wrap, Distance;
      var n := NbFree(nb);
      if n < nb {
        return 0, 0;
      }
      got, idx := nb, cachedProd;
      WrapAdd(consumer, |submitted|, reserved);
      WrapAdd(consumer, |submitted| + reserved, nb);
      cachedProd := Wrap(cachedProd + nb);
      reserved := reserved + nb;
    }

    /** *xsk_ring_prod__fill_addr(ring, idx) = v, for the next reserved entry. */
    method Fill(idx: u32, v: u64)
      requires Valid() && |filled| < reserved
      requires idx == Wrap(producer + |filled|)
      modifies this`filled, entries
      ensures Valid() && filled == old(filled) + [v]
    {
      hide Stored, Wrap, SlotAt;
      ghost var q := submitted + filled;
      WrapAdd(consumer, |submitted|, |filled|);
      SlotOfIndex(consumer, |q|, size);
      StoredPush(entries[..], consumer, q, v);
      entries[idx % size] := v;
      filled := filled + [v];
      assert submitted + filled == q + [v];
    }

    /** xsk_ring_prod__submit of everything reserved. */
    method Submit(nb: nat)
      requires Valid() && nb == reserved == |filled|
      modifies this`producer, this`submitted, this`filled, this`reserved
      ensures Valid()
      ensures submitted == old(submitted + filled) && filled == [] && reserved == 0
      ensures producer == Wrap(old(producer) + nb)
    {
      hide Stored, Wrap, SlotAt;
      WrapAdd(consumer, |submitted|, nb);
      producer := Wrap(producer + nb);
      submitted, filled, reserved := submitted + filled, [], 0;
      assert submitted + filled == submitted;
    }

    /** The kernel finds the ring non-empty. */
    method KernelHasEntry() returns (b: bool)
      requires Valid()
      ensures b <==> submitted != []
    {
      hide Stored, Wrap, Distance;
      SameIndex(consumer, |submitted|);
      b := consumer != producer;
    }

    /** The kernel takes the oldest submitted entry. */
    method KernelTake() returns (v: u64)
      requires Valid() && submitted != []
      modifies this`consumer, this`submitted, this`lag
      ensures Valid()
      ensures v == old(submitted)[0] && submitted == old(submitted)[1..] && lag == old(lag) + 1
    {
      hide Stored, Wrap, SlotAt, RingSize, PowerOfTwo;
      Bounds();
      ghost var c, n, rest := consumer, |submitted|, submitted[1..];
      WithoutFirst(submitted, filled);
      StoredAt(entries[..], c, submitted + filled, 0);
      StoredPop(entries[..], c, submitted + filled, 1);
      TakeIndices(c, n, reserved, size - lag);
      v := entries[SlotAt(consumer, 0, size)];
      consumer := Wrap(consumer + 1);
      submitted, lag := rest, lag + 1;
    }
  }

  lemma WithoutFirst(a: seq<u64>, b: seq<u64>)
    requires a != []
    ensures (a + b)[0] == a[0] && (a + b)[1..] == a[1..] + b
  {
  }

  lemma TakeIndices(c: u32, n: nat, reserved: nat, top: nat)
    requires n > 0 && top > 0
    ensures Wrap(Wrap(c + 1) + (n - 1)) == Wrap(c + n)
    ensures Wrap(Wrap(c + 1) + (n - 1) + reserved) == Wrap(c + n + reserved)
    ensures Wrap(Wrap(c + 1) + (top - 1)) == Wrap(c + top)
  {
    WrapAdd(c, 1, n - 1);
    WrapAdd(c, 1, n - 1 + reserved);
    WrapAdd(c, 1, top - 1);
  }

  /* ---- consumer side: RX and completion rings ---- */

  /** A ring the kernel produces into and the process consumes from. */
  class ConsumerRing {
    const size: nat
    const entries: array<u64>
    var producer: u32
    var consumer: u32
    var cachedProd: u32                  // a past producer index
    var cachedCons: u32
    ghost var waiting: seq<u64>          // produced, not yet peeked at, oldest first
    ghost var peeked: seq<u64>           // peeked at, not yet released
    ghost var lag: nat                   // entries produced since cachedProd was read

    ghost predicate Valid()
      reads this, entries
    {
      && RingSize(size) && entries.Length == size
      && lag <= |waiting| && |peeked| + |waiting| <= size
      && cachedCons == Wrap(consumer + |peeked|)
      && producer == Wrap(consumer + |peeked| + |waiting|)
      && cachedProd == Wrap(consumer + |peeked| + |waiting| - lag)
      && Stored(entries[..], consumer, peeked + waiting)
    }

    lemma Bounds()
      requires Valid()
      ensures 0 < size && |peeked| + |waiting| <= size
    {
    }

    constructor (size: nat)
      requires RingSize(size)
      ensures Valid() && fresh(entries) && this.size == size
      ensures waiting == [] && peeked == [] && consumer == 0
    {
      this.size := size;
      entries := new u64[size];
      producer, consumer, cachedProd, cachedCons := 0, 0, 0, 0;
      waiting, peeked, lag := [], [], 0;
    }

    /** xsk_cons_nb_avail: the cached count unless that shows none. */
    method Available() returns (n: u32)
      requires Valid() && peeked == []
      modifies this`cachedProd, this`lag
      ensures Valid() && n == |waiting| - lag && (n == 0 ==> waiting == [])
    {
      hide Stored, Wrap, Distance;
      FreeCount(consumer, 0, |waiting| - lag);
      n := Distance(cachedProd, cachedCons);
      if n == 0 {
        cachedProd, lag := producer, 0;
        FreeCount(consumer, 0, |waiting|);
        n := Distance(cachedProd, cachedCons);
      }
    }

    /** xsk_ring_cons__peek: up to `nb` of the available entries. */
    method Peek(nb: nat) returns (got: nat, idx: u32)
      requires Valid() && peeked == []
      modifies this`cachedProd, this`cachedCons, this`waiting, this`peeked, this`lag
      ensures Valid()
      ensures got <= nb && got <= |old(waiting)| && (got == 0 ==> nb == 0 || old(waiting) == [])
      ensures peeked == old(waiting)[..got] && waiting == old(waiting)[got..]
      ensures idx == Wrap(consumer)
    {
      hide Stored, Wrap, Distance;
      var available := Available();
      got := if available > nb then nb else available;
      idx := cachedCons;
      WrapAdd(consumer, 0, got);
      cachedCons := Wrap(cachedCons + got);
      peeked, waiting := waiting[..got], waiting[got..];
      assert peeked + waiting == old(peeked + waiting);
    }

    /** xsk_ring_cons__rx_desc / xsk_ring_cons__comp_addr of a peeked entry. */
    method Entry(idx: u32, ghost k: nat) returns (v: u64)
      requires Valid() && k < |peeked| && idx == Wrap(consumer + k)
      ensures v == peeked[k]
    {
      SlotOfIndex(consumer, k, size);
      v := entries[idx % size];
      assert v == (peeked + waiting)[k];
    }

    /** xsk_ring_cons__release of everything peeked at. */
    method Release(nb: nat)
      requires Valid() && nb == |peeked|
      modifies this`consumer, this`peeked
      ensures Valid() && peeked == [] && consumer == Wrap(old(consumer) + nb)
    {
      hide Stored, Wrap, SlotAt;
      ghost var c, n := consumer, |waiting|;
      StoredPop(entries[..], c, peeked + waiting, nb);
      WrapAdd(c, nb, 0);
      WrapAdd(c, nb, n);
      WrapAdd(c, nb, n - lag);
      assert (peeked + waiting)[nb..] == [] + waiting;
      consumer := Wrap(consumer + nb);
      peeked := [];
    }

    method KernelHasRoom() returns (b: bool)
      requires Valid()
      ensures b <==> |peeked| + |waiting| < size
    {
      hide Stored, Wrap, Distance;
      ghost var n := |peeked| + |waiting|;
      assert producer == Wrap(consumer + n);
      DistanceOfWrap(consumer, n);
      b := Distance(producer, consumer) < size;
    }

    /** The kernel appends an entry, if there is room. */
    method KernelPut(v: u64)
      requires Valid() && |peeked| + |waiting| < size
      modifies this`producer, this`waiting, this`lag, entries
      ensures Valid() && waiting == old(waiting) + [v]
    {
      hide Stored, Wrap, SlotAt;
      ghost var q := peeked + waiting;
      SlotOfIndex(consumer, |q|, size);
      StoredPush(entries[..], consumer, q, v);
      entries[producer % size] := v;
      WrapAdd(consumer, |q|, 1);
      producer := Wrap(producer + 1);
      waiting, lag := waiting + [v], lag + 1;
      assert peeked + waiting == q + [v];
    }
  }
}
