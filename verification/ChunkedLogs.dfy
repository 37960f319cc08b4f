/** The chunked timestamp log: its sizes (common.h) and its reads and writes
    (kernel_module/intercept-module.c, kernel_module/user-processing.c). */
module ChunkedLogs {
  import opened Common
  import opened DivMod

  /* ---- sizes ---- */

  function Pow2(n: nat): (p: nat)
    ensures p > 0
  {
    if n == 0 then 1 else 2 * Pow2(n - 1)
  }

  lemma DoubledProduct(a: nat, b: nat)
    ensures 2 * a * b == 2 * (a * b)
  {
  }

  lemma {:induction false} Pow2Add(m: nat, n: nat)
    ensures Pow2(m + n) == Pow2(m) * Pow2(n)
    decreases m
  {
    if m != 0 {
      Pow2Add(m - 1, n);
      DoubledProduct(Pow2(m - 1), Pow2(n));
    }
  }

  /** 2 << shift */
  function MaxLogEntry(shift: nat): (n: nat)
  {
    2 * Pow2(shift)
  }

  /** (2 << (order - 1)) * SIZE_OF_PAGE_HC / 8 */
  function EntriesPerChunk(order: nat): (n: nat)
    requires order >= 1
    ensures n > 0
  {
    2 * Pow2(order - 1) * SIZE_OF_PAGE_HC / 8
  }

  function Quotient(n: nat, d: nat): (q: nat)
    requires d > 0
  {
    n / d
  }

  function NumChunks(shift: nat, order: nat): (n: nat)
    requires order >= 1
  {
    Quotient(MaxLogEntry(shift), EntriesPerChunk(order))
  }

  lemma SizesArePowers(shift: nat, order: nat)
    requires order >= 1
    ensures MaxLogEntry(shift) == Pow2(shift + 1)
    ensures EntriesPerChunk(order) == Pow2(order + 9)
  {
    assert Pow2(9) == 512;
    Pow2Add(order, 9);
  }

  lemma {:induction false} Pow2Monotone(m: nat, n: nat)
    requires m < n
    ensures Pow2(m) < Pow2(n)
    decreases n
  {
    if m < n - 1 { Pow2Monotone(m, n - 1); }
  }

  lemma QuotientOfPowers(m: nat, n: nat)
    ensures Pow2(m) / Pow2(n) == if m >= n then Pow2(m - n) else 0
  {
    if m >= n {
      Pow2Add(m - n, n);
      QuotientUnique(Pow2(m), Pow2(n), Pow2(m - n), 0);
    } else {
      Pow2Monotone(m, n);
      QuotientUnique(Pow2(m), Pow2(n), 0, Pow2(m));
    }
  }

  /** The chunks hold exactly MAX_LOG_ENTRY entries if and only if a chunk is no larger
      than the log. */
  lemma ChunksTileTheLog(shift: nat, order: nat)
    requires order >= 1
    ensures NumChunks(shift, order) * EntriesPerChunk(order) == MaxLogEntry(shift)
            <==> shift + 1 >= order + 9
  {
    var m, n := shift + 1, order + 9;
    SizesArePowers(shift, order);
    QuotientOfPowers(m, n);
    if m >= n {
      Pow2Add(m - n, n);
    }
  }

  /** The values the source compiles with: one chunk of 32768 entries. */
  lemma CompiledSizes()
    ensures MaxLogEntry(14) == MAX_LOG_ENTRY
    ensures EntriesPerChunk(6) == 32768 && NumChunks(14, 6) == 1
  {
    assert Pow2(10) == 1024;
    assert Pow2(5) == 32;
  }

  /* ---- addressing ---- */

  lemma ChunkIndexInRange(uid: nat, per: nat, chunks: nat)
    requires per > 0 && uid < chunks * per
    ensures uid / per < chunks
  {
    assert uid == uid / per * per + uid % per;
    if chunks < uid / per { MultiplesAreApart(chunks, uid / per, per); }
  }

  /** A chunk and a cell in it. */
  datatype Address = Address(chunk: nat, cell: nat)

  function AddressOf(uid: nat, per: nat): (a: Address)
    requires per > 0
  {
    Address(uid / per, uid % per)
  }

  /** Chunked addressing never maps two uids to one cell. */
  lemma DistinctCells(a: nat, b: nat, per: nat)
    requires per > 0 && a != b
    ensures AddressOf(a, per) != AddressOf(b, per)
  {
    assert a == a / per * per + a % per;
    assert b == b / per * per + b % per;
  }

  predicate Holds(view: seq<seq<u64>>, a: Address, v: u64)
  {
    a.chunk < |view| && a.cell < |view[a.chunk]| && view[a.chunk][a.cell] == v
  }

  function Put(view: seq<seq<u64>>, a: Address, v: u64): (view': seq<seq<u64>>)
    requires a.chunk < |view| && a.cell < |view[a.chunk]|
  {
    var row: seq<u64> := view[a.chunk][a.cell := v];
    view[a.chunk := row]
  }

  /** The entries written so far are at their addresses. */
  ghost predicate Agrees(flat: map<nat, u64>, view: seq<seq<u64>>, at: nat -> Address)
  {
    forall uid :: uid in flat ==> Holds(view, at(uid), flat[uid])
  }

  /** With distinct addresses, a chunked store acts as a store to the flat array. */
  lemma AgreesAfterPut(flat: map<nat, u64>, view: seq<seq<u64>>, at: nat -> Address, uid: nat, now: u64)
    requires Agrees(flat, view, at)
    requires at(uid).chunk < |view| && at(uid).cell < |view[at(uid).chunk]|
    requires forall u: nat :: u != uid ==> at(u) != at(uid)
    ensures Agrees(flat[uid := now], Put(view, at(uid), now), at)
  {
  }

  ghost function Chunked(per: nat): (at: nat -> Address)
    requires per > 0
  {
    (uid: nat) => AddressOf(uid, per)
  }

  /** log_buffs: separately allocated chunks. `flat` is the flat array it stands for,
      restricted to the entries written so far (fresh chunks are not zeroed). */
  class ChunkedLog {
    const per: nat
    const chunks: seq<array<u64>>
    ghost var flat: map<nat, u64>
    ghost var view: seq<seq<u64>>       // the chunks' contents
    ghost const Repr: set<object>

    ghost predicate Valid()
      reads this, chunks
    {
      && this in Repr && (forall c :: c in chunks ==> c in Repr)
      && per > 0
      && |chunks| == |view| && |view| * per == MAX_LOG_ENTRY
      && (forall i :: 0 <= i < |view| ==> chunks[i].Length == per && view[i] == chunks[i][..])
      && (forall i, j :: 0 <= i < j < |chunks| ==> chunks[i] != chunks[j])
      && Agrees(flat, view, Chunked(per))
    }

    constructor (order: nat)
      requires order >= 1 && NumChunks(14, order) * EntriesPerChunk(order) == MaxLogEntry(14)
      ensures Valid() && flat == map[]
      ensures per == EntriesPerChunk(order)
      ensures fresh(Repr)
    {
      var n, size := NumChunks(14, order), EntriesPerChunk(order);
      var buffs: seq<array<u64>> := [];
      ghost var contents: seq<seq<u64>> := [];
      for i := 0 to n
        invariant |buffs| == |contents| == i
        invariant forall c :: c in buffs ==> fresh(c)
        invariant forall k :: 0 <= k < i ==> buffs[k].Length == size && contents[k] == buffs[k][..]
        invariant forall j, k :: 0 <= j < k < i ==> buffs[j] != buffs[k]
      {
        var r := new u64[size];
        buffs := buffs + [r];
        contents := contents + [r[..]];
      }
      per, chunks, flat, view := size, buffs, map[], contents;
      ghost var all: set<object> := set c: array<u64> | c in buffs :: c as object;
      Repr := {this} + all;
      new;
      CompiledSizes();
    }

    /** log_buffs[uid / MAX_ENTRIES_PER_LOG_BUFF][uid % MAX_ENTRIES_PER_LOG_BUFF] = now */
    method Write(uid: nat, now: u64)
      requires Valid() && uid < MAX_LOG_ENTRY
      modifies Repr
      ensures Valid() && flat == old(flat)[uid := now]
    {
      ChunkIndexInRange(uid, per, |view|);
      forall u: nat | u != uid ensures Chunked(per)(u) != Chunked(per)(uid) {
        DistinctCells(u, uid, per);
      }
      AgreesAfterPut(flat, view, Chunked(per), uid, now);
      var buffIndex, cell := uid / per, uid % per;
      flat := flat[uid := now];
      view := Put(view, Address(buffIndex, cell), now);
      chunks[buffIndex][cell] := now;
    }

    /** The exported line for `uid`. */
    method Read(uid: nat) returns (v: u64)
      requires Valid() && uid < MAX_LOG_ENTRY
      ensures uid in flat ==> v == flat[uid]
    {
      ChunkIndexInRange(uid, per, |view|);
      v := chunks[uid / per][uid % per];
      assert uid in flat ==> Holds(view, Chunked(per)(uid), flat[uid]);
    }
  }
}
