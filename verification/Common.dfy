/** Sizes, constants and the wire form of a measurement record (common.h). */
module Common {

  /* ---- machine integers ---- */

  type byte = b: int | 0 <= b < 0x100

  const U16 := 0x1_0000
  const U32 := 0x1_0000_0000
  const U64 := 0x1_0000_0000_0000_0000

  type u16 = n: int | 0 <= n < 0x1_0000
  type u32 = n: int | 0 <= n < 0x1_0000_0000
  type u64 = n: int | 0 <= n < 0x1_0000_0000_0000_0000

  /* ---- sizes ---- */

  const BUFFER_SIZE := 512
  const PKT_BUFFER_SIZE := 128
  const PKTS_PER_BUFFER := 4
  const MAX_PKT := 200
  const KM_FIND_BUFF_SLOT_MAX_TRY := 200
  const SIZE_OF_PAGE_HC := 4096
  const MAX_LOG_ENTRY := 32768

  const PL_DATA := 2

  /* ---- little-endian words ---- */

  const WORD := 8            // sizeof(unsigned long)

  function LittleEndian(v: nat, n: nat): (bs: seq<byte>)
    ensures |bs| == n
    decreases n
  {
    if n == 0 then [] else [v % 0x100] + LittleEndian(v / 0x100, n - 1)
  }

  function FromLittleEndian(bs: seq<byte>): (v: nat)
    decreases |bs|
  {
    if bs == [] then 0 else bs[0] + 0x100 * FromLittleEndian(bs[1..])
  }

  function Pow256(n: nat): (p: nat)
    ensures p > 0
  {
    if n == 0 then 1 else 0x100 * Pow256(n - 1)
  }

  lemma {:induction false} LittleEndianRoundTrip(v: nat, n: nat)
    requires v < Pow256(n)
    ensures FromLittleEndian(LittleEndian(v, n)) == v
    decreases n
  {
    if n != 0 {
      assert v / 0x100 < Pow256(n - 1);
      LittleEndianRoundTrip(v / 0x100, n - 1);
      assert LittleEndian(v, n)[1..] == LittleEndian(v / 0x100, n - 1);
    }
  }

  lemma {:induction false} FromLittleEndianBound(bs: seq<byte>)
    ensures FromLittleEndian(bs) < Pow256(|bs|)
    decreases |bs|
  {
    if bs != [] {
      FromLittleEndianBound(bs[1..]);
    }
  }

  lemma Pow256Eight()
    ensures Pow256(8) == U64
  {
    assert Pow256(4) == U32;
    assert Pow256(5) == 0x100 * U32;
    assert Pow256(6) == 0x1_0000 * U32;
    assert Pow256(7) == 0x100_0000 * U32;
  }

  /** An unsigned long read from eight bytes of memory. */
  function ReadU64(bs: seq<byte>): (v: u64)
    requires |bs| == 8
  {
    FromLittleEndianBound(bs);
    Pow256Eight();
    FromLittleEndian(bs)
  }

  function ByteAt(bs: seq<byte>, i: nat): (v: int)
    requires i < |bs|
  {
    bs[i]
  }

  /** Byte i has the weight 256^i. */
  lemma ReadU64Bytes(bs: seq<byte>)
    requires |bs| == 8
    ensures ReadU64(bs) ==
            ByteAt(bs, 0) + 0x100 * ByteAt(bs, 1) + 0x1_0000 * ByteAt(bs, 2) + 0x100_0000 * ByteAt(bs, 3) +
            0x1_0000_0000 * ByteAt(bs, 4) + 0x100_0000_0000 * ByteAt(bs, 5) +
            0x1_0000_0000_0000 * ByteAt(bs, 6) + 0x100_0000_0000_0000 * ByteAt(bs, 7)
  {
    FourBytes(bs[4..]);
    NextByte(bs[3..]);
    NextByte(bs[2..]);
    NextByte(bs[1..]);
    NextByte(bs);
    assert forall i: nat :: i < 4 ==> bs[4..][i] == bs[4 + i];
  }

  lemma NextByte(bs: seq<byte>)
    requires bs != []
    ensures FromLittleEndian(bs) == ByteAt(bs, 0) + 0x100 * FromLittleEndian(bs[1..])
  {
  }

  lemma FourBytes(bs: seq<byte>)
    requires |bs| == 4
    ensures FromLittleEndian(bs) ==
            ByteAt(bs, 0) + 0x100 * ByteAt(bs, 1) + 0x1_0000 * ByteAt(bs, 2) + 0x100_0000 * ByteAt(bs, 3)
  {
    NextByte(bs);
    NextByte(bs[1..]);
    NextByte(bs[2..]);
    NextByte(bs[3..]);
  }

  lemma ReadU64RoundTrip(v: u64)
    ensures ReadU64(LittleEndian(v, WORD)) == v
  {
    Pow256Eight();
    LittleEndianRoundTrip(v, WORD);
  }

  /* ---- struct Payload ---- */

  datatype Payload = Payload(
    clientUid: u64,
    uid: u64,
    kind: u64,
    createdTime: u64,
    ksArrival1: u64,
    ksArrival2: u64,
    usArrival1: u64,
    usArrival2: u64)

  const PAYLOAD_SIZE := 64

  function EncodeWords(words: seq<u64>): (bs: seq<byte>)
    ensures |bs| == 8 * |words|
  {
    if words == [] then [] else LittleEndian(words[0], WORD) + EncodeWords(words[1..])
  }

  function Fields(p: Payload): (words: seq<u64>)
  {
    [p.clientUid, p.uid, p.kind, p.createdTime, p.ksArrival1, p.ksArrival2, p.usArrival1, p.usArrival2]
  }

  function Encode(p: Payload): (bs: seq<byte>)
    ensures |bs| == PAYLOAD_SIZE
  {
    EncodeWords(Fields(p))
  }

  /** Word `i` of a record in memory. */
  function WordAt(bs: seq<byte>, i: nat): (v: u64)
    requires 8 * i + 8 <= |bs|
  {
    ReadU64(bs[8 * i..8 * i + 8])
  }

  function Decode(bs: seq<byte>): (p: Payload)
    requires |bs| >= PAYLOAD_SIZE
  {
    Payload(WordAt(bs, 0), WordAt(bs, 1), WordAt(bs, 2), WordAt(bs, 3),
            WordAt(bs, 4), WordAt(bs, 5), WordAt(bs, 6), WordAt(bs, 7))
  }

  /** Where each field lies. */
  lemma FieldOffsets(bs: seq<byte>)
    requires |bs| >= PAYLOAD_SIZE
    ensures var p := Decode(bs);
            && p.clientUid == ReadU64(bs[0..8]) && p.uid == ReadU64(bs[8..16])
            && p.kind == ReadU64(bs[16..24]) && p.createdTime == ReadU64(bs[24..32])
            && p.ksArrival1 == ReadU64(bs[32..40]) && p.ksArrival2 == ReadU64(bs[40..48])
            && p.usArrival1 == ReadU64(bs[48..56]) && p.usArrival2 == ReadU64(bs[56..64])
  {
  }

  lemma SkipWord(head: seq<byte>, tail: seq<byte>, i: nat)
    requires |head| == 8 && 8 * i + 8 <= |tail|
    ensures (head + tail)[8 * (i + 1)..8 * (i + 1) + 8] == tail[8 * i..8 * i + 8]
  {
  }

  lemma {:induction false} WordSlice(words: seq<u64>, i: nat)
    requires i < |words|
    ensures EncodeWords(words)[8 * i..8 * i + 8] == LittleEndian(words[i], WORD)
    decreases i
  {
    hide LittleEndian;
    if i > 0 {
      SkipWord(LittleEndian(words[0], WORD), EncodeWords(words[1..]), i - 1);
      WordSlice(words[1..], i - 1);
    }
  }

  lemma PrefixSlice(a: seq<byte>, b: seq<byte>, i: nat, j: nat)
    requires i <= j <= |a|
    ensures (a + b)[i..j] == a[i..j]
  {
  }

  lemma WordRoundTrip(words: seq<u64>, rest: seq<byte>, i: nat)
    requires i < |words|
    ensures WordAt(EncodeWords(words) + rest, i) == words[i]
  {
    PrefixSlice(EncodeWords(words), rest, 8 * i, 8 * i + 8);
    WordSlice(words, i);
    ReadU64RoundTrip(words[i]);
  }

  /** What follows the record (slot padding) does not disturb it. */
  lemma PayloadRoundTrip(p: Payload, rest: seq<byte>)
    ensures Decode(Encode(p) + rest) == p
  {
    forall i | 0 <= i < 8 ensures WordAt(Encode(p) + rest, i) == Fields(p)[i] {
      WordRoundTrip(Fields(p), rest, i);
    }
  }

  /* ---- slots ---- */

  function Zeros(n: nat): (z: seq<byte>)
    ensures |z| == n
    ensures forall i :: 0 <= i < n ==> z[i] == 0
  {
    seq(n, i => 0)
  }

  /** The contents of a slot that holds `data`. */
  function Padded(data: seq<byte>): (slot: seq<byte>)
    requires |data| <= PKT_BUFFER_SIZE
    ensures |slot| == PKT_BUFFER_SIZE
  {
    data + Zeros(PKT_BUFFER_SIZE - |data|)
  }
}
