/** The Internet checksum of RFC 1071 and its incremental update by equation 3 of
    section 3 of RFC 1624, as __XDP_measure/xdp_measure_user.c computes it. */
module InternetChecksum {
  import opened Common

  /* ---- the code ---- */

  /** C's `~` on a 16-bit value. */
  function Complement(w: u16): (c: u16)
  {
    0xFFFF - w
  }

  function Csum16Add(csum: u16, addend: u16): (r: u16)
  {
    var res := (csum + addend) % U16;
    (res + (if res < addend then 1 else 0)) % U16
  }

  function Csum16Sub(csum: u16, addend: u16): (r: u16)
  {
    Csum16Add(csum, Complement(addend))
  }

  /** The value csum_replace2 stores through its pointer. */
  function CsumReplace2(sum: u16, old_: u16, new_: u16): (r: u16)
  {
    Complement(Csum16Add(Csum16Sub(Complement(sum), old_), new_))
  }

  /* ---- the definition it must agree with ---- */

  /** The plain sum of a sequence of 16-bit words. */
  function Sum(words: seq<u16>): (n: nat)
  {
    if words == [] then 0 else words[0] + Sum(words[1..])
  }

  /** Adds the carries out of the top back in until the sum fits 16 bits. */
  function Fold(n: nat): (r: u16)
    decreases n
  {
    if n < U16 then n else Fold(n / U16 + n % U16)
  }

  function Checksum(words: seq<u16>): (c: u16)
  {
    Complement(Fold(Sum(words)))
  }

  predicate AllZero(words: seq<u16>)
  {
    forall i :: 0 <= i < |words| ==> words[i] == 0
  }

  /* ---- one's complement arithmetic ---- */

  /** A representative modulo 65535 in 1..65535, except that 0 stays 0. */
  function Canonical(n: nat): (r: u16)
  {
    if n == 0 then 0 else (n - 1) % 0xFFFF + 1
  }

  lemma MultipleHasNoRemainder(x: int, q: int)
    requires x == 0xFFFF * q
    ensures x % 0xFFFF == 0
  {
  }

  lemma CanonicalShift(n: nat, k: nat)
    requires n > 0
    ensures Canonical(n + 0xFFFF * k) == Canonical(n)
  {
    assert (n - 1 + 0xFFFF * k) % 0xFFFF == (n - 1) % 0xFFFF;
  }

  lemma {:induction false} FoldIsCanonical(n: nat)
    ensures Fold(n) == Canonical(n)
    decreases n
  {
    if n >= U16 {
      var m := n / U16 + n % U16;
      FoldIsCanonical(m);
      assert n == m + 0xFFFF * (n / U16);
      CanonicalShift(m, n / U16);
    }
  }

  lemma AddIsCanonical(a: u16, b: u16)
    ensures Csum16Add(a, b) == Canonical(a + b)
  {
    if a + b < U16 {
      assert (a + b) % U16 == a + b;
    } else {
      assert (a + b) % U16 == a + b - U16;
      assert (a + b - 1) % 0xFFFF == a + b - 1 - 0xFFFF;
    }
  }

  lemma CanonicalAbsorbs(a: nat, b: nat)
    ensures Canonical(Canonical(a) + b) == Canonical(a + b)
  {
    if a > 0 {
      var q := (a - 1) / 0xFFFF;
      assert a == Canonical(a) + 0xFFFF * q;
      CanonicalShift(Canonical(a) + b, q);
    }
  }

  lemma {:induction false} SumUpdate(words: seq<u16>, i: nat, w: u16)
    requires i < |words|
    ensures Sum(words[i := w]) + words[i] == Sum(words) + w
    decreases |words|
  {
    var updated := words[i := w];
    if i == 0 {
      assert updated[1..] == words[1..];
    } else {
      SumUpdate(words[1..], i - 1, w);
      assert updated[1..] == words[1..][i - 1 := w];
    }
  }

  lemma {:induction false} SumAppend(a: seq<u16>, b: seq<u16>)
    ensures Sum(a + b) == Sum(a) + Sum(b)
    decreases |a|
  {
    if a == [] {
      assert a + b == b;
    } else {
      SumAppend(a[1..], b);
      assert (a + b)[1..] == a[1..] + b;
    }
  }

  lemma {:induction false} SumZero(words: seq<u16>)
    ensures Sum(words) == 0 <==> AllZero(words)
    decreases |words|
  {
    if words != [] {
      SumZero(words[1..]);
      assert AllZero(words) <==> words[0] == 0 && AllZero(words[1..]) by {
        if words[0] == 0 && AllZero(words[1..]) {
          forall i | 0 <= i < |words| ensures words[i] == 0 {
            assert i > 0 ==> words[i] == words[1..][i - 1];
          }
        }
      }
    }
  }

  /** What the three-term expression computes, over plain integers. */
  lemma ReplaceIsCanonical(sum: u16, old_: u16, new_: u16)
    ensures CsumReplace2(sum, old_, new_) ==
            Complement(Canonical(Complement(sum) + Complement(old_) + new_))
  {
    AddIsCanonical(Complement(sum), Complement(old_));
    AddIsCanonical(Csum16Sub(Complement(sum), old_), new_);
    CanonicalAbsorbs(Complement(sum) + Complement(old_), new_);
  }

  /* ---- main results ---- */

  /** For every word sequence, position and new word, the incremental update gives the
      checksum recomputed from scratch if and only if the updated sequence has a non-zero
      word; otherwise it leaves 0 where the full computation gives 0xFFFF. */
  lemma ReplaceMeetsRecomputation(words: seq<u16>, i: nat, w: u16)
    requires i < |words|
    ensures CsumReplace2(Checksum(words), words[i], w) == Checksum(words[i := w])
            <==> !AllZero(words[i := w])
    ensures AllZero(words[i := w]) ==>
              CsumReplace2(Checksum(words), words[i], w) == 0 && Checksum(words[i := w]) == 0xFFFF
  {
    var before, after := Sum(words), Sum(words[i := w]);
    SumUpdate(words, i, w);
    SumZero(words);
    SumZero(words[i := w]);
    FoldIsCanonical(before);
    FoldIsCanonical(after);
    ReplaceIsCanonical(Checksum(words), words[i], w);
    CanonicalAbsorbs(before, Complement(words[i]) + w);
    var total := before + Complement(words[i]) + w;
    assert total == after + 0xFFFF;
    if after > 0 {
      CanonicalShift(after, 1);
    }
  }

  /** Undoing an update restores the checksum exactly if the words were not all zero before it. */
  lemma ReplaceUndoes(words: seq<u16>, i: nat, w: u16)
    requires i < |words|
    ensures CsumReplace2(CsumReplace2(Checksum(words), words[i], w), w, words[i]) == Checksum(words)
            <==> !AllZero(words)
  {
    var after := words[i := w];
    assert after[i := words[i]] == words;
    ReplaceMeetsRecomputation(words, i, w);
    if AllZero(after) {
      UndoFromZero(words, i, w);
    } else {
      ReplaceMeetsRecomputation(after, i, words[i]);
    }
  }

  /** All updated words are zero, and the update has left 0 for their checksum. */
  lemma UndoFromZero(words: seq<u16>, i: nat, w: u16)
    requires i < |words| && AllZero(words[i := w])
    ensures w == 0 && (CsumReplace2(0, 0, words[i]) == Checksum(words) <==> !AllZero(words))
  {
    assert words[i := w][i] == 0;
    SumUpdate(words, i, w);
    SumZero(words);
    SumZero(words[i := w]);
    FoldIsCanonical(Sum(words));
    ReplaceIsCanonical(0, 0, words[i]);
    if words[i] > 0 { CanonicalShift(words[i], 2); }
  }

  /** csum_replace2 through its pointer: whatever words the cell was the checksum of, it is
      afterwards the checksum of the same words with one `old_` replaced by `new_`. */
  method CsumReplace2InPlace(cells: array<u16>, at: nat, old_: u16, new_: u16)
    requires at < cells.Length
    modifies cells
    ensures forall k :: 0 <= k < cells.Length && k != at ==> cells[k] == old(cells[k])
    ensures forall words: seq<u16>, i: nat ::
              i < |words| && words[i] == old_ && Checksum(words) == old(cells[at]) && !AllZero(words[i := new_])
              ==> cells[at] == Checksum(words[i := new_])
  {
    var sum := cells[at];
    cells[at] := Complement(Csum16Add(Csum16Sub(Complement(sum), old_), new_));
    forall words: seq<u16>, i: nat |
      i < |words| && words[i] == old_ && Checksum(words) == sum && !AllZero(words[i := new_])
      ensures cells[at] == Checksum(words[i := new_])
    {
      ReplaceMeetsRecomputation(words, i, new_);
    }
  }

  /* ---- verification by the receiver, and byte order ---- */

  /** What a receiver checks: all words, checksum included, add up to all ones. */
  predicate Verifies(words: seq<u16>)
  {
    Fold(Sum(words)) == 0xFFFF
  }

  lemma VerifiesByRemainder(words: seq<u16>)
    ensures Verifies(words) <==> Sum(words) > 0 && Sum(words) % 0xFFFF == 0
  {
    var n := Sum(words);
    FoldIsCanonical(n);
    if n > 0 {
      assert (n - 1) % 0xFFFF == 0xFFFE <==> n % 0xFFFF == 0;
    }
  }

  lemma CanonicalRemainder(n: nat)
    ensures n + Complement(Canonical(n)) > 0
    ensures (n + Complement(Canonical(n))) % 0xFFFF == 0
  {
    if n > 0 {
      var q := (n - 1) / 0xFFFF;
      assert n == Canonical(n) + 0xFFFF * q;
      MultipleHasNoRemainder(n + Complement(Canonical(n)), q + 1);
    }
  }

  /** A checksum filled in from the definition is accepted. */
  lemma ChecksumVerifies(words: seq<u16>)
    ensures Verifies(words + [Checksum(words)])
  {
    var n := Sum(words);
    SumAppend(words, [Checksum(words)]);
    FoldIsCanonical(n);
    VerifiesByRemainder(words + [Checksum(words)]);
    CanonicalRemainder(n);
  }

  function Swapped(w: u16): (s: u16)
  {
    (w % 0x100) * 0x100 + w / 0x100
  }

  function SwapAll(words: seq<u16>): (s: seq<u16>)
    ensures |s| == |words|
  {
    seq(|words|, i requires 0 <= i < |words| => Swapped(words[i]))
  }

  lemma {:induction false} SwapScalesSum(words: seq<u16>)
    ensures exists k: int :: Sum(SwapAll(words)) == 0x100 * Sum(words) - 0xFFFF * k
    ensures Sum(words) == 0 <==> Sum(SwapAll(words)) == 0
    decreases |words|
  {
    if words == [] {
      assert Sum(SwapAll(words)) == 0x100 * Sum(words) - 0xFFFF * 0;
    } else {
      SwapScalesSum(words[1..]);
      var k: int :| Sum(SwapAll(words[1..])) == 0x100 * Sum(words[1..]) - 0xFFFF * k;
      assert SwapAll(words)[1..] == SwapAll(words[1..]);
      var w: int := words[0];
      assert Swapped(w) == 0x100 * w - 0xFFFF * (w / 0x100);
      assert Sum(SwapAll(words)) == 0x100 * Sum(words) - 0xFFFF * (k + w / 0x100);
    }
  }

  /** 0x100 * 0x100 is 1 modulo 0xFFFF, so scaling by 0x100 keeps the multiples of 0xFFFF. */
  lemma ScalingKeepsMultiples(n: nat, m: nat, k: int)
    requires m == 0x100 * n - 0xFFFF * k
    ensures n % 0xFFFF == 0 <==> m % 0xFFFF == 0
  {
    if n % 0xFFFF == 0 {
      MultipleHasNoRemainder(m, 0x100 * (n / 0xFFFF) - k);
    }
    if m % 0xFFFF == 0 {
      MultipleHasNoRemainder(n, 0x100 * (m / 0xFFFF) + 0x100 * k - n);
    }
  }

  /** Host arithmetic on words loaded in the other byte order accepts the same packets
      (section 2(B) of RFC 1071). */
  lemma ByteOrderIndependent(words: seq<u16>)
    ensures Verifies(SwapAll(words)) <==> Verifies(words)
  {
    SwapScalesSum(words);
    VerifiesByRemainder(words);
    VerifiesByRemainder(SwapAll(words));
    var k: int :| Sum(SwapAll(words)) == 0x100 * Sum(words) - 0xFFFF * k;
    ScalingKeepsMultiples(Sum(words), Sum(SwapAll(words)), k);
  }
}
