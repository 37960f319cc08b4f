/** How the evaluation scripts turn timestamp logs into latency histograms and loss counts
    (scripts/check_improved_plot.py, scripts/ps_combi_2_stress_non.py). */
module LatencyHistogram {

  /* ---- histograms ---- */

  type Histogram = map<int, nat>

  /** `h` holds how often each value occurs in `samples`. */
  ghost predicate Represents(h: Histogram, samples: seq<int>)
  {
    && (forall d :: d in h <==> d in samples)
    && (forall d :: d in h ==> h[d] == multiset(samples)[d])
  }

  /** g = h.get(d); h[d] = g + 1 if g else 1 */
  function Bump(h: Histogram, d: int): (h': Histogram)
  {
    if d in h && h[d] != 0 then h[d := h[d] + 1] else h[d := 1]
  }

  lemma BumpAddsSample(h: Histogram, samples: seq<int>, d: int)
    requires Represents(h, samples)
    ensures Represents(Bump(h, d), samples + [d])
  {
    assert multiset(samples + [d]) == multiset(samples) + multiset{d};
    assert d in h ==> d in multiset(samples);
    forall e ensures e in Bump(h, d) <==> e in samples + [d] {
      assert e in samples + [d] <==> e in multiset(samples + [d]);
      assert e in samples <==> e in multiset(samples);
    }
  }

  /* ---- samples ---- */

  /** One position of two logs: no sample if either stamp is missing. */
  function SampleOf(a: int, b: int): (s: seq<int>)
    ensures |s| <= 1
  {
    if a == 0 || b == 0 then [] else [a - b]
  }

  function Diffs(a: seq<int>, b: seq<int>, n: nat): (s: seq<int>)
    requires n <= |a| && n <= |b|
  {
    if n == 0 then [] else Diffs(a, b, n - 1) + SampleOf(a[n - 1], b[n - 1])
  }

  /** Positions where both logs have a stamp. */
  function BothStamped(a: seq<int>, b: seq<int>, n: nat): (c: nat)
    requires n <= |a| && n <= |b|
  {
    |set i | 0 <= i < n && a[i] != 0 && b[i] != 0|
  }

  lemma {:induction false} OneSamplePerStampedPair(a: seq<int>, b: seq<int>, n: nat)
    requires n <= |a| && n <= |b|
    ensures |Diffs(a, b, n)| == BothStamped(a, b, n)
  {
    if n != 0 {
      OneSamplePerStampedPair(a, b, n - 1);
      var before := set i | 0 <= i < n - 1 && a[i] != 0 && b[i] != 0;
      var after := set i | 0 <= i < n && a[i] != 0 && b[i] != 0;
      assert after == if a[n - 1] != 0 && b[n - 1] != 0 then before + {n - 1} else before;
    }
  }

  /** Where the logs have both stamps and differ by `d`. */
  function Differing(a: seq<int>, b: seq<int>, n: nat, d: int): (s: set<int>)
    requires n <= |a| && n <= |b|
  {
    set i | 0 <= i < n && a[i] != 0 && b[i] != 0 && a[i] - b[i] == d
  }

  /** Where the second stamp is the later one. */
  function Backward(a: seq<int>, b: seq<int>, n: nat): (s: set<int>)
    requires n <= |a| && n <= |b|
  {
    set i | 0 <= i < n && a[i] != 0 && b[i] != 0 && a[i] < b[i]
  }

  lemma NothingYet(a: seq<int>, b: seq<int>, d: int)
    ensures Differing(a, b, 0, d) == {} && Backward(a, b, 0) == {}
  {
  }

  lemma NextDiffering(a: seq<int>, b: seq<int>, n: nat, d: int)
    requires 0 < n <= |a| && n <= |b|
    ensures |Differing(a, b, n, d)| ==
            |Differing(a, b, n - 1, d)| + if SampleOf(a[n - 1], b[n - 1]) == [d] then 1 else 0
  {
    assert Differing(a, b, n, d) ==
      if SampleOf(a[n - 1], b[n - 1]) == [d] then Differing(a, b, n - 1, d) + {n - 1} else Differing(a, b, n - 1, d);
  }

  lemma NextBackward(a: seq<int>, b: seq<int>, n: nat)
    requires 0 < n <= |a| && n <= |b|
    ensures |Backward(a, b, n)| == |Backward(a, b, n - 1)| + Negatives(SampleOf(a[n - 1], b[n - 1]))
  {
    var s := SampleOf(a[n - 1], b[n - 1]);
    assert Backward(a, b, n) == if s != [] && s[0] < 0 then Backward(a, b, n - 1) + {n - 1} else Backward(a, b, n - 1);
    if s != [] { assert s == [] + [s[0]]; NegativesAppend([], s[0]); }
  }

  lemma CountOfOne(s: seq<int>, one: seq<int>, d: int)
    requires |one| <= 1
    ensures multiset(s + one)[d] == multiset(s)[d] + if one == [d] then 1 else 0
  {
    assert multiset(s + one) == multiset(s) + multiset(one);
    if one != [] { assert one == [one[0]]; }
  }

  lemma {:induction false} DiffsCountPositions(a: seq<int>, b: seq<int>, n: nat, d: int)
    requires n <= |a| && n <= |b|
    ensures multiset(Diffs(a, b, n))[d] == |Differing(a, b, n, d)|
  {
    hide Differing, SampleOf;
    if n == 0 {
      NothingYet(a, b, d);
    } else {
      DiffsCountPositions(a, b, n - 1, d);
      NextDiffering(a, b, n, d);
      CountOfOne(Diffs(a, b, n - 1), SampleOf(a[n - 1], b[n - 1]), d);
    }
  }

  lemma {:induction false} NegativesCountPositions(a: seq<int>, b: seq<int>, n: nat)
    requires n <= |a| && n <= |b|
    ensures Negatives(Diffs(a, b, n)) == |Backward(a, b, n)|
  {
    hide Backward, SampleOf;
    if n == 0 {
      NothingYet(a, b, 0);
    } else {
      NegativesCountPositions(a, b, n - 1);
      NextBackward(a, b, n);
      NegativesOfBoth(Diffs(a, b, n - 1), SampleOf(a[n - 1], b[n - 1]));
    }
  }

  lemma {:induction false} NegativesOfBoth(s: seq<int>, r: seq<int>)
    ensures Negatives(s + r) == Negatives(s) + Negatives(r)
    decreases |r|
  {
    if r == [] {
      assert s + r == s;
    } else {
      var n := |r| - 1;
      NegativesOfBoth(s, r[..n]);
      assert s + r == (s + r[..n]) + [r[n]] && r == r[..n] + [r[n]];
      NegativesAppend(s + r[..n], r[n]);
      NegativesAppend(r[..n], r[n]);
    }
  }

  function Negatives(s: seq<int>): (c: nat)
  {
    if s == [] then 0 else Negatives(s[..|s| - 1]) + if s[|s| - 1] < 0 then 1 else 0
  }

  lemma NegativesAppend(s: seq<int>, d: int)
    ensures Negatives(s + [d]) == Negatives(s) + if d < 0 then 1 else 0
  {
    assert (s + [d])[..|s|] == s;
  }

  /* ---- zeros ---- */

  function Zeros(log: seq<int>, n: nat): (c: nat)
    requires n <= |log|
  {
    if n == 0 then 0 else Zeros(log, n - 1) + if log[n - 1] == 0 then 1 else 0
  }

  function ZeroAt(log: seq<int>, n: nat): (s: set<int>)
    requires n <= |log|
  {
    set i | 0 <= i < n && log[i] == 0
  }

  lemma {:induction false} ZerosArePositions(log: seq<int>, n: nat)
    requires n <= |log|
    ensures Zeros(log, n) == |ZeroAt(log, n)|
  {
    if n == 0 {
      assert ZeroAt(log, n) == {};
    } else {
      ZerosArePositions(log, n - 1);
      assert ZeroAt(log, n) == if log[n - 1] == 0 then ZeroAt(log, n - 1) + {n - 1} else ZeroAt(log, n - 1);
    }
  }

  type Pair = p: (nat, nat) | p.0 != p.1 witness (1, 0)

  function TouchOne(p: Pair, l: nat): (c: nat)
  {
    if p.0 == l || p.1 == l then 1 else 0
  }

  /** In how many of the pairs log `l` occurs. */
  function Touch(pairs: seq<Pair>, l: nat): (c: nat)
  {
    if pairs == [] then 0 else Touch(pairs[..|pairs| - 1], l) + TouchOne(pairs[|pairs| - 1], l)
  }

  lemma TouchAppend(pairs: seq<Pair>, k: nat, l: nat)
    requires k < |pairs|
    ensures Touch(pairs[..k + 1], l) == Touch(pairs[..k], l) + TouchOne(pairs[k], l)
  {
    assert pairs[..k + 1][..k] == pairs[..k];
  }

  function Touching(pairs: seq<Pair>, l: nat): (s: set<int>)
  {
    set k | 0 <= k < |pairs| && (pairs[k].0 == l || pairs[k].1 == l)
  }

  lemma {:induction false} TouchIsNumberOfPairs(pairs: seq<Pair>, l: nat)
    ensures Touch(pairs, l) == |Touching(pairs, l)|
    decreases |pairs|
  {
    if pairs == [] {
      assert Touching(pairs, l) == {};
    } else {
      var n := |pairs| - 1;
      var init := pairs[..n];
      TouchIsNumberOfPairs(init, l);
      assert Touching(pairs, l) ==
        if pairs[n].0 == l || pairs[n].1 == l then Touching(init, l) + {n} else Touching(init, l);
    }
  }

  /* ---- the counting loops ---- */

  /** logs_zeroed, diffs_neg and count_diffs */
  datatype Tally = Tally(zeroed: seq<nat>, neg: seq<nat>, counts: seq<Histogram>)

  predicate Rectangular(logs: seq<seq<int>>, n: nat)
  {
    forall l :: 0 <= l < |logs| ==> |logs[l]| == n
  }

  predicate PairsOf(pairs: seq<Pair>, logs: nat)
  {
    forall p :: 0 <= p < |pairs| ==> pairs[p].0 < logs && pairs[p].1 < logs
  }

  predicate Shaped(t: Tally, logs: nat, pairs: nat)
  {
    |t.zeroed| == logs && |t.neg| == |t.counts| == pairs
  }

  function Nothing(logs: nat, pairs: nat): (t: Tally)
    ensures Shaped(t, logs, pairs)
  {
    Tally(seq(logs, _ => 0), seq(pairs, _ => 0), seq(pairs, _ => map[]))
  }

  /** What the pair (a, b) makes of its counters at one position. */
  function NegAfter(neg: nat, s: seq<int>): (neg': nat)
  {
    if s != [] && s[0] < 0 then neg + 1 else neg
  }

  function CountsAfter(h: Histogram, s: seq<int>): (h': Histogram)
  {
    if s == [] then h else Bump(h, s[0])
  }

  /** One pair at one position. */
  method TallyPair(a: int, b: int, pair: Pair, p: nat, t: Tally) returns (t': Tally)
    requires pair.0 < |t.zeroed| && pair.1 < |t.zeroed| && p < |t.neg| == |t.counts|
    ensures |t'.zeroed| == |t.zeroed|
    ensures forall l :: 0 <= l < |t.zeroed| ==>
              t'.zeroed[l] == t.zeroed[l] + (if (l == pair.0 && a == 0) || (l == pair.1 && b == 0) then 1 else 0)
    ensures t'.neg == t.neg[p := NegAfter(t.neg[p], SampleOf(a, b))]
    ensures t'.counts == t.counts[p := CountsAfter(t.counts[p], SampleOf(a, b))]
  {
    var zeroed, neg, counts := t.zeroed, t.neg, t.counts;
    var z := 0;
    if a == 0 {
      zeroed := zeroed[pair.0 := zeroed[pair.0] + 1];
      z := z + 1;
    }
    if b == 0 {
      zeroed := zeroed[pair.1 := zeroed[pair.1] + 1];
      z := z + 1;
    }
    if z != 0 {
      return Tally(zeroed, neg, counts);
    }
    var d := a - b;
    if d < 0 {
      neg := neg[p := neg[p] + 1];
    }
    counts := counts[p := Bump(counts[p], d)];
    t' := Tally(zeroed, neg, counts);
  }

  function At(logs: seq<seq<int>>, pair: Pair, i: nat): (s: seq<int>)
    requires pair.0 < |logs| && pair.1 < |logs| && i < |logs[pair.0]| && i < |logs[pair.1]|
    ensures |s| <= 1
  {
    SampleOf(logs[pair.0][i], logs[pair.1][i])
  }

  /** All pairs at one position. */
  method TallyRow(logs: seq<seq<int>>, pairs: seq<Pair>, n: nat, i: nat, t: Tally) returns (t': Tally)
    requires Rectangular(logs, n) && i < n && PairsOf(pairs, |logs|) && Shaped(t, |logs|, |pairs|)
    ensures Shaped(t', |logs|, |pairs|)
    ensures forall l :: 0 <= l < |logs| ==>
              t'.zeroed[l] == t.zeroed[l] + (if logs[l][i] == 0 then Touch(pairs, l) else 0)
    ensures forall p :: 0 <= p < |pairs| ==> t'.neg[p] == NegAfter(t.neg[p], At(logs, pairs[p], i))
    ensures forall p :: 0 <= p < |pairs| ==> t'.counts[p] == CountsAfter(t.counts[p], At(logs, pairs[p], i))
  {
    t' := t;
    for k := 0 to |pairs|
      invariant Shaped(t', |logs|, |pairs|)
      invariant forall l :: 0 <= l < |logs| ==>
                  t'.zeroed[l] == t.zeroed[l] + (if logs[l][i] == 0 then Touch(pairs[..k], l) else 0)
      invariant forall p :: 0 <= p < |pairs| ==>
                  t'.neg[p] == if p < k then NegAfter(t.neg[p], At(logs, pairs[p], i)) else t.neg[p]
      invariant forall p :: 0 <= p < |pairs| ==>
                  t'.counts[p] == if p < k then CountsAfter(t.counts[p], At(logs, pairs[p], i)) else t.counts[p]
    {
      forall l | 0 <= l < |logs|
        ensures Touch(pairs[..k + 1], l) == Touch(pairs[..k], l) + TouchOne(pairs[k], l)
      {
        TouchAppend(pairs, k, l);
      }
      t' := TallyPair(logs[pairs[k].0][i], logs[pairs[k].1][i], pairs[k], k, t');
    }
    assert pairs[..|pairs|] == pairs;
  }

  /** How often log `l` was found zero, over all its pairs. */
  function Hits(pairs: seq<Pair>, log: seq<int>, l: nat, n: nat): (c: nat)
    requires n <= |log|
  {
    if n == 0 then 0 else Hits(pairs, log, l, n - 1) + if log[n - 1] == 0 then Touch(pairs, l) else 0
  }

  lemma {:induction false} EveryZeroIsHitByItsPairs(pairs: seq<Pair>, log: seq<int>, l: nat, n: nat)
    requires n <= |log|
    ensures Hits(pairs, log, l, n) == Touch(pairs, l) * Zeros(log, n)
  {
    if n != 0 {
      EveryZeroIsHitByItsPairs(pairs, log, l, n - 1);
      OneMore(Touch(pairs, l), Zeros(log, n - 1));
    }
  }

  lemma OneMore(a: nat, b: nat)
    ensures a * (b + 1) == a * b + a
  {
  }

  function PairDiffs(logs: seq<seq<int>>, pair: Pair, n: nat): (s: seq<int>)
    requires pair.0 < |logs| && pair.1 < |logs| && n <= |logs[pair.0]| && n <= |logs[pair.1]|
  {
    Diffs(logs[pair.0], logs[pair.1], n)
  }

  /** The counters of one pair stand for the samples `s`. */
  ghost predicate Counted(h: Histogram, neg: nat, s: seq<int>)
  {
    Represents(h, s) && neg == Negatives(s)
  }

  lemma CountedAfter(h: Histogram, neg: nat, s: seq<int>, one: seq<int>)
    requires Counted(h, neg, s) && |one| <= 1
    ensures Counted(CountsAfter(h, one), NegAfter(neg, one), s + one)
  {
    if one == [] {
      assert s + one == s;
    } else {
      assert one == [one[0]];
      BumpAddsSample(h, s, one[0]);
      NegativesAppend(s, one[0]);
    }
  }

  lemma NextDiff(logs: seq<seq<int>>, pair: Pair, i: nat, s: seq<int>)
    requires pair.0 < |logs| && pair.1 < |logs| && i < |logs[pair.0]| && i < |logs[pair.1]|
    ensures s + PairDiffs(logs, pair, i + 1) == s + PairDiffs(logs, pair, i) + At(logs, pair, i)
  {
  }

  /** All positions of one run of the experiment, on top of what earlier runs left. */
  method TallyLogs(logs: seq<seq<int>>, pairs: seq<Pair>, n: nat, t: Tally, ghost seen: seq<seq<int>>)
    returns (t': Tally)
    requires Rectangular(logs, n) && PairsOf(pairs, |logs|) && Shaped(t, |logs|, |pairs|) && |seen| == |pairs|
    requires forall p :: 0 <= p < |pairs| ==> Counted(t.counts[p], t.neg[p], seen[p])
    ensures Shaped(t', |logs|, |pairs|)
    ensures forall l :: 0 <= l < |logs| ==> t'.zeroed[l] == t.zeroed[l] + Touch(pairs, l) * Zeros(logs[l], n)
    ensures forall p :: 0 <= p < |pairs| ==> Counted(t'.counts[p], t'.neg[p], seen[p] + PairDiffs(logs, pairs[p], n))
    ensures forall p: nat, d: int :: p < |pairs| ==>
              (if d in t'.counts[p] then t'.counts[p][d] else 0) ==
              (if d in t.counts[p] then t.counts[p][d] else 0) +
              var a, b := logs[pairs[p].0], logs[pairs[p].1];
              |set i | 0 <= i < n && a[i] != 0 && b[i] != 0 && a[i] - b[i] == d|
    ensures forall p: nat, d: int :: p < |pairs| && d in t'.counts[p] ==> t'.counts[p][d] > 0
    ensures forall p: nat :: p < |pairs| ==>
              t'.neg[p] == t.neg[p] +
              var a, b := logs[pairs[p].0], logs[pairs[p].1];
              |set i | 0 <= i < n && a[i] != 0 && b[i] != 0 && a[i] < b[i]|
  {
    hide Counted, CountsAfter, NegAfter, PairDiffs, At, Touch;
    t' := t;
    forall p | 0 <= p < |pairs| ensures seen[p] + PairDiffs(logs, pairs[p], 0) == seen[p] {
      NoDiffs(logs, pairs[p], seen[p]);
    }
    for i := 0 to n
      invariant Shaped(t', |logs|, |pairs|)
      invariant forall l :: 0 <= l < |logs| ==> t'.zeroed[l] == t.zeroed[l] + Hits(pairs, logs[l], l, i)
      invariant forall p :: 0 <= p < |pairs| ==>
                  Counted(t'.counts[p], t'.neg[p], seen[p] + PairDiffs(logs, pairs[p], i))
    {
      ghost var b := t';
      t' := TallyRow(logs, pairs, n, i, t');
      forall p | 0 <= p < |pairs|
        ensures Counted(t'.counts[p], t'.neg[p], seen[p] + PairDiffs(logs, pairs[p], i + 1))
      {
        CountedAfter(b.counts[p], b.neg[p], seen[p] + PairDiffs(logs, pairs[p], i), At(logs, pairs[p], i));
        NextDiff(logs, pairs[p], i, seen[p]);
      }
    }
    forall l | 0 <= l < |logs| ensures Hits(pairs, logs[l], l, n) == Touch(pairs, l) * Zeros(logs[l], n) {
      EveryZeroIsHitByItsPairs(pairs, logs[l], l, n);
    }
    forall p: nat, d: int | p < |pairs|
      ensures ValueAt(t'.counts[p], d) ==
              ValueAt(t.counts[p], d) + |Differing(logs[pairs[p].0], logs[pairs[p].1], n, d)|
      ensures d in t'.counts[p] ==> t'.counts[p][d] > 0
    {
      CountedValue(t.counts[p], t.neg[p], seen[p], d);
      AddedValue(logs, pairs[p], n, t'.counts[p], t'.neg[p], seen[p], d);
    }
    forall p: nat | p < |pairs|
      ensures t'.neg[p] == t.neg[p] + |Backward(logs[pairs[p].0], logs[pairs[p].1], n)|
    {
      AddedNegatives(logs, pairs[p], n, t.counts[p], t.neg[p], t'.counts[p], t'.neg[p], seen[p]);
    }
  }

  function ValueAt(h: Histogram, d: int): (n: nat)
  {
    if d in h then h[d] else 0
  }

  lemma CountedValue(h: Histogram, neg: nat, s: seq<int>, d: int)
    requires Counted(h, neg, s)
    ensures ValueAt(h, d) == multiset(s)[d] && (d in h <==> multiset(s)[d] > 0)
  {
    assert d in s <==> d in multiset(s);
  }

  lemma AddedValue(logs: seq<seq<int>>, pair: Pair, n: nat, h: Histogram, neg: nat, s: seq<int>, d: int)
    requires Rectangular(logs, n) && pair.0 < |logs| && pair.1 < |logs|
    requires Counted(h, neg, s + PairDiffs(logs, pair, n))
    ensures ValueAt(h, d) == multiset(s)[d] + |Differing(logs[pair.0], logs[pair.1], n, d)|
    ensures d in h <==> ValueAt(h, d) > 0
  {
    CountedValue(h, neg, s + PairDiffs(logs, pair, n), d);
    DiffsCountPositions(logs[pair.0], logs[pair.1], n, d);
    hide *;
    assert multiset(s + PairDiffs(logs, pair, n)) == multiset(s) + multiset(PairDiffs(logs, pair, n));
  }

  lemma AddedNegatives(logs: seq<seq<int>>, pair: Pair, n: nat, h: Histogram, neg: nat, h': Histogram, neg': nat,
                       s: seq<int>)
    requires Rectangular(logs, n) && pair.0 < |logs| && pair.1 < |logs|
    requires Counted(h, neg, s) && Counted(h', neg', s + PairDiffs(logs, pair, n))
    ensures neg' == neg + |Backward(logs[pair.0], logs[pair.1], n)|
  {
    NegativesOfBoth(s, PairDiffs(logs, pair, n));
    NegativesCountPositions(logs[pair.0], logs[pair.1], n);
  }

  lemma NoDiffs(logs: seq<seq<int>>, pair: Pair, s: seq<int>)
    requires pair.0 < |logs| && pair.1 < |logs|
    ensures s + PairDiffs(logs, pair, 0) == s
  {
  }

  /* ---- halving ---- */

  /** map(lambda v: int(v/2), logs_zeroed) */
  function Halved(zeroed: seq<nat>): (h: seq<nat>)
    ensures |h| == |zeroed|
  {
    seq(|zeroed|, l requires 0 <= l < |zeroed| => zeroed[l] / 2)
  }

  /** scripts/check_improved_plot.py: each group of three logs is compared pairwise. */
  const SIX_PAIRS: seq<Pair> := [(1, 0), (2, 0), (2, 1), (4, 3), (5, 3), (5, 4)]

  /** scripts/ps_combi_2_stress_non.py leaves one comparison of each group out. */
  const FOUR_PAIRS: seq<Pair> := [(1, 0), (2, 0), (4, 3), (5, 3)]

  lemma SixPairsTouchEveryLogTwice(l: nat)
    requires l < 6
    ensures Touch(SIX_PAIRS, l) == 2
  {
    for k := 0 to 6
      invariant Touch(SIX_PAIRS[..k], l) ==
                (if k > 0 then TouchOne((1, 0), l) else 0) + (if k > 1 then TouchOne((2, 0), l) else 0) +
                (if k > 2 then TouchOne((2, 1), l) else 0) + (if k > 3 then TouchOne((4, 3), l) else 0) +
                (if k > 4 then TouchOne((5, 3), l) else 0) + (if k > 5 then TouchOne((5, 4), l) else 0)
    {
      TouchAppend(SIX_PAIRS, k, l);
    }
    assert SIX_PAIRS[..6] == SIX_PAIRS;
  }

  lemma FourPairsTouch(l: nat)
    requires l < 6
    ensures Touch(FOUR_PAIRS, l) == if l == 0 || l == 3 then 2 else 1
  {
    for k := 0 to 4
      invariant Touch(FOUR_PAIRS[..k], l) ==
                (if k > 0 then TouchOne((1, 0), l) else 0) + (if k > 1 then TouchOne((2, 0), l) else 0) +
                (if k > 2 then TouchOne((4, 3), l) else 0) + (if k > 3 then TouchOne((5, 3), l) else 0)
    {
      TouchAppend(FOUR_PAIRS, k, l);
    }
    assert FOUR_PAIRS[..4] == FOUR_PAIRS;
  }

  lemma SmallProduct(a: nat, b: nat)
    ensures a * b <= 1 <==> a == 0 || b == 0 || (a == 1 && b == 1)
  {
    if a == 1 {
      assert a * b == b;
    } else if a >= 2 {
      assert a * b == 2 * b + (a - 2) * b;
    }
  }

  lemma HalfIsExact(n: nat, rest: nat)
    ensures (2 * n + rest) / 2 == n <==> rest <= 1
  {
  }

  /** Halving gives back the zeros of a log in two pairs, and nothing else in general. */
  lemma HalvingIsExact(touch: nat, zeros: nat)
    ensures touch * zeros / 2 == zeros <==> touch == 2 || zeros == 0 || (touch == 3 && zeros == 1)
  {
    if touch == 0 {
      assert touch * zeros == 0;
    } else if touch == 1 {
      assert touch * zeros == zeros;
    } else {
      ghost var rest: nat := (touch - 2) * zeros;
      assert touch * zeros == 2 * zeros + rest;
      SmallProduct(touch - 2, zeros);
      HalfIsExact(zeros, rest);
    }
  }

  /* ---- all runs of an experiment ---- */

  /** One set of logs for each run; the logs of a run have the same length. */
  predicate RunsOf(runs: seq<seq<seq<int>>>, logs: nat)
    requires logs > 0
  {
    forall i :: 0 <= i < |runs| ==> |runs[i]| == logs && Rectangular(runs[i], |runs[i][0]|)
  }

  function TotalZeros(runs: seq<seq<seq<int>>>, logs: nat, l: nat): (c: nat)
    requires l < logs && RunsOf(runs, logs)
  {
    if runs == [] then 0
    else
      var last := runs[|runs| - 1];
      TotalZeros(runs[..|runs| - 1], logs, l) + Zeros(last[l], |last[l]|)
  }

  function TotalDiffs(runs: seq<seq<seq<int>>>, logs: nat, pair: Pair): (s: seq<int>)
    requires logs > 0 && pair.0 < logs && pair.1 < logs && RunsOf(runs, logs)
  {
    if runs == [] then []
    else
      var last := runs[|runs| - 1];
      TotalDiffs(runs[..|runs| - 1], logs, pair) + PairDiffs(last, pair, |last[0]|)
  }

  lemma NextTotals(runs: seq<seq<seq<int>>>, logs: nat, i: nat)
    requires logs > 0 && RunsOf(runs, logs) && i < |runs|
    ensures forall l: nat :: l < logs ==>
              TotalZeros(runs[..i + 1], logs, l) == TotalZeros(runs[..i], logs, l) + Zeros(runs[i][l], |runs[i][0]|)
    ensures forall pair: Pair :: pair.0 < logs && pair.1 < logs ==>
              TotalDiffs(runs[..i + 1], logs, pair)
              == TotalDiffs(runs[..i], logs, pair) + PairDiffs(runs[i], pair, |runs[i][0]|)
  {
    assert runs[..i + 1][..i] == runs[..i];
  }

  /* ---- sums over runs as numbers of positions ---- */

  /** The sizes of the first `k` rows. */
  function Sizes(row: int -> set<int>, k: nat): (n: nat)
  {
    if k == 0 then 0 else Sizes(row, k - 1) + |row(k - 1)|
  }

  lemma NextSize(row: int -> set<int>, k: nat)
    ensures Sizes(row, k + 1) == Sizes(row, k) + |row(k)|
  {
  }

  function RowCells(r: int, s: set<int>): (cells: set<(int, int)>)
  {
    set i | i in s :: (r, i)
  }

  lemma {:induction false} RowInPairs(r: int, s: set<int>)
    ensures |RowCells(r, s)| == |s|
    decreases |s|
  {
    if forall x: int :: x !in s {
      assert s == {} && RowCells(r, s) == {};
    } else {
      var x: int :| x in s;
      RowInPairs(r, s - {x});
      assert RowCells(r, s) == RowCells(r, s - {x}) + {(r, x)};
    }
  }

  function Cells(row: int -> set<int>, k: nat): (cells: set<(int, int)>)
  {
    set r, i | 0 <= r < k && i in row(r) :: (r, i)
  }

  lemma NextCells(row: int -> set<int>, k: nat)
    ensures |Cells(row, k + 1)| == |Cells(row, k)| + |row(k)|
  {
    RowInPairs(k, row(k));
    assert Cells(row, k + 1) == Cells(row, k) + RowCells(k, row(k));
    assert Cells(row, k) !! RowCells(k, row(k));
  }

  lemma {:induction false} CellsAreSizes(row: int -> set<int>, k: nat)
    ensures |Cells(row, k)| == Sizes(row, k)
  {
    if k == 0 {
      assert Cells(row, 0) == {};
    } else {
      hide Cells;
      CellsAreSizes(row, k - 1);
      NextCells(row, k - 1);
    }
  }

  /** The rows for a difference `d`, for negative differences, and for the zeros of a log. */
  function DifferingIn(runs: seq<seq<seq<int>>>, logs: nat, pair: Pair, d: int): (row: int -> set<int>)
    requires logs > 0 && RunsOf(runs, logs) && pair.0 < logs && pair.1 < logs
  {
    r => if 0 <= r < |runs| then Differing(runs[r][pair.0], runs[r][pair.1], |runs[r][0]|, d) else {}
  }

  function BackwardIn(runs: seq<seq<seq<int>>>, logs: nat, pair: Pair): (row: int -> set<int>)
    requires logs > 0 && RunsOf(runs, logs) && pair.0 < logs && pair.1 < logs
  {
    r => if 0 <= r < |runs| then Backward(runs[r][pair.0], runs[r][pair.1], |runs[r][0]|) else {}
  }

  function ZeroIn(runs: seq<seq<seq<int>>>, logs: nat, l: nat): (row: int -> set<int>)
    requires l < logs && RunsOf(runs, logs)
  {
    r => if 0 <= r < |runs| then ZeroAt(runs[r][l], |runs[r][l]|) else {}
  }

  lemma CountOfBoth(s: seq<int>, r: seq<int>, d: int)
    ensures multiset(s + r)[d] == multiset(s)[d] + multiset(r)[d]
  {
    assert multiset(s + r) == multiset(s) + multiset(r);
  }

  /** The samples of the first `k` runs, and of run `k`. */
  function DiffsUpTo(runs: seq<seq<seq<int>>>, logs: nat, pair: Pair, k: nat): (s: seq<int>)
    requires logs > 0 && RunsOf(runs, logs) && pair.0 < logs && pair.1 < logs && k <= |runs|
  {
    TotalDiffs(runs[..k], logs, pair)
  }

  function DiffsOfRun(runs: seq<seq<seq<int>>>, logs: nat, pair: Pair, k: nat): (s: seq<int>)
    requires logs > 0 && RunsOf(runs, logs) && pair.0 < logs && pair.1 < logs && k < |runs|
  {
    PairDiffs(runs[k], pair, |runs[k][0]|)
  }

  lemma DiffsSoFar(runs: seq<seq<seq<int>>>, logs: nat, pair: Pair, k: nat)
    requires logs > 0 && RunsOf(runs, logs) && pair.0 < logs && pair.1 < logs && k < |runs|
    ensures DiffsUpTo(runs, logs, pair, 0) == []
    ensures DiffsUpTo(runs, logs, pair, k + 1) == DiffsUpTo(runs, logs, pair, k) + DiffsOfRun(runs, logs, pair, k)
  {
    NextTotals(runs, logs, k);
  }

  lemma RowOfRun(runs: seq<seq<seq<int>>>, logs: nat, pair: Pair, d: int, k: nat)
    requires logs > 0 && RunsOf(runs, logs) && pair.0 < logs && pair.1 < logs && k < |runs|
    ensures |DifferingIn(runs, logs, pair, d)(k)| == multiset(DiffsOfRun(runs, logs, pair, k))[d]
    ensures |BackwardIn(runs, logs, pair)(k)| == Negatives(DiffsOfRun(runs, logs, pair, k))
  {
    hide Differing, Backward, Negatives, Diffs;
    var last := runs[k];
    DiffsCountPositions(last[pair.0], last[pair.1], |last[0]|, d);
    NegativesCountPositions(last[pair.0], last[pair.1], |last[0]|);
  }

  lemma {:induction false} TotalDiffsAreSizes(runs: seq<seq<seq<int>>>, logs: nat, pair: Pair, d: int, k: nat)
    requires logs > 0 && RunsOf(runs, logs) && pair.0 < logs && pair.1 < logs && k <= |runs|
    ensures multiset(DiffsUpTo(runs, logs, pair, k))[d] == Sizes(DifferingIn(runs, logs, pair, d), k)
  {
    if k == 0 {
      assert DiffsUpTo(runs, logs, pair, 0) == [];
    } else {
      hide *;
      var j := k - 1;
      TotalDiffsAreSizes(runs, logs, pair, d, j);
      DiffsSoFar(runs, logs, pair, j);
      RowOfRun(runs, logs, pair, d, j);
      NextSize(DifferingIn(runs, logs, pair, d), j);
      CountOfBoth(DiffsUpTo(runs, logs, pair, j), DiffsOfRun(runs, logs, pair, j), d);
    }
  }

  lemma {:induction false} TotalNegativesAreSizes(runs: seq<seq<seq<int>>>, logs: nat, pair: Pair, k: nat)
    requires logs > 0 && RunsOf(runs, logs) && pair.0 < logs && pair.1 < logs && k <= |runs|
    ensures Negatives(DiffsUpTo(runs, logs, pair, k)) == Sizes(BackwardIn(runs, logs, pair), k)
  {
    if k == 0 {
      assert DiffsUpTo(runs, logs, pair, 0) == [];
    } else {
      hide *;
      var j := k - 1;
      TotalNegativesAreSizes(runs, logs, pair, j);
      DiffsSoFar(runs, logs, pair, j);
      RowOfRun(runs, logs, pair, 0, j);
      NextSize(BackwardIn(runs, logs, pair), j);
      NegativesOfBoth(DiffsUpTo(runs, logs, pair, j), DiffsOfRun(runs, logs, pair, j));
    }
  }

  lemma {:induction false} TotalZerosAreSizes(runs: seq<seq<seq<int>>>, logs: nat, l: nat, k: nat)
    requires l < logs && RunsOf(runs, logs) && k <= |runs|
    ensures TotalZeros(runs[..k], logs, l) == Sizes(ZeroIn(runs, logs, l), k)
  {
    hide ZeroAt, Zeros;
    if k != 0 {
      TotalZerosAreSizes(runs, logs, l, k - 1);
      NextTotals(runs, logs, k - 1);
      ZerosArePositions(runs[k - 1][l], |runs[k - 1][l]|);
    }
  }

  /** The zeros of a log over all runs. */
  lemma TotalZerosArePositions(runs: seq<seq<seq<int>>>, logs: nat, l: nat)
    requires l < logs && RunsOf(runs, logs)
    ensures TotalZeros(runs, logs, l) ==
            |set r, i | 0 <= r < |runs| && 0 <= i < |runs[r][l]| && runs[r][l][i] == 0 :: (r, i)|
  {
    var row := ZeroIn(runs, logs, l);
    TotalZerosAreSizes(runs, logs, l, |runs|);
    assert runs[..|runs|] == runs;
    CellsAreSizes(row, |runs|);
    assert Cells(row, |runs|) ==
      set r, i | 0 <= r < |runs| && 0 <= i < |runs[r][l]| && runs[r][l][i] == 0 :: (r, i);
  }

  /** The same for the differences of a pair. */
  lemma TotalDiffsArePositions(runs: seq<seq<seq<int>>>, logs: nat, pair: Pair, d: int)
    requires logs > 0 && RunsOf(runs, logs) && pair.0 < logs && pair.1 < logs
    ensures multiset(TotalDiffs(runs, logs, pair))[d] == |SpotsOf(runs, logs, pair, d)|
  {
    var row := DifferingIn(runs, logs, pair, d);
    TotalDiffsAreSizes(runs, logs, pair, d, |runs|);
    assert runs[..|runs|] == runs;
    CellsAreSizes(row, |runs|);
    assert Cells(row, |runs|) == SpotsOf(runs, logs, pair, d);
  }

  lemma TotalNegativesArePositions(runs: seq<seq<seq<int>>>, logs: nat, pair: Pair)
    requires logs > 0 && RunsOf(runs, logs) && pair.0 < logs && pair.1 < logs
    ensures Negatives(TotalDiffs(runs, logs, pair)) == |BackwardSpots(runs, logs, pair)|
  {
    var row := BackwardIn(runs, logs, pair);
    TotalNegativesAreSizes(runs, logs, pair, |runs|);
    assert runs[..|runs|] == runs;
    CellsAreSizes(row, |runs|);
    assert Cells(row, |runs|) == BackwardSpots(runs, logs, pair);
  }

  /** Run and position of every difference `d`. */
  function SpotsOf(runs: seq<seq<seq<int>>>, logs: nat, pair: Pair, d: int): (spots: set<(int, int)>)
    requires logs > 0 && RunsOf(runs, logs) && pair.0 < logs && pair.1 < logs
  {
    set r, i | 0 <= r < |runs| && 0 <= i < |runs[r][0]| &&
      runs[r][pair.0][i] != 0 && runs[r][pair.1][i] != 0 && runs[r][pair.0][i] - runs[r][pair.1][i] == d :: (r, i)
  }

  function BackwardSpots(runs: seq<seq<seq<int>>>, logs: nat, pair: Pair): (spots: set<(int, int)>)
    requires logs > 0 && RunsOf(runs, logs) && pair.0 < logs && pair.1 < logs
  {
    set r, i | 0 <= r < |runs| && 0 <= i < |runs[r][0]| &&
      runs[r][pair.0][i] != 0 && runs[r][pair.1][i] != 0 && runs[r][pair.0][i] < runs[r][pair.1][i] :: (r, i)
  }

  /** After all runs every histogram stands for exactly the differences of its pair, and every
      zero of a log was counted once a pair. */
  method TallyRuns(runs: seq<seq<seq<int>>>, logs: nat, pairs: seq<Pair>) returns (t: Tally)
    requires logs > 0 && RunsOf(runs, logs) && PairsOf(pairs, logs)
    ensures Shaped(t, logs, |pairs|)
    ensures forall l :: 0 <= l < logs ==> t.zeroed[l] == Touch(pairs, l) * TotalZeros(runs, logs, l)
    ensures forall p :: 0 <= p < |pairs| ==> Counted(t.counts[p], t.neg[p], TotalDiffs(runs, logs, pairs[p]))
    ensures forall p: nat, d: int :: p < |pairs| ==>
              (d in t.counts[p] <==> SpotsOf(runs, logs, pairs[p], d) != {}) &&
              (d in t.counts[p] ==> t.counts[p][d] == |SpotsOf(runs, logs, pairs[p], d)|)
    ensures forall p: nat :: p < |pairs| ==> t.neg[p] == |BackwardSpots(runs, logs, pairs[p])|
  {
    hide Zeros, Touch, PairDiffs, Counted;
    t := Nothing(logs, |pairs|);
    ghost var seen: seq<seq<int>> := seq(|pairs|, _ => []);
    NothingIsCounted();
    forall l | 0 <= l < logs ensures Touch(pairs, l) * TotalZeros(runs[..0], logs, l) == 0 {
    }
    for i := 0 to |runs|
      invariant Shaped(t, logs, |pairs|) && |seen| == |pairs|
      invariant forall l :: 0 <= l < logs ==> t.zeroed[l] == Touch(pairs, l) * TotalZeros(runs[..i], logs, l)
      invariant forall p :: 0 <= p < |pairs| ==>
                  seen[p] == TotalDiffs(runs[..i], logs, pairs[p]) && Counted(t.counts[p], t.neg[p], seen[p])
    {
      ghost var n := |runs[i][0]|;
      t := TallyLogs(runs[i], pairs, |runs[i][0]|, t, seen);
      NextTotals(runs, logs, i);
      seen := seq(|pairs|, p requires 0 <= p < |pairs| => seen[p] + PairDiffs(runs[i], pairs[p], n));
      forall l | 0 <= l < logs
        ensures Touch(pairs, l) * TotalZeros(runs[..i + 1], logs, l)
                == Touch(pairs, l) * TotalZeros(runs[..i], logs, l) + Touch(pairs, l) * Zeros(runs[i][l], n)
      {
        Distribute(Touch(pairs, l), TotalZeros(runs[..i], logs, l), Zeros(runs[i][l], n));
      }
    }
    assert runs[..|runs|] == runs;
    forall p: nat, d: int | p < |pairs|
      ensures d in t.counts[p] <==> SpotsOf(runs, logs, pairs[p], d) != {}
      ensures d in t.counts[p] ==> t.counts[p][d] == |SpotsOf(runs, logs, pairs[p], d)|
    {
      CountedValue(t.counts[p], t.neg[p], TotalDiffs(runs, logs, pairs[p]), d);
      TotalDiffsArePositions(runs, logs, pairs[p], d);
    }
    forall p: nat | p < |pairs| ensures t.neg[p] == |BackwardSpots(runs, logs, pairs[p])| {
      TotalNegativesArePositions(runs, logs, pairs[p]);
      CountedNegatives(t.counts[p], t.neg[p], TotalDiffs(runs, logs, pairs[p]));
    }
  }

  lemma CountedNegatives(h: Histogram, neg: nat, s: seq<int>)
    requires Counted(h, neg, s)
    ensures neg == Negatives(s)
  {
  }

  lemma NothingIsCounted()
    ensures Counted(map[], 0, [])
  {
  }

  lemma Distribute(a: nat, b: nat, c: nat)
    ensures a * (b + c) == a * b + a * c
  {
  }

  lemma TwiceOver(touch: nat, zeros: nat)
    requires touch == 2
    ensures touch * zeros / 2 == zeros
  {
  }

  lemma OnceOver(touch: nat, zeros: nat)
    requires touch == 1
    ensures touch * zeros == zeros
  {
  }

  /** With all six pairs, what is printed for each log is the number of its zeros. */
  method ZeroedOfSixPairs(logs: seq<seq<int>>, n: nat) returns (zeroed: seq<nat>)
    requires |logs| == 6 && Rectangular(logs, n)
    ensures |zeroed| == 6
    ensures forall l :: 0 <= l < 6 ==> zeroed[l] == |set i | 0 <= i < n && logs[l][i] == 0|
  {
    NothingIsCounted();
    hide Zeros, Touch, PairDiffs, Counted;
    var t := TallyLogs(logs, SIX_PAIRS, n, Nothing(6, 6), seq(6, _ => []));
    zeroed := Halved(t.zeroed);
    forall l | 0 <= l < 6 ensures zeroed[l] == |set i | 0 <= i < n && logs[l][i] == 0| {
      ZerosArePositions(logs[l], n);
      SixPairsTouchEveryLogTwice(l);
      TwiceOver(Touch(SIX_PAIRS, l), Zeros(logs[l], n));
    }
  }

  /** With four pairs, over all runs, that holds of the two kernel logs; of another log it holds
      exactly if it has no zeros, and half of them are lost. */
  method ZeroedOfFourPairs(runs: seq<seq<seq<int>>>) returns (zeroed: seq<nat>)
    requires RunsOf(runs, 6)
    ensures |zeroed| == 6
    ensures forall l :: 0 <= l < 6 ==>
              var z := TotalZeros(runs, 6, l); zeroed[l] == if l == 0 || l == 3 then z else z / 2
    ensures forall l :: 0 <= l < 6 ==>
              (zeroed[l] == TotalZeros(runs, 6, l) <==> l == 0 || l == 3 || TotalZeros(runs, 6, l) == 0)
  {
    hide Touch, TotalZeros, TotalDiffs, Counted;
    var t := TallyRuns(runs, 6, FOUR_PAIRS);
    zeroed := Halved(t.zeroed);
    forall l | 0 <= l < 6
      ensures var z := TotalZeros(runs, 6, l); zeroed[l] == if l == 0 || l == 3 then z else z / 2
    {
      FourPairsTouch(l);
      if l == 0 || l == 3 {
        TwiceOver(Touch(FOUR_PAIRS, l), TotalZeros(runs, 6, l));
      } else {
        OnceOver(Touch(FOUR_PAIRS, l), TotalZeros(runs, 6, l));
      }
    }
  }
}
