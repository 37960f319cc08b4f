/** Mean, variance, median, 99% value and latency ranges, computed from a histogram
    (scripts/ps_combi_2_stress_non.py), against the samples it stands for. Keys come in the
    order the dictionary yields them; rounding of floats is not modelled. */
module HistogramStatistics {
  import opened LatencyHistogram

  datatype Option<T> = None | Some(value: T)

  predicate Distinct(keys: seq<int>)
  {
    forall i, j :: 0 <= i < j < |keys| ==> keys[i] != keys[j]
  }

  predicate Ascending(keys: seq<int>)
  {
    forall i, j :: 0 <= i < j < |keys| ==> keys[i] < keys[j]
  }

  /** `keys` are the keys of `h`, each once. */
  ghost predicate KeysOf(keys: seq<int>, h: Histogram)
  {
    Distinct(keys) && forall d :: d in keys <==> d in h
  }

  function SetOf(keys: seq<int>): (s: set<int>)
  {
    set d | d in keys
  }

  /* ---- counting and adding up samples ---- */

  function CountIn(samples: seq<int>, done: set<int>): (c: nat)
  {
    if samples == [] then 0
    else CountIn(samples[1..], done) + if samples[0] in done then 1 else 0
  }

  function SumIn(f: int -> real, samples: seq<int>, done: set<int>): (c: real)
  {
    if samples == [] then 0.0
    else SumIn(f, samples[1..], done) + if samples[0] in done then f(samples[0]) else 0.0
  }

  /** The plain sum over the samples. */
  function SumOf(f: int -> real, samples: seq<int>): (c: real)
  {
    if samples == [] then 0.0 else SumOf(f, samples[1..]) + f(samples[0])
  }

  lemma MultisetHead(samples: seq<int>)
    requires samples != []
    ensures multiset(samples) == multiset(samples[1..]) + multiset{samples[0]}
  {
    assert samples == [samples[0]] + samples[1..];
  }

  lemma {:induction false} CountOneKey(samples: seq<int>, done: set<int>, k: int)
    requires k !in done
    ensures CountIn(samples, done + {k}) == CountIn(samples, done) + multiset(samples)[k]
  {
    if samples != [] {
      CountOneKey(samples[1..], done, k);
      MultisetHead(samples);
    }
  }

  function Times(x: real, n: nat): (p: real)
  {
    x * n as real
  }

  lemma OneMoreTime(x: real, n: nat)
    ensures Times(x, n + 1) == Times(x, n) + x
    ensures Times(x, 0) == 0.0
  {
  }

  lemma {:induction false} SumOneKey(f: int -> real, samples: seq<int>, done: set<int>, k: int)
    requires k !in done
    ensures SumIn(f, samples, done + {k}) == SumIn(f, samples, done) + Times(f(k), multiset(samples)[k])
  {
    hide Times;
    OneMoreTime(f(k), 0);
    if samples != [] {
      SumOneKey(f, samples[1..], done, k);
      MultisetHead(samples);
      OneMoreTime(f(k), multiset(samples[1..])[k]);
    }
  }

  lemma {:induction false} AllCounted(samples: seq<int>, done: set<int>)
    requires forall s :: s in samples ==> s in done
    ensures CountIn(samples, done) == |samples|
  {
    if samples != [] {
      var head := samples[0];
      assert head in samples;
      AllCounted(samples[1..], done);
    }
  }

  lemma {:induction false} AllSummed(f: int -> real, samples: seq<int>, done: set<int>)
    requires forall s :: s in samples ==> s in done
    ensures SumIn(f, samples, done) == SumOf(f, samples)
  {
    if samples != [] {
      var head := samples[0];
      assert head in samples;
      AllSummed(f, samples[1..], done);
    }
  }

  lemma {:induction false} NoneCounted(samples: seq<int>)
    ensures CountIn(samples, {}) == 0
  {
    if samples != [] { NoneCounted(samples[1..]); }
  }

  lemma {:induction false} NoneSummed(f: int -> real, samples: seq<int>)
    ensures SumIn(f, samples, {}) == 0.0
  {
    if samples != [] { NoneSummed(f, samples[1..]); }
  }

  lemma NextKey(keys: seq<int>, i: nat)
    requires Distinct(keys) && i < |keys|
    ensures SetOf(keys[..i + 1]) == SetOf(keys[..i]) + {keys[i]} && keys[i] !in SetOf(keys[..i])
  {
    assert keys[..i + 1] == keys[..i] + [keys[i]];
  }

  /** The sum of the values at these keys. */
  function ValueSum(h: Histogram, keys: seq<int>): (n: nat)
  {
    if keys == [] then 0
    else
      var last := keys[|keys| - 1];
      ValueSum(h, keys[..|keys| - 1]) + if last in h then h[last] else 0
  }

  lemma {:induction false} ValueSumIsCount(keys: seq<int>, h: Histogram, samples: seq<int>)
    requires Represents(h, samples) && Distinct(keys)
    ensures ValueSum(h, keys) == CountIn(samples, SetOf(keys))
    decreases |keys|
  {
    if keys == [] {
      assert SetOf(keys) == {};
      NoneCounted(samples);
    } else {
      var i := |keys| - 1;
      ValueSumIsCount(keys[..i], h, samples);
      NextKey(keys, i);
      assert keys[..i + 1] == keys;
      CountOneKey(samples, SetOf(keys[..i]), keys[i]);
    }
  }

  lemma ValuesCountSamples(keys: seq<int>, h: Histogram, samples: seq<int>)
    requires Represents(h, samples) && KeysOf(keys, h)
    ensures ValueSum(h, keys) == |samples|
  {
    ValueSumIsCount(keys, h, samples);
    AllCounted(samples, SetOf(keys));
  }

  /** sum(h.values()) */
  method NbrValues(keys: seq<int>, h: Histogram, ghost samples: seq<int>) returns (n: nat)
    requires Represents(h, samples) && KeysOf(keys, h)
    ensures n == |samples|
  {
    n := 0;
    for i := 0 to |keys|
      invariant n == ValueSum(h, keys[..i])
    {
      assert keys[..i + 1] == keys[..i] + [keys[i]];
      assert keys[i] in keys;
      n := n + h[keys[i]];
    }
    assert keys[..|keys|] == keys;
    ValuesCountSamples(keys, h, samples);
  }

  /** Sum of f(key) * value over the dictionary. */
  method WeightedSum(f: int -> real, keys: seq<int>, h: Histogram, ghost samples: seq<int>) returns (c: real)
    requires Represents(h, samples) && KeysOf(keys, h)
    ensures c == SumOf(f, samples)
  {
    c := 0.0;
    NoneSummed(f, samples);
    assert SetOf(keys[..0]) == {};
    for i := 0 to |keys|
      invariant c == SumIn(f, samples, SetOf(keys[..i]))
    {
      NextKey(keys, i);
      SumOneKey(f, samples, SetOf(keys[..i]), keys[i]);
      assert keys[i] in h;
      c := c + Times(f(keys[i]), h[keys[i]]);
    }
    AllSummed(f, samples, SetOf(keys[..|keys|]));
  }

  function AsReal(): (f: int -> real)
  {
    (d: int) => d as real
  }

  function SquaredDeviation(avg: real): (f: int -> real)
  {
    (d: int) => (d as real - avg) * (d as real - avg)
  }

  function IntegerSum(samples: seq<int>): (c: int)
  {
    if samples == [] then 0 else IntegerSum(samples[1..]) + samples[0]
  }

  function SumOfSquares(samples: seq<int>): (c: int)
  {
    if samples == [] then 0 else SumOfSquares(samples[1..]) + samples[0] * samples[0]
  }

  lemma {:induction false} SumAsReal(samples: seq<int>)
    ensures SumOf(AsReal(), samples) == IntegerSum(samples) as real
  {
    if samples != [] { SumAsReal(samples[1..]); }
  }

  /** The sum of the squared deviations from `a` of `n` samples with this sum and sum of squares. */
  function Expanded(squares: int, sum: int, n: nat, a: real): (c: real)
  {
    squares as real - 2.0 * (a * sum as real) + n as real * (a * a)
  }

  lemma OneMoreSample(squares: int, sum: int, n: nat, a: real, d: int)
    ensures Expanded(squares + d * d, sum + d, n + 1, a) == Expanded(squares, sum, n, a) + SquaredDeviation(a)(d)
  {
    assert (d * d) as real == d as real * d as real;
    assert a * (sum + d) as real == a * sum as real + a * d as real;
    assert (n + 1) as real * (a * a) == n as real * (a * a) + a * a;
  }

  lemma NextSample(f: int -> real, samples: seq<int>)
    requires samples != []
    ensures SumOf(f, samples) == SumOf(f, samples[1..]) + f(samples[0])
    ensures IntegerSum(samples) == IntegerSum(samples[1..]) + samples[0]
    ensures SumOfSquares(samples) == SumOfSquares(samples[1..]) + samples[0] * samples[0]
  {
  }

  lemma {:induction false} DeviationsExpanded(samples: seq<int>, a: real)
    ensures SumOf(SquaredDeviation(a), samples) == Expanded(SumOfSquares(samples), IntegerSum(samples), |samples|, a)
  {
    if samples != [] {
      hide *;
      DeviationsExpanded(samples[1..], a);
      NextSample(SquaredDeviation(a), samples);
      OneMoreSample(SumOfSquares(samples[1..]), IntegerSum(samples[1..]), |samples| - 1, a, samples[0]);
    }
  }

  function Mean(sum: real, n: nat): (m: real)
    requires n > 0
  {
    sum / n as real
  }

  lemma MeanOfSquares(squares: int, sum: int, n: nat, a: real)
    requires n > 0 && a == Mean(sum as real, n)
    ensures Mean(Expanded(squares, sum, n, a), n) == squares as real / n as real - a * a
  {
    var m, t := n as real, a * a;
    assert sum as real == a * m;
    assert a * sum as real == m * t;
    assert Expanded(squares, sum, n, a) == squares as real - m * t;
    assert (squares as real - m * t) / m == squares as real / m - t;
  }

  lemma MeanAndVariance(samples: seq<int>, a: real)
    requires samples != [] && a == Mean(SumOf(AsReal(), samples), |samples|)
    ensures var mean := IntegerSum(samples) as real / |samples| as real;
            && a == mean
            && Mean(SumOf(SquaredDeviation(a), samples), |samples|)
               == SumOfSquares(samples) as real / |samples| as real - mean * mean
  {
    hide SumOf, Expanded, AsReal, SquaredDeviation;
    SumAsReal(samples);
    DeviationsExpanded(samples, a);
    MeanOfSquares(SumOfSquares(samples), IntegerSum(samples), |samples|, a);
  }

  /** diffs_avg, and the square of diffs_stddev; None is the division by zero. The average is the
      sum over the number of samples, the variance the mean of the squares less the square of the
      mean. */
  method Moments(keys: seq<int>, h: Histogram, ghost samples: seq<int>)
    returns (avg: Option<real>, variance: Option<real>)
    requires Represents(h, samples) && KeysOf(keys, h)
    ensures avg.None? <==> samples == []
    ensures variance.None? <==> samples == []
    ensures samples != [] ==>
              var mean := IntegerSum(samples) as real / |samples| as real;
              avg == Some(mean) && variance == Some(SumOfSquares(samples) as real / |samples| as real - mean * mean)
  {
    hide SumOf, Represents, KeysOf, IntegerSum, SumOfSquares, AsReal, SquaredDeviation, Mean;
    var n := NbrValues(keys, h, samples);
    if n == 0 {
      return None, None;
    }
    var sumary := WeightedSum(AsReal(), keys, h, samples);
    var a := Mean(sumary, n);
    var sumSquareDeviations := WeightedSum(SquaredDeviation(a), keys, h, samples);
    MeanAndVariance(samples, a);
    return Some(a), Some(Mean(sumSquareDeviations, n));
  }

  /* ---- order statistics ---- */

  function CountBelow(samples: seq<int>, k: int): (c: nat)
    ensures c <= |samples|
  {
    if samples == [] then 0 else CountBelow(samples[1..], k) + if samples[0] < k then 1 else 0
  }

  function Below(samples: seq<int>, k: int): (s: set<int>)
  {
    set i | 0 <= i < |samples| && samples[i] < k
  }

  /** The number of smaller samples. */
  lemma {:induction false} CountBelowIsNumber(samples: seq<int>, k: int)
    ensures CountBelow(samples, k) == |Below(samples, k)|
    decreases |samples|
  {
    if samples == [] {
      assert Below(samples, k) == {};
    } else {
      var n := |samples| - 1;
      CountBelowIsNumber(samples[..n], k);
      assert samples == samples[..n] + [samples[n]];
      CountSplit(samples[..n], [samples[n]], k);
      assert Below(samples, k) == if samples[n] < k then Below(samples[..n], k) + {n} else Below(samples[..n], k);
    }
  }

  /** `k` is the r-th smallest sample, counting from 1. */
  predicate HasRank(samples: seq<int>, r: nat, k: int)
  {
    CountBelow(samples, k) < r <= CountBelow(samples, k + 1)
  }

  lemma {:induction false} CountSplit(a: seq<int>, b: seq<int>, k: int)
    ensures CountBelow(a + b, k) == CountBelow(a, k) + CountBelow(b, k)
  {
    if a == [] {
      assert a + b == b;
    } else {
      CountSplit(a[1..], b, k);
      assert (a + b)[1..] == a[1..] + b;
    }
  }

  lemma {:induction false} CountOfPermutation(a: seq<int>, b: seq<int>, k: int)
    requires multiset(a) == multiset(b)
    ensures CountBelow(a, k) == CountBelow(b, k)
    decreases |a|
  {
    if a == [] {
      assert |multiset(a)| == |multiset(b)|;
    } else {
      assert a[0] in multiset(b);
      var i :| 0 <= i < |b| && b[i] == a[0];
      MultisetHead(a);
      assert b == b[..i] + [b[i]] + b[i + 1..];
      var c := b[..i] + b[i + 1..];
      assert multiset(b) == multiset(c) + multiset{b[i]};
      assert multiset(a[1..]) == multiset(a) - multiset{a[0]};
      CountOfPermutation(a[1..], c, k);
      CountSplit(b[..i], b[i + 1..], k);
      CountSplit(b[..i] + [b[i]], b[i + 1..], k);
      CountSplit(b[..i], [b[i]], k);
    }
  }

  lemma {:induction false} AllBelow(s: seq<int>, k: int)
    ensures CountBelow(s, k) == |s| <==> forall i :: 0 <= i < |s| ==> s[i] < k
  {
    if s != [] {
      AllBelow(s[1..], k);
      if forall i :: 0 <= i < |s| ==> s[i] < k {
        assert forall i :: 0 <= i < |s| - 1 ==> s[1..][i] == s[i + 1];
      } else if s[0] < k {
        var i :| 0 <= i < |s| && !(s[i] < k);
        assert s[1..][i - 1] == s[i];
      }
    }
  }

  lemma {:induction false} NoneBelow(s: seq<int>, k: int)
    requires forall i :: 0 <= i < |s| ==> s[i] >= k
    ensures CountBelow(s, k) == 0
  {
    if s != [] { NoneBelow(s[1..], k); }
  }

  /** Rank means position in the sorted sample list. */
  lemma RankIsPosition(samples: seq<int>, sorted: seq<int>, r: nat, k: int)
    requires multiset(samples) == multiset(sorted)
    requires forall i, j :: 0 <= i < j < |sorted| ==> sorted[i] <= sorted[j]
    requires 1 <= r <= |sorted|
    ensures HasRank(samples, r, k) <==> sorted[r - 1] == k
  {
    CountOfPermutation(samples, sorted, k);
    CountOfPermutation(samples, sorted, k + 1);
    PositionBound(sorted, r, k);
    PositionBound(sorted, r, k + 1);
  }

  lemma PositionBound(sorted: seq<int>, r: nat, k: int)
    requires forall i, j :: 0 <= i < j < |sorted| ==> sorted[i] <= sorted[j]
    requires 1 <= r <= |sorted|
    ensures r <= CountBelow(sorted, k) <==> sorted[r - 1] < k
  {
    assert sorted == sorted[..r] + sorted[r..];
    CountSplit(sorted[..r], sorted[r..], k);
    AllBelow(sorted[..r], k);
    if sorted[r - 1] < k {
      assert CountBelow(sorted[..r], k) == r;
    } else {
      NoneBelow(sorted[r..], k);
      assert sorted[..r][r - 1] >= k;
      assert CountBelow(sorted[..r], k) != r;
    }
  }

  /* ---- median and 99% ---- */

  /** The rank a target of `n` counted values stands for: the scan never stops before the
      first key. */
  function RankFor(n: nat): (r: nat)
  {
    if n == 0 then 1 else n
  }

  function Middle(n: nat): (m: nat)
  {
    n / 2
  }

  function NinetyNine(n: nat): (m: nat)
    ensures Middle(n) <= m <= n
  {
    n * 99 / 100
  }

  lemma {:induction false} CountOfPrefix(samples: seq<int>, done: set<int>, k: int)
    requires forall s :: s in samples ==> (s in done <==> s < k)
    ensures CountIn(samples, done) == CountBelow(samples, k)
  {
    if samples != [] {
      assert samples[0] in samples;
      CountOfPrefix(samples[1..], done, k);
    }
  }

  /** With ascending keys, counting up to key i counts the samples up to its value. */
  lemma CountUpTo(keys: seq<int>, h: Histogram, samples: seq<int>, i: nat)
    requires Represents(h, samples) && KeysOf(keys, h) && Ascending(keys) && i < |keys|
    ensures CountIn(samples, SetOf(keys[..i])) == CountBelow(samples, keys[i])
    ensures CountIn(samples, SetOf(keys[..i + 1])) == CountBelow(samples, keys[i] + 1)
  {
    forall s | s in samples
      ensures (s in SetOf(keys[..i]) <==> s < keys[i]) && (s in SetOf(keys[..i + 1]) <==> s < keys[i] + 1)
    {
      var j :| 0 <= j < |keys| && keys[j] == s;
      if j < i { assert keys[..i][j] == s; }
      if j < i + 1 { assert keys[..i + 1][j] == s; }
    }
    CountOfPrefix(samples, SetOf(keys[..i]), keys[i]);
    CountOfPrefix(samples, SetOf(keys[..i + 1]), keys[i] + 1);
  }

  lemma KeyOccurs(keys: seq<int>, h: Histogram, samples: seq<int>, i: nat)
    requires Represents(h, samples) && KeysOf(keys, h) && i < |keys|
    ensures keys[i] in h && h[keys[i]] == multiset(samples)[keys[i]] > 0
  {
    var k := keys[i];
    assert k in keys;
    assert k in h;
    assert k in samples;
    assert k in multiset(samples);
  }

  lemma ScanStep(keys: seq<int>, h: Histogram, samples: seq<int>, i: nat)
    requires Represents(h, samples) && KeysOf(keys, h) && Ascending(keys) && i < |keys|
    ensures CountBelow(samples, keys[i]) + multiset(samples)[keys[i]] == CountBelow(samples, keys[i] + 1)
  {
    CountUpTo(keys, h, samples, i);
    NextKey(keys, i);
    hide CountBelow, CountIn, SetOf;
    CountOneKey(samples, SetOf(keys[..i]), keys[i]);
  }

  lemma ScanStarts(keys: seq<int>, h: Histogram, samples: seq<int>)
    requires Represents(h, samples) && KeysOf(keys, h) && Ascending(keys) && keys != []
    ensures CountBelow(samples, keys[0]) == 0
  {
    CountUpTo(keys, h, samples, 0);
    assert SetOf(keys[..0]) == {};
    NoneCounted(samples);
  }

  lemma AllAreKeys(keys: seq<int>, h: Histogram, samples: seq<int>)
    requires Represents(h, samples) && KeysOf(keys, h)
    ensures forall s :: s in samples ==> s in SetOf(keys)
  {
    forall s | s in samples ensures s in SetOf(keys) {
      assert s in h;
    }
  }

  lemma CountUpToLast(keys: seq<int>, h: Histogram, samples: seq<int>)
    requires Represents(h, samples) && KeysOf(keys, h) && Ascending(keys) && keys != []
    ensures CountIn(samples, SetOf(keys)) == CountBelow(samples, keys[|keys| - 1] + 1)
  {
    var n := |keys| - 1;
    CountUpTo(keys, h, samples, n);
    hide *;
    assert keys[..n + 1] == keys;
  }

  lemma ScanEnds(keys: seq<int>, h: Histogram, samples: seq<int>)
    requires Represents(h, samples) && KeysOf(keys, h) && Ascending(keys) && keys != []
    ensures CountBelow(samples, keys[|keys| - 1] + 1) == |samples|
  {
    hide *;
    AllAreKeys(keys, h, samples);
    CountUpToLast(keys, h, samples);
    AllCounted(samples, SetOf(keys));
  }

  lemma ScanLinks(keys: seq<int>, h: Histogram, samples: seq<int>, i: nat)
    requires Represents(h, samples) && KeysOf(keys, h) && Ascending(keys) && 0 < i < |keys|
    ensures CountBelow(samples, keys[i]) == CountBelow(samples, keys[i - 1] + 1)
  {
    CountUpTo(keys, h, samples, i);
    CountUpTo(keys, h, samples, i - 1);
  }

  /** One key of the scan: the count moves from below the key to up to it. */
  lemma ScanKey(keys: seq<int>, h: Histogram, samples: seq<int>, i: nat)
    requires Represents(h, samples) && KeysOf(keys, h) && Ascending(keys) && i < |keys|
    ensures keys[i] in h && h[keys[i]] > 0
    ensures CountBelow(samples, keys[i]) + h[keys[i]] == CountBelow(samples, keys[i] + 1)
    ensures i > 0 ==> CountBelow(samples, keys[i]) == CountBelow(samples, keys[i - 1] + 1)
    ensures i == 0 ==> CountBelow(samples, keys[i]) == 0
    ensures i == |keys| - 1 ==> CountBelow(samples, keys[i] + 1) == |samples|
  {
    hide CountBelow, Represents, KeysOf, Ascending;
    KeyOccurs(keys, h, samples, i);
    ScanStep(keys, h, samples, i);
    if i > 0 { ScanLinks(keys, h, samples, i); } else { ScanStarts(keys, h, samples); }
    if i == |keys| - 1 { ScanEnds(keys, h, samples); }
  }

  lemma {:induction false} CountMonotone(samples: seq<int>, j: int, k: int)
    requires j <= k
    ensures CountBelow(samples, j) <= CountBelow(samples, k)
  {
    if samples != [] { CountMonotone(samples[1..], j, k); }
  }

  lemma OneSampleOfARank(samples: seq<int>, r: nat, j: int, k: int)
    requires HasRank(samples, r, j) && HasRank(samples, r, k)
    ensures j == k
  {
    if j < k { CountMonotone(samples, j + 1, k); }
    if k < j { CountMonotone(samples, k + 1, j); }
  }

  /** The median variable after the keys up to `last` were counted; its 0 also means "not set". */
  ghost predicate MedianOk(samples: seq<int>, r: nat, last: int, median: int)
  {
    var current := CountBelow(samples, last + 1);
    && (current < r ==> median == 0)
    && (current >= r && !HasRank(samples, r, 0) ==> median != 0 && HasRank(samples, r, median))
    && (current >= r && HasRank(samples, r, 0) ==> 0 <= median <= last && (median == 0 <==> last == 0))
    && (current >= r && HasRank(samples, r, 0) && last != 0 ==> HasRank(samples, CountBelow(samples, 1) + 1, median))
  }

  /** The first key. */
  lemma MedianStarts(samples: seq<int>, n: nat, k: int)
    requires CountBelow(samples, k) == 0 < CountBelow(samples, k + 1)
    ensures MedianOk(samples, RankFor(n), k, if CountBelow(samples, k + 1) >= n then k else 0)
  {
    var r := RankFor(n);
    if HasRank(samples, r, k) && HasRank(samples, r, 0) { OneSampleOfARank(samples, r, 0, k); }
    if HasRank(samples, r, 0) && k < 0 { CountMonotone(samples, k + 1, 0); }
  }

  /** Every further key. */
  lemma MedianMoves(samples: seq<int>, n: nat, last: int, k: int, median: int)
    requires MedianOk(samples, RankFor(n), last, median) && last < k
    requires CountBelow(samples, k) == CountBelow(samples, last + 1)
    requires 0 < CountBelow(samples, k) < CountBelow(samples, k + 1)
    ensures MedianOk(samples, RankFor(n), k, if median == 0 && CountBelow(samples, k + 1) >= n then k else median)
  {
    var r := RankFor(n);
    if HasRank(samples, r, k) && HasRank(samples, r, 0) { OneSampleOfARank(samples, r, 0, k); }
    if HasRank(samples, r, 0) && k < 0 { CountMonotone(samples, k + 1, 0); }
  }

  /** When the scan stops at key `last`, the median is right unless it is 0 and the scan went on. */
  lemma MedianAtStop(samples: seq<int>, n: nat, stop: nat, last: int, median: int)
    requires MedianOk(samples, RankFor(n), last, median) && n <= stop
    requires CountBelow(samples, last) < RankFor(stop) <= CountBelow(samples, last + 1)
    ensures HasRank(samples, RankFor(n), median) <==>
            !(HasRank(samples, RankFor(n), 0) && CountBelow(samples, 1) < stop)
    ensures HasRank(samples, RankFor(n), 0) && CountBelow(samples, 1) < stop ==>
              HasRank(samples, CountBelow(samples, 1) + 1, median)
  {
    var r := RankFor(n);
    if HasRank(samples, r, 0) {
      if last == 0 {
      } else {
        CountMonotone(samples, 1, last);
        if HasRank(samples, r, median) { OneSampleOfARank(samples, r, 0, median); }
      }
    }
  }

  /** The sample of the median's rank is 0, and the scan does not stop there. */
  predicate PassesZero(samples: seq<int>)
  {
    HasRank(samples, RankFor(Middle(|samples|)), 0) && CountBelow(samples, 1) < NinetyNine(|samples|)
  }

  /** The same in numbers: with `below` smaller samples and `upTo` up to the value. */
  lemma RanksInNumbers(samples: seq<int>, k: int)
    requires samples != []
    ensures var n, below, upTo := |samples|, CountBelow(samples, k), CountBelow(samples, k + 1);
            && (HasRank(samples, RankFor(Middle(n)), k) <==>
                  (below == 0 || 2 * below + 2 <= n) && 1 <= upTo && n <= 2 * upTo + 1)
            && (HasRank(samples, RankFor(NinetyNine(n)), k) <==>
                  (below == 0 || 100 * (below + 1) <= 99 * n) && 1 <= upTo && 99 * n < 100 * (upTo + 1))
  {
  }

  /** Zero is passed: it has the median's rank, and fewer than 99% of the samples are at most 0. */
  lemma PassesZeroInNumbers(samples: seq<int>)
    requires samples != []
    ensures var n, negative, upToZero := |samples|, CountBelow(samples, 0), CountBelow(samples, 1);
            PassesZero(samples) <==>
              && (negative == 0 || 2 * negative + 2 <= n) && 1 <= upToZero && n <= 2 * upToZero + 1
              && 100 * (upToZero + 1) <= 99 * n
  {
    RanksInNumbers(samples, 0);
  }

  lemma {:induction false} NoneBetween(samples: seq<int>, j: int, k: int)
    requires j <= k && CountBelow(samples, j) == CountBelow(samples, k)
    ensures forall s :: s in samples ==> s < j || k <= s
  {
    if samples != [] {
      CountMonotone(samples[1..], j, k);
      NoneBetween(samples[1..], j, k);
      forall s | s in samples ensures s == samples[0] || s in samples[1..] {
      }
    }
  }

  lemma {:induction false} SomeAt(samples: seq<int>, k: int)
    requires CountBelow(samples, k) < CountBelow(samples, k + 1)
    ensures k in samples
  {
    if samples[0] != k { SomeAt(samples[1..], k); }
  }

  lemma SmallestPositive(samples: seq<int>, k: int)
    requires HasRank(samples, CountBelow(samples, 1) + 1, k)
    ensures k in samples && k > 0 && forall s :: s in samples && s > 0 ==> k <= s
  {
    if k <= 0 {
      CountMonotone(samples, k + 1, 1);
    } else {
      CountMonotone(samples, 1, k);
      NoneBetween(samples, 1, k);
      SomeAt(samples, k);
    }
  }

  lemma SomeKey(keys: seq<int>, h: Histogram, samples: seq<int>)
    requires Represents(h, samples) && KeysOf(keys, h) && samples != []
    ensures keys != []
  {
    var head := samples[0];
    assert head in samples;
    assert head in keys;
  }

  /** The scan after the first `i` keys, none of which reached `stop`. */
  ghost predicate Scanned(samples: seq<int>, keys: seq<int>, i: nat, n: nat, stop: nat, current: nat, median: int)
    requires i <= |keys|
  {
    if i == 0 then current == 0 && median == 0
    else
      && current == CountBelow(samples, keys[i - 1] + 1) && 0 < current < stop
      && MedianOk(samples, RankFor(n), keys[i - 1], median)
  }

  ghost predicate QuantilesOk(samples: seq<int>, median: int, p99: int)
  {
    && HasRank(samples, RankFor(NinetyNine(|samples|)), p99)
    && (HasRank(samples, RankFor(Middle(|samples|)), median) <==> !PassesZero(samples))
    && (PassesZero(samples) ==> HasRank(samples, CountBelow(samples, 1) + 1, median))
  }

  lemma MedianAfter(keys: seq<int>, h: Histogram, samples: seq<int>, i: nat, n: nat, stop: nat,
                    current: nat, median: int)
    requires Represents(h, samples) && KeysOf(keys, h) && Ascending(keys) && i < |keys|
    requires Scanned(samples, keys, i, n, stop, current, median)
    ensures keys[i] in h && current == CountBelow(samples, keys[i])
    ensures 0 < current + h[keys[i]] == CountBelow(samples, keys[i] + 1)
    ensures MedianOk(samples, RankFor(n), keys[i],
                     if median == 0 && current + h[keys[i]] >= n then keys[i] else median)
  {
    hide MedianOk, Represents, KeysOf, CountBelow, RankFor;
    ScanKey(keys, h, samples, i);
    if i == 0 {
      MedianStarts(samples, n, keys[i]);
    } else {
      MedianMoves(samples, n, keys[i - 1], keys[i], median);
    }
  }

  /** One turn of the loop. */
  lemma ScanTurn(keys: seq<int>, h: Histogram, samples: seq<int>, i: nat, current: nat, median: int)
    requires Represents(h, samples) && KeysOf(keys, h) && Ascending(keys) && i < |keys|
    requires Scanned(samples, keys, i, Middle(|samples|), NinetyNine(|samples|), current, median)
    ensures keys[i] in h && samples != []
    ensures var n, stop := Middle(|samples|), NinetyNine(|samples|);
            var c := current + h[keys[i]];
            var m := if median == 0 && c >= n then keys[i] else median;
            if c >= stop then QuantilesOk(samples, m, keys[i])
            else Scanned(samples, keys, i + 1, n, stop, c, m)
  {
    hide MedianOk, Represents, KeysOf, Ascending, CountBelow;
    var n, stop := Middle(|samples|), NinetyNine(|samples|);
    MedianAfter(keys, h, samples, i, n, stop, current, median);
    var c := current + h[keys[i]];
    if c >= stop {
      MedianAtStop(samples, n, stop, keys[i], if median == 0 && c >= n then keys[i] else median);
    }
  }

  /** The scan does not get past the last key. */
  lemma ScanStops(keys: seq<int>, h: Histogram, samples: seq<int>, current: nat, median: int)
    requires Represents(h, samples) && KeysOf(keys, h) && Ascending(keys)
    requires Scanned(samples, keys, |keys|, Middle(|samples|), NinetyNine(|samples|), current, median)
    ensures samples == [] && median == 0
  {
    if samples != [] {
      SomeKey(keys, h, samples);
    }
    if keys != [] {
      ScanKey(keys, h, samples, |keys| - 1);
    }
  }

  /** The cumulative scan over the sorted keys: the 99% value has its rank, and the median has
      its rank exactly if that sample is not 0 or the scan stops there; otherwise it is the
      smallest positive sample. Without a 0 among the samples it always has its rank. */
  method Quantiles(keys: seq<int>, h: Histogram, ghost samples: seq<int>) returns (median: int, p99: int)
    requires Represents(h, samples) && KeysOf(keys, h) && Ascending(keys)
    ensures samples == [] ==> median == 0 && p99 == 0
    ensures samples != [] ==> HasRank(samples, RankFor(NinetyNine(|samples|)), p99)
    ensures samples != [] ==> (HasRank(samples, RankFor(Middle(|samples|)), median) <==> !PassesZero(samples))
    ensures PassesZero(samples) ==> HasRank(samples, CountBelow(samples, 1) + 1, median)
    ensures samples != [] && 0 !in samples ==> HasRank(samples, RankFor(Middle(|samples|)), median)
    ensures var n, below, upTo := |samples|, CountBelow(samples, median), CountBelow(samples, median + 1);
            var negative, upToZero := CountBelow(samples, 0), CountBelow(samples, 1);
            var zeroIsPassed := (negative == 0 || 2 * negative + 2 <= n) && 1 <= upToZero &&
                                n <= 2 * upToZero + 1 && 100 * (upToZero + 1) <= 99 * n;
            && (n > 0 ==> ((below == 0 || 2 * below + 2 <= n) && 1 <= upTo && n <= 2 * upTo + 1 <==> !zeroIsPassed))
            && (n > 0 && zeroIsPassed ==>
                  median in samples && median > 0 && forall s :: s in samples && s > 0 ==> median <= s)
    ensures var n, below, upTo := |samples|, CountBelow(samples, p99), CountBelow(samples, p99 + 1);
            n > 0 ==> (below == 0 || 100 * (below + 1) <= 99 * n) && 1 <= upTo && 99 * n < 100 * (upTo + 1)
  {
    hide Represents, KeysOf, Ascending, HasRank, MedianOk, CountBelow, RankFor;
    var nbrValues := NbrValues(keys, h, samples);
    var middleNbr, ninenineNbr := Middle(nbrValues), NinetyNine(nbrValues);
    var current := 0;
    median, p99 := 0, 0;
    NoRankOutside(samples, 0);
    for i := 0 to |keys|
      invariant Scanned(samples, keys, i, middleNbr, ninenineNbr, current, median)
    {
      ScanTurn(keys, h, samples, i, current, median);
      current := current + h[keys[i]];
      if median == 0 && current >= middleNbr {
        median := keys[i];
      }
      if current >= ninenineNbr {
        p99 := keys[i];
        QuantilesInNumbers(samples, median, p99);
        return;
      }
    }
    ScanStops(keys, h, samples, current, median);
  }

  lemma QuantilesInNumbers(samples: seq<int>, median: int, p99: int)
    requires samples != [] && QuantilesOk(samples, median, p99)
    ensures var n, below, upTo := |samples|, CountBelow(samples, median), CountBelow(samples, median + 1);
            var negative, upToZero := CountBelow(samples, 0), CountBelow(samples, 1);
            var zeroIsPassed := (negative == 0 || 2 * negative + 2 <= n) && 1 <= upToZero &&
                                n <= 2 * upToZero + 1 && 100 * (upToZero + 1) <= 99 * n;
            && ((below == 0 || 2 * below + 2 <= n) && 1 <= upTo && n <= 2 * upTo + 1 <==> !zeroIsPassed)
            && (zeroIsPassed ==>
                  median in samples && median > 0 && forall s :: s in samples && s > 0 ==> median <= s)
    ensures var n, below, upTo := |samples|, CountBelow(samples, p99), CountBelow(samples, p99 + 1);
            (below == 0 || 100 * (below + 1) <= 99 * n) && 1 <= upTo && 99 * n < 100 * (upTo + 1)
  {
    RanksInNumbers(samples, median);
    RanksInNumbers(samples, p99);
    PassesZeroInNumbers(samples);
    if PassesZero(samples) { SmallestPositive(samples, median); }
    hide HasRank, CountBelow, PassesZero, Middle, NinetyNine, RankFor;
  }

  /** Only a sample can have a rank. */
  lemma {:induction false} NoRankOutside(samples: seq<int>, k: int)
    ensures k !in samples ==> CountBelow(samples, k) == CountBelow(samples, k + 1)
    ensures k !in samples ==> forall r: nat :: !HasRank(samples, r, k)
  {
    if samples != [] {
      var head := samples[0];
      assert head in samples;
      NoRankOutside(samples[1..], k);
    }
  }

  /** The samples 0, 0, 5, 6: rank 2 is a 0, and the scan makes it 5. */
  method MedianOfFour() returns (median: int, p99: int)
    ensures median == 5 && p99 == 5
    ensures HasRank([0, 0, 5, 6], 2, 0)
  {
    var keys, samples := [0, 5, 6], [0, 0, 5, 6];
    var h := map[0 := 2, 5 := 1, 6 := 1];
    FourCounts(h, samples);
    FourKeys(keys, h);
    RanksOfFour(samples);
    hide *;
    median, p99 := Quantiles(keys, h, samples);
    ThirdOfFour(samples, median);
    ThirdOfFour(samples, p99);
  }

  lemma FourKeys(keys: seq<int>, h: Histogram)
    requires keys == [0, 5, 6] && h == map[0 := 2, 5 := 1, 6 := 1]
    ensures KeysOf(keys, h) && Ascending(keys)
  {
  }

  lemma ThirdOfFour(samples: seq<int>, k: int)
    requires samples == [0, 0, 5, 6] && HasRank(samples, 3, k)
    ensures k == 5
  {
    RankIsPosition(samples, samples, 3, k);
  }

  lemma FourCounts(h: Histogram, samples: seq<int>)
    requires samples == [0, 0, 5, 6] && h == map[0 := 2, 5 := 1, 6 := 1]
    ensures Represents(h, samples)
  {
    assert multiset(samples) == multiset{0, 0, 5, 6};
    assert samples[0] == 0 && samples[2] == 5 && samples[3] == 6;
  }

  lemma RanksOfFour(samples: seq<int>)
    requires samples == [0, 0, 5, 6]
    ensures HasRank(samples, RankFor(Middle(4)), 0) && CountBelow(samples, 1) == 2
    ensures PassesZero(samples) && RankFor(NinetyNine(4)) == 3
  {
    RankIsPosition(samples, samples, 2, 0);
    RankIsPosition(samples, samples, 3, 5);
    PositionBound(samples, 2, 1);
    PositionBound(samples, 3, 1);
  }

  /* ---- latency ranges ---- */

  /** Lower and upper bound in microseconds; keys are nanoseconds. */
  type Range = (nat, nat)

  const NSEC_PER_USEC := 1000

  predicate Inside(d: int, r: Range)
  {
    d >= NSEC_PER_USEC * r.0 && d < NSEC_PER_USEC * r.1
  }

  /** Each range starts where the one before it ends. */
  predicate Contiguous(thresholds: seq<Range>)
  {
    && thresholds != []
    && (forall i :: 0 <= i < |thresholds| ==> thresholds[i].0 < thresholds[i].1)
    && (forall i :: 0 < i < |thresholds| ==> thresholds[i - 1].1 == thresholds[i].0)
  }

  const BELOW_27_USEC: seq<Range> := [
    (0, 1), (1, 2), (2, 3), (3, 4), (4, 5), (5, 6), (6, 7), (7, 8), (8, 9), (9, 10), (10, 11), (11, 13),
    (13, 16), (16, 19), (19, 23), (23, 27)]

  const FROM_27_USEC: seq<Range> := [
    (27, 32), (32, 40), (40, 50), (50, 60), (60, 70), (70, 80), (80, 90), (90, 100), (100, 150), (150, 200),
    (200, 250), (250, 300), (300, 400), (400, 500), (500, 800), (800, 1000), (1000, 100000), (100000, 100000000)]

  const THRESHOLDS: seq<Range> := BELOW_27_USEC + FROM_27_USEC

  lemma JoinedRanges(a: seq<Range>, b: seq<Range>)
    requires Contiguous(a) && Contiguous(b) && a[|a| - 1].1 == b[0].0
    ensures Contiguous(a + b)
  {
    var c := a + b;
    forall i | 0 < i < |c| ensures c[i - 1].1 == c[i].0 {
      if i < |a| {
        assert c[i] == a[i];
      } else if i > |a| {
        assert c[i] == b[i - |a|] && c[i - 1] == b[i - |a| - 1];
      }
    }
  }

  lemma TheThresholdsAreContiguous()
    ensures Contiguous(THRESHOLDS)
  {
    assert Contiguous(BELOW_27_USEC);
    assert Contiguous(FROM_27_USEC);
    JoinedRanges(BELOW_27_USEC, FROM_27_USEC);
  }

  lemma {:induction false} RangesAscend(thresholds: seq<Range>, i: nat, j: nat)
    requires Contiguous(thresholds) && i < j < |thresholds|
    ensures thresholds[i].1 <= thresholds[j].0
    decreases j - i
  {
    if i + 1 < j { RangesAscend(thresholds, i, j - 1); }
  }

  /** A value lies in at most one range. */
  lemma AtMostOneRange(thresholds: seq<Range>, d: int, i: nat, j: nat)
    requires Contiguous(thresholds) && i < |thresholds| && j < |thresholds|
    requires Inside(d, thresholds[i]) && Inside(d, thresholds[j])
    ensures i == j
  {
    if i < j { RangesAscend(thresholds, i, j); }
    if j < i { RangesAscend(thresholds, j, i); }
  }

  predicate InSomeRange(d: int, thresholds: seq<Range>)
  {
    exists i :: 0 <= i < |thresholds| && Inside(d, thresholds[i])
  }

  lemma {:induction false} SomeRange(thresholds: seq<Range>, d: int, k: nat)
    requires Contiguous(thresholds) && k < |thresholds|
    requires NSEC_PER_USEC * thresholds[0].0 <= d < NSEC_PER_USEC * thresholds[k].1
    ensures InSomeRange(d, thresholds)
    decreases k
  {
    if d < NSEC_PER_USEC * thresholds[k].0 {
      SomeRange(thresholds, d, k - 1);
    } else {
      assert Inside(d, thresholds[k]);
    }
  }

  /** What no range takes is what is below the first or not below the last. */
  lemma OutOfRange(thresholds: seq<Range>, d: int)
    requires Contiguous(thresholds)
    ensures InSomeRange(d, thresholds) <==>
            NSEC_PER_USEC * thresholds[0].0 <= d < NSEC_PER_USEC * thresholds[|thresholds| - 1].1
  {
    var n := |thresholds| - 1;
    if InSomeRange(d, thresholds) {
      var i :| 0 <= i < |thresholds| && Inside(d, thresholds[i]);
      if i < n { RangesAscend(thresholds, i, n); }
      if 0 < i { RangesAscend(thresholds, 0, i); }
    } else if NSEC_PER_USEC * thresholds[0].0 <= d && d < NSEC_PER_USEC * thresholds[n].1 {
      SomeRange(thresholds, d, n);
    }
  }

  /* ---- bucketing ---- */

  /** Samples in one range. */
  function CountInside(samples: seq<int>, r: Range): (c: nat)
  {
    if samples == [] then 0 else CountInside(samples[1..], r) + if Inside(samples[0], r) then 1 else 0
  }

  function PositionsInside(samples: seq<int>, r: Range): (s: set<int>)
  {
    set i | 0 <= i < |samples| && 1000 * r.0 <= samples[i] < 1000 * r.1
  }

  lemma InsideSplit(a: seq<int>, d: int, r: Range)
    ensures CountInside(a + [d], r) == CountInside(a, r) + if Inside(d, r) then 1 else 0
    decreases |a|
  {
    if a == [] {
      assert a + [d] == [d];
    } else {
      assert (a + [d])[1..] == a[1..] + [d];
      InsideSplit(a[1..], d, r);
    }
  }

  lemma {:induction false} CountInsideIsNumber(samples: seq<int>, r: Range)
    ensures CountInside(samples, r) == |PositionsInside(samples, r)|
    decreases |samples|
  {
    if samples == [] {
      assert PositionsInside(samples, r) == {};
    } else {
      var n := |samples| - 1;
      CountInsideIsNumber(samples[..n], r);
      assert samples == samples[..n] + [samples[n]];
      InsideSplit(samples[..n], samples[n], r);
      assert PositionsInside(samples, r) ==
        if Inside(samples[n], r) then PositionsInside(samples[..n], r) + {n} else PositionsInside(samples[..n], r);
    }
  }

  lemma {:induction false} CountInsideIsCountIn(samples: seq<int>, r: Range, done: set<int>)
    requires forall s :: s in samples ==> (s in done <==> Inside(s, r))
    ensures CountIn(samples, done) == CountInside(samples, r)
  {
    if samples != [] {
      var head := samples[0];
      assert head in samples;
      CountInsideIsCountIn(samples[1..], r, done);
    }
  }

  /** The keys among the first `i` that fall into range `r`. */
  function KeysInside(keys: seq<int>, i: nat, r: Range): (s: set<int>)
    requires i <= |keys|
  {
    set d | d in keys[..i] && Inside(d, r)
  }

  lemma NextKeyInside(keys: seq<int>, i: nat, r: Range)
    requires Distinct(keys) && i < |keys|
    ensures keys[i] !in KeysInside(keys, i, r)
    ensures Inside(keys[i], r) ==> KeysInside(keys, i + 1, r) == KeysInside(keys, i, r) + {keys[i]}
    ensures !Inside(keys[i], r) ==> KeysInside(keys, i + 1, r) == KeysInside(keys, i, r)
  {
    assert keys[..i + 1] == keys[..i] + [keys[i]];
  }

  /** The first range that takes `d` nanoseconds, or none; ranges are in microseconds. */
  method FindRange(thresholds: seq<Range>, d: int) returns (i: nat)
    ensures i <= |thresholds|
    ensures i < |thresholds| ==> 1000 * thresholds[i].0 <= d < 1000 * thresholds[i].1
    ensures forall j :: 0 <= j < i ==> !(1000 * thresholds[j].0 <= d < 1000 * thresholds[j].1)
    ensures i == |thresholds| <==> !InSomeRange(d, thresholds)
  {
    i := 0;
    while i < |thresholds|
      invariant i <= |thresholds| && forall j :: 0 <= j < i ==> !Inside(d, thresholds[j])
    {
      if d >= NSEC_PER_USEC * thresholds[i].0 && d < NSEC_PER_USEC * thresholds[i].1 {
        return;
      }
      i := i + 1;
    }
  }

  /** The bucketing loop: bucket i holds the samples of range i, and exactly the values outside
      all ranges stay in the dictionary. */
  method Bucketize(keys: seq<int>, h: Histogram, thresholds: seq<Range>, ghost samples: seq<int>)
    returns (buckets: seq<nat>, rest: Histogram)
    requires Represents(h, samples) && KeysOf(keys, h) && Contiguous(thresholds)
    ensures |buckets| == |thresholds|
    ensures forall b :: 0 <= b < |buckets| ==> buckets[b] == CountInside(samples, thresholds[b])
    ensures forall b: nat :: b < |buckets| ==>
              buckets[b] == |set i | 0 <= i < |samples| &&
                               1000 * thresholds[b].0 <= samples[i] < 1000 * thresholds[b].1|
    ensures forall d :: d in rest <==> d in h && !InSomeRange(d, thresholds)
    ensures forall d :: d in rest ==> rest[d] == h[d]
  {
    buckets := seq(|thresholds|, _ => 0);
    var toPop: set<int> := {};
    NoneCounted(samples);
    assert forall r :: KeysInside(keys, 0, r) == {};
    for i := 0 to |keys|
      invariant |buckets| == |thresholds|
      invariant forall b :: 0 <= b < |buckets| ==> buckets[b] == CountIn(samples, KeysInside(keys, i, thresholds[b]))
      invariant forall d :: d in toPop <==> d in keys[..i] && InSomeRange(d, thresholds)
    {
      var diff := keys[i];
      var b := FindRange(thresholds, diff);
      if b < |thresholds| {
        assert diff in h;
        buckets := buckets[b := buckets[b] + h[diff]];
        toPop := toPop + {diff};
      }
      forall c | 0 <= c < |buckets|
        ensures buckets[c] == CountIn(samples, KeysInside(keys, i + 1, thresholds[c]))
      {
        NextKeyInside(keys, i, thresholds[c]);
        if Inside(diff, thresholds[c]) {
          AtMostOneRange(thresholds, diff, b, c);
          CountOneKey(samples, KeysInside(keys, i, thresholds[c]), diff);
        }
      }
      assert keys[..i + 1] == keys[..i] + [diff];
    }
    assert keys[..|keys|] == keys;
    forall b | 0 <= b < |buckets| ensures buckets[b] == CountInside(samples, thresholds[b]) {
      CountInsideIsCountIn(samples, thresholds[b], KeysInside(keys, |keys|, thresholds[b]));
    }
    forall b: nat | b < |buckets| ensures buckets[b] == |PositionsInside(samples, thresholds[b])| {
      CountInsideIsNumber(samples, thresholds[b]);
    }
    rest := h - toPop;
  }

  function Total(buckets: seq<nat>): (n: nat)
  {
    if buckets == [] then 0 else Total(buckets[..|buckets| - 1]) + buckets[|buckets| - 1]
  }

  lemma {:induction false} RangeByBounds(samples: seq<int>, r: Range)
    requires r.0 <= r.1
    ensures CountBelow(samples, NSEC_PER_USEC * r.0) + CountInside(samples, r)
            == CountBelow(samples, NSEC_PER_USEC * r.1)
  {
    if samples != [] { RangeByBounds(samples[1..], r); }
  }

  lemma {:induction false} BucketsBetween(samples: seq<int>, thresholds: seq<Range>, buckets: seq<nat>)
    requires Contiguous(thresholds) && |buckets| == |thresholds|
    requires forall b :: 0 <= b < |buckets| ==> buckets[b] == CountInside(samples, thresholds[b])
    ensures CountBelow(samples, NSEC_PER_USEC * thresholds[0].0) + Total(buckets)
            == CountBelow(samples, NSEC_PER_USEC * thresholds[|thresholds| - 1].1)
    decreases |buckets|
  {
    var n := |buckets| - 1;
    RangeByBounds(samples, thresholds[n]);
    if n > 0 {
      BucketsBetween(samples, thresholds[..n], buckets[..n]);
    }
  }

  /** The samples in no range. */
  function Outside(samples: seq<int>, thresholds: seq<Range>): (s: seq<int>)
  {
    if samples == [] then []
    else (if InSomeRange(samples[0], thresholds) then [] else [samples[0]]) + Outside(samples[1..], thresholds)
  }

  lemma {:induction false} OutsideIsBelowOrAbove(samples: seq<int>, thresholds: seq<Range>)
    requires Contiguous(thresholds)
    ensures CountBelow(samples, NSEC_PER_USEC * thresholds[0].0) + |samples|
            == |Outside(samples, thresholds)| + CountBelow(samples, NSEC_PER_USEC * thresholds[|thresholds| - 1].1)
  {
    if samples != [] {
      hide InSomeRange;
      OutsideIsBelowOrAbove(samples[1..], thresholds);
      OutOfRange(thresholds, samples[0]);
      RangesGrow(thresholds);
    }
  }

  lemma RangesGrow(thresholds: seq<Range>)
    requires Contiguous(thresholds)
    ensures thresholds[0].0 < thresholds[|thresholds| - 1].1
  {
    if |thresholds| > 1 { RangesAscend(thresholds, 0, |thresholds| - 1); }
  }

  lemma {:induction false} OutsideKeepsCounts(samples: seq<int>, thresholds: seq<Range>, d: int)
    ensures multiset(Outside(samples, thresholds))[d] ==
            if InSomeRange(d, thresholds) then 0 else multiset(samples)[d]
  {
    hide InSomeRange;
    if samples != [] {
      OutsideKeepsCounts(samples[1..], thresholds, d);
      MultisetHead(samples);
      if !InSomeRange(samples[0], thresholds) {
        MultisetHead(Outside(samples, thresholds));
        assert Outside(samples, thresholds)[1..] == Outside(samples[1..], thresholds);
      } else {
        assert [] + Outside(samples[1..], thresholds) == Outside(samples[1..], thresholds);
      }
    }
  }

  /** What stays in the dictionary stands for the samples in no range. */
  lemma LeftoversStandForOutside(h: Histogram, samples: seq<int>, thresholds: seq<Range>, rest: Histogram)
    requires Represents(h, samples)
    requires forall d :: d in rest <==> d in h && !InSomeRange(d, thresholds)
    requires forall d :: d in rest ==> rest[d] == h[d]
    ensures Represents(rest, Outside(samples, thresholds))
  {
    hide InSomeRange, Outside;
    var outside := Outside(samples, thresholds);
    forall d ensures multiset(outside)[d] == if InSomeRange(d, thresholds) then 0 else multiset(samples)[d] {
      OutsideKeepsCounts(samples, thresholds, d);
    }
    forall d ensures d in rest <==> d in outside {
      assert d in samples <==> d in multiset(samples);
      assert d in outside <==> d in multiset(outside);
    }
  }

  /** With the script's ranges no sample is lost or counted twice: the buckets and the leftovers
      that it writes out add up to the sample count. */
  method BucketsConserveSamples(keys: seq<int>, h: Histogram, ghost samples: seq<int>)
    returns (buckets: seq<nat>, rest: Histogram)
    requires Represents(h, samples) && KeysOf(keys, h)
    ensures |buckets| == |THRESHOLDS|
    ensures forall b :: 0 <= b < |buckets| ==> buckets[b] == CountInside(samples, THRESHOLDS[b])
    ensures Represents(rest, Outside(samples, THRESHOLDS))
    ensures forall left :: KeysOf(left, rest) ==> Total(buckets) + ValueSum(rest, left) == |samples|
  {
    hide Represents, KeysOf, InSomeRange;
    TheThresholdsAreContiguous();
    var thresholds := THRESHOLDS;
    buckets, rest := Bucketize(keys, h, thresholds, samples);
    BucketsBetween(samples, thresholds, buckets);
    OutsideIsBelowOrAbove(samples, thresholds);
    LeftoversStandForOutside(h, samples, thresholds, rest);
    forall left | KeysOf(left, rest) ensures Total(buckets) + ValueSum(rest, left) == |samples| {
      ValuesCountSamples(left, rest, Outside(samples, thresholds));
    }
  }
}
