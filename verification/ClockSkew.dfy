/** The clock self-diagnosis: the median of what peers claim, and how far a minority can move it. */
module ClockSkew {
  import opened Events

  const MIN64: int := -0x8000_0000_0000_0000
  const MAX64: int := 0x7FFF_FFFF_FFFF_FFFF
  const HALF: int := 0x4000_0000_0000_0000

  predicate IsI64(x: int) {
    MIN64 <= x <= MAX64
  }

  /** Addition and absolute value of 64-bit integers wrap around. */
  function Wrap(x: int): int {
    if x > MAX64 then x - 0x1_0000_0000_0000_0000
    else if x < MIN64 then x + 0x1_0000_0000_0000_0000
    else x
  }

  /** Division by two, rounding toward zero. */
  function TruncHalf(x: int): int {
    if x >= 0 then x / 2 else -(-x / 2)
  }

  function Insert(s: seq<int>, x: int): seq<int> {
    if s == [] || x <= s[0] then [x] + s else [s[0]] + Insert(s[1..], x)
  }

  function Sort(s: seq<int>): seq<int> {
    if s == [] then [] else Insert(Sort(s[1..]), s[0])
  }

  ghost predicate IsSortOf(sorted: seq<int>, s: seq<int>) {
    Ordered(sorted) && multiset(sorted) == multiset(s) && |sorted| == |s|
  }

  ghost predicate Ordered(s: seq<int>) {
    forall i, j :: 0 <= i < j < |s| ==> s[i] <= s[j]
  }

  ghost predicate AtLeast(s: seq<int>, b: int) {
    forall i :: 0 <= i < |s| ==> s[i] >= b
  }

  lemma {:induction false} InsertSorts(s: seq<int>, x: int, b: int)
    requires Ordered(s) && AtLeast(s, b) && x >= b
    ensures Ordered(Insert(s, x)) && AtLeast(Insert(s, x), b)
    decreases |s|
  {
    if s != [] && x > s[0] {
      InsertSorts(s[1..], x, s[0]);
    }
  }

  lemma {:induction false} InsertAdds(s: seq<int>, x: int)
    ensures multiset(Insert(s, x)) == multiset(s) + multiset{x} && |Insert(s, x)| == |s| + 1
    decreases |s|
  {
    if s != [] {
      assert s == [s[0]] + s[1..];
      if x > s[0] {
        InsertAdds(s[1..], x);
      }
    }
  }

  lemma {:induction false} SortOrders(s: seq<int>)
    ensures Ordered(Sort(s))
    decreases |s|
  {
    if s != [] {
      var t := Sort(s[1..]);
      SortOrders(s[1..]);
      InsertSorts(t, s[0], if t == [] || s[0] < t[0] then s[0] else t[0]);
    }
  }

  lemma {:induction false} SortPermutes(s: seq<int>)
    ensures multiset(Sort(s)) == multiset(s) && |Sort(s)| == |s|
    decreases |s|
  {
    if s != [] {
      SortPermutes(s[1..]);
      InsertAdds(Sort(s[1..]), s[0]);
      assert s == [s[0]] + s[1..];
    }
  }

  lemma SortSorts(s: seq<int>)
    ensures IsSortOf(Sort(s), s)
  {
    SortOrders(s);
    SortPermutes(s);
  }

  /** The middle value, or the truncated mean of the two middle values. */
  function MedianOf(sorted: seq<int>): int
    requires sorted != []
  {
    var n := |sorted|;
    if n % 2 == 1 then sorted[n / 2] else TruncHalf(Wrap(sorted[n / 2 - 1] + sorted[n / 2]))
  }

  function Median(samples: seq<int>): int
    requires samples != []
  {
    SortSorts(samples);
    MedianOf(Sort(samples))
  }

  lemma LeastFirst(a: seq<int>, b: seq<int>)
    requires Ordered(a) && a != [] && b != [] && multiset(a) == multiset(b)
    ensures a[0] <= b[0]
  {
    assert b[0] in multiset(a);
  }

  lemma WithoutFirst(s: seq<int>)
    requires s != []
    ensures multiset(s[1..]) == multiset(s) - multiset{s[0]}
  {
    assert s == [s[0]] + s[1..];
  }

  /** There is one way to sort a list. */
  lemma {:induction false} SortIsUnique(a: seq<int>, b: seq<int>)
    requires Ordered(a) && Ordered(b) && multiset(a) == multiset(b)
    ensures a == b
    decreases |a|
  {
    assert |multiset(a)| == |a| && |multiset(b)| == |b|;
    if a != [] {
      LeastFirst(a, b);
      LeastFirst(b, a);
      WithoutFirst(a);
      WithoutFirst(b);
      SortIsUnique(a[1..], b[1..]);
      assert a == [a[0]] + a[1..] && b == [b[0]] + b[1..];
    }
  }

  /** So the median does not depend on how the samples are sorted. */
  lemma MedianOfAnySort(samples: seq<int>, sorted: seq<int>)
    requires samples != [] && IsSortOf(sorted, samples)
    ensures MedianOf(sorted) == Median(samples)
  {
    SortSorts(samples);
    SortIsUnique(sorted, Sort(samples));
  }

  method SortSamples(samples: seq<int>) returns (sorted: seq<int>)
    ensures IsSortOf(sorted, samples)
  {
    sorted := [];
    for n := 0 to |samples|
      invariant IsSortOf(sorted, samples[..n])
    {
      var x := samples[n];
      InsertSorts(sorted, x, if sorted == [] || x < sorted[0] then x else sorted[0]);
      InsertAdds(sorted, x);
      sorted := Insert(sorted, x);
      assert samples[..n + 1] == samples[..n] + [x];
    }
    assert samples[..|samples|] == samples;
  }

  /**
   The median of the samples however sorted, and a warning when it is further from zero than the
   threshold; the one 64-bit value without an absolute value raises none.
   */
  method ClockSkewStatus(samples: seq<int>, threshold: int) returns (median: Option<int>, warning: bool)
    requires IsI64(threshold) && forall i :: 0 <= i < |samples| ==> IsI64(samples[i])
    ensures median.None? <==> samples == []
    ensures forall sorted :: IsSortOf(sorted, samples) && sorted != [] ==> median == Some(MedianOf(sorted))
    ensures warning <==> median.Some? && median.value != MIN64 && (median.value > threshold || -median.value > threshold)
  {
    if samples == [] {
      return None, false;
    }
    var sorted := SortSamples(samples);
    var n := |sorted|;
    var m: int;
    if n % 2 == 1 {
      m := sorted[n / 2];
    } else {
      m := TruncHalf(Wrap(sorted[n / 2 - 1] + sorted[n / 2]));
    }
    median := Some(m);
    warning := Wrap(if m < 0 then -m else m) > threshold;
    MedianIsI64(samples, sorted);
    forall other | IsSortOf(other, samples) && other != [] ensures median == Some(MedianOf(other)) {
      SortIsUnique(sorted, other);
    }
  }

  lemma MedianIsI64(samples: seq<int>, sorted: seq<int>)
    requires samples != [] && IsSortOf(sorted, samples) && forall i :: 0 <= i < |samples| ==> IsI64(samples[i])
    ensures IsI64(MedianOf(sorted))
  {
    forall i | 0 <= i < |sorted| ensures IsI64(sorted[i]) {
      assert sorted[i] in multiset(samples);
    }
  }

  /** Of two samples the median is the mean, rounded toward zero. */
  lemma TwoSamples(x: int, y: int)
    requires IsI64(x) && IsI64(y) && IsI64(x + y)
    ensures
      var m := Median([x, y]);
      if x + y >= 0 then 2 * m <= x + y <= 2 * m + 1 else 2 * m - 1 <= x + y <= 2 * m
  {
    var sorted := if x <= y then [x, y] else [y, x];
    assert multiset([x, y]) == multiset([y, x]);
    MedianOfAnySort([x, y], sorted);
  }

  // ---- Robustness ----------------------------------------------------------------------------

  function CountIn(s: seq<int>, lo: int, hi: int): nat {
    if s == [] then 0 else (if lo <= s[0] <= hi then 1 else 0) + CountIn(s[1..], lo, hi)
  }

  lemma CountInsert(s: seq<int>, x: int, lo: int, hi: int)
    ensures CountIn(Insert(s, x), lo, hi) == CountIn(s, lo, hi) + if lo <= x <= hi then 1 else 0
  {
    if s != [] && x > s[0] {
      CountInsert(s[1..], x, lo, hi);
    } else {
      assert ([x] + s)[1..] == s;
    }
  }

  lemma CountSort(s: seq<int>, lo: int, hi: int)
    ensures CountIn(Sort(s), lo, hi) == CountIn(s, lo, hi)
  {
    if s != [] {
      CountSort(s[1..], lo, hi);
      CountInsert(Sort(s[1..]), s[0], lo, hi);
    }
  }

  lemma {:induction false} CountSplit(s: seq<int>, i: nat, lo: int, hi: int)
    requires i <= |s|
    ensures CountIn(s, lo, hi) == CountIn(s[..i], lo, hi) + CountIn(s[i..], lo, hi)
    ensures CountIn(s[..i], lo, hi) <= i && CountIn(s[i..], lo, hi) <= |s| - i
    ensures (forall k :: 0 <= k < i ==> !(lo <= s[k] <= hi)) ==> CountIn(s[..i], lo, hi) == 0
    ensures (forall k :: i <= k < |s| ==> !(lo <= s[k] <= hi)) ==> CountIn(s[i..], lo, hi) == 0
    decreases |s|
  {
    if s != [] {
      var t := s[1..];
      if i == 0 {
        CountSplit(t, 0, lo, hi);
        assert s[0..] == s && s[..0] == [] && t[0..] == t;
      } else {
        CountSplit(t, i - 1, lo, hi);
        assert s[..i][1..] == t[..i - 1] && s[i..] == t[i - 1..];
      }
    }
  }

  /** In an ordered list with a strict majority in a range, the middle positions are in the range. */
  lemma MiddleInRange(s: seq<int>, i: nat, lo: int, hi: int)
    requires Ordered(s) && i < |s| && CountIn(s, lo, hi) > |s| - 1 - i && CountIn(s, lo, hi) > i
    ensures lo <= s[i] <= hi
  {
    CountSplit(s, i, lo, hi);
    CountSplit(s, i + 1, lo, hi);
  }

  /** The pair of middle values of an even list in [lo, hi] can be averaged without leaving it. */
  ghost predicate AveragesStay(lo: int, hi: int) {
    (hi < HALF || lo <= -HALF) && (lo >= -HALF || hi >= HALF - 1)
  }

  lemma AverageInRange(x: int, y: int, lo: int, hi: int)
    requires MIN64 <= lo <= x <= hi <= MAX64 && lo <= y <= hi && AveragesStay(lo, hi)
    ensures lo <= TruncHalf(Wrap(x + y)) <= hi
  {
  }

  ghost predicate Robust(lo: int, hi: int) {
    forall samples :: samples != [] && 2 * CountIn(samples, lo, hi) > |samples| ==> lo <= Median(samples) <= hi
  }

  lemma MajorityHoldsMedian(samples: seq<int>, lo: int, hi: int)
    requires MIN64 <= lo <= hi <= MAX64 && AveragesStay(lo, hi)
    requires samples != [] && 2 * CountIn(samples, lo, hi) > |samples|
    ensures lo <= Median(samples) <= hi
  {
    SortSorts(samples);
    CountSort(samples, lo, hi);
    MedianOfInRange(Sort(samples), lo, hi);
  }

  lemma MedianOfInRange(s: seq<int>, lo: int, hi: int)
    requires MIN64 <= lo <= hi <= MAX64 && AveragesStay(lo, hi)
    requires s != [] && Ordered(s) && 2 * CountIn(s, lo, hi) > |s|
    ensures lo <= MedianOf(s) <= hi
  {
    var n := |s|;
    MiddleInRange(s, n / 2, lo, hi);
    if n % 2 == 0 {
      MiddleInRange(s, n / 2 - 1, lo, hi);
      AverageInRange(s[n / 2 - 1], s[n / 2], lo, hi);
    }
  }

  lemma PairBreaks(x: int, y: int, lo: int, hi: int)
    requires lo <= x <= y <= hi && !(lo <= TruncHalf(Wrap(x + y)) <= hi)
    ensures !Robust(lo, hi)
  {
    var s := [x, y];
    assert s[1..] == [y] && [y][1..] == [];
    assert Sort([y]) == Insert([], y) == [y];
    assert Sort(s) == Insert([y], x) == [x, y];
    assert CountIn([y], lo, hi) == 1;
    assert CountIn(s, lo, hi) == 2;
    assert Median(s) == TruncHalf(Wrap(x + y));
  }

  /**
   Whatever the minority claims, a strict majority of samples in [lo, hi] keeps the median there, for
   odd and even numbers of samples, exactly when the range cannot make the 64-bit sum wrap out of
   it; every range of skews below 2^62 seconds either way is of this kind.
   */
  lemma MedianRobust(lo: int, hi: int)
    requires MIN64 <= lo <= hi <= MAX64
    ensures Robust(lo, hi) <==> AveragesStay(lo, hi)
  {
    if AveragesStay(lo, hi) {
      forall samples | samples != [] && 2 * CountIn(samples, lo, hi) > |samples| ensures lo <= Median(samples) <= hi {
        MajorityHoldsMedian(samples, lo, hi);
      }
    } else if hi >= HALF && lo > -HALF {
      var x := if lo > HALF then lo else HALF;
      PairBreaks(x, x, lo, hi);
    } else {
      var y := if hi < -HALF then hi else -HALF;
      PairBreaks(if hi < -HALF then hi else -HALF - 1, y, lo, hi);
    }
  }
}
