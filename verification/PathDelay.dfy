/** The sliding average of the path delay. */
module PathDelay {
  import opened Arith

  const PD_MIN_SAMPLES := 4
  const PD_SLIDE := 16

  /** Accumulator and count after the samples accepted since the last reset. */
  function Acc(ds: seq<int>): int
  {
    if ds == [] then 0
    else
      var sum := Acc(ds[..|ds| - 1]) + ds[|ds| - 1];
      if Count(ds[..|ds| - 1]) + 1 > PD_SLIDE then sum / 2 else sum
  }

  function Count(ds: seq<int>): nat
  {
    if ds == [] then 0
    else
      var n := Count(ds[..|ds| - 1]) + 1;
      if n > PD_SLIDE then n / 2 else n
  }

  /** The mean reported when the last of the samples was accepted. */
  function Mean(ds: seq<int>): int
    requires ds != []
  {
    (Acc(ds[..|ds| - 1]) + ds[|ds| - 1]) / (Count(ds[..|ds| - 1]) + 1)
  }

  /** One more sample. */
  lemma Appended(ds: seq<int>, d: int)
    ensures Acc(ds + [d]) == if Count(ds) + 1 > PD_SLIDE then (Acc(ds) + d) / 2 else Acc(ds) + d
    ensures Count(ds + [d]) == if Count(ds) + 1 > PD_SLIDE then (Count(ds) + 1) / 2 else Count(ds) + 1
    ensures Mean(ds + [d]) == (Acc(ds) + d) / (Count(ds) + 1)
  {
    assert (ds + [d])[..|ds|] == ds;
  }

  lemma {:induction false} CountRange(ds: seq<int>)
    ensures Count(ds) <= PD_SLIDE
    ensures |ds| <= PD_SLIDE ==> Count(ds) == |ds|
    ensures |ds| > PD_SLIDE ==> Count(ds) >= 8
    decreases |ds|
  {
    if ds != [] { CountRange(ds[..|ds| - 1]); }
  }

  ghost predicate Within(ds: seq<int>, lo: int, hi: int)
  {
    forall i :: 0 <= i < |ds| ==> lo <= ds[i] <= hi
  }

  /** Once the average has slid, halving 17 samples to 8 leaves it up to one
      sample heavy; it never loses weight. */
  lemma {:induction false} AccRange(ds: seq<int>, lo: int, hi: int)
    requires 0 <= lo <= hi && Within(ds, lo, hi)
    ensures Count(ds) * lo <= Acc(ds) <= (Count(ds) + if |ds| > PD_SLIDE then 1 else 0) * hi
    decreases |ds|
  {
    if ds != [] {
      var before, d := ds[..|ds| - 1], ds[|ds| - 1];
      AccRange(before, lo, hi);
      CountRange(before);
      var n := Count(before);
      Distribute(n, 1, lo);
      Distribute(n, 1, hi);
      Distribute(n + 1, 1, hi);
    }
  }

  /** The reported mean lies between the smallest accepted sample and 10/9 of the
      largest, since the last reset. */
  lemma MeanRange(ds: seq<int>, lo: int, hi: int)
    requires 0 <= lo <= hi && Within(ds, lo, hi) && ds != []
    ensures lo <= Mean(ds) && 9 * Mean(ds) <= 10 * hi
    ensures |ds| <= 17 ==> Mean(ds) <= hi
  {
    var before, d := ds[..|ds| - 1], ds[|ds| - 1];
    AccRange(before, lo, hi);
    CountRange(before);
    var n := Count(before) + 1;
    var sum := Acc(before) + d;
    Distribute(n - 1, 1, lo);
    Distribute(n - 1, 1, hi);
    Distribute(n, 1, hi);
    QuotientRange(sum, n, lo, hi, |before| > PD_SLIDE);
  }

  lemma QuotientAtLeast(sum: int, n: nat, lo: int)
    requires 0 < n && n * lo <= sum
    ensures lo <= sum / n
  {
    var m := sum / n;
    if m < lo {
      MulMonotone(m + 1, lo, n);
      Distribute(m, 1, n);
      assert false;
    }
  }

  lemma QuotientAtMost(sum: int, n: nat, hi: int)
    requires 0 < n && sum <= n * hi
    ensures sum / n <= hi
  {
    var m := sum / n;
    if m > hi {
      MulMonotone(hi + 1, m, n);
      Distribute(hi, 1, n);
      assert false;
    }
  }

  lemma QuotientRange(sum: int, n: nat, lo: int, hi: int, slid: bool)
    requires 0 < n && 0 <= lo <= hi && n * lo <= sum <= (n + if slid then 1 else 0) * hi
    requires slid ==> n >= 9
    ensures lo <= sum / n && 9 * (sum / n) <= 10 * hi && (!slid ==> sum / n <= hi)
  {
    QuotientAtLeast(sum, n, lo);
    if slid { SlidQuotient(sum / n, n, hi); } else { QuotientAtMost(sum, n, hi); }
  }

  lemma SlidQuotient(m: int, n: nat, hi: nat)
    requires n >= 9 && n * m <= (n + 1) * hi
    ensures 9 * m <= 10 * hi
  {
    var k := 9 * m - 10 * hi;
    if k > 0 {
      MulMonotone(1, k, n);
      MulMonotone(9, n, hi);
      Products(m, n, hi);
      assert false;
    }
  }

  lemma Products(m: int, n: int, hi: int)
    ensures (9 * m - 10 * hi) * n == 9 * (n * m) - 10 * (n * hi)
    ensures (n + 1) * hi == n * hi + hi
  {
  }

  // ----- the bounds are the best there are ---------------------------------

  function Repeat(d: int, k: nat): seq<int> { seq(k, _ => d) }

  lemma RepeatNext(d: int, k: nat)
    ensures |Repeat(d, k + 1)| == k + 1 && Repeat(d, k + 1)[..k] == Repeat(d, k) && Repeat(d, k + 1)[k] == d
  {}

  /** Equal samples: exact until the average slides, and from then on half a sample
      too heavy, for good. */
  lemma {:induction false} Heavy(d: nat, k: nat)
    ensures k <= PD_SLIDE ==> Count(Repeat(d, k)) == k && Acc(Repeat(d, k)) == k * d
    ensures k > PD_SLIDE ==> 8 <= Count(Repeat(d, k)) <= PD_SLIDE && Acc(Repeat(d, k)) >= Count(Repeat(d, k)) * d + d / 2
  {
    if k > 0 {
      Heavy(d, k - 1);
      RepeatNext(d, k - 1);
      CountRange(Repeat(d, k - 1));
      var n := Count(Repeat(d, k - 1));
      Distribute(n, 1, d);
      assert 17 * d == 8 * d + 8 * d + d;
    }
  }

  /** From the eighteenth sample on, samples that are all 34 report more than 34. */
  lemma HeavyMean(n: nat)
    requires n > PD_SLIDE + 1
    ensures Within(Repeat(34, n), 0, 34) && Mean(Repeat(34, n)) > 34
  {
    hide Acc, Count, Repeat;
    Heavy(34, n - 1);
    RepeatNext(34, n - 1);
    var before := Repeat(34, n - 1);
    QuotientAtLeast(Acc(before) + 34, Count(before) + 1, 35);
    assert Within(Repeat(34, n), 0, 34) by { EqualWithin(34, n); }
  }

  lemma EqualWithin(d: nat, n: nat)
    ensures |Repeat(d, n)| == n && Within(Repeat(d, n), 0, d)
  {}

  /** "The mean is at most the largest sample" holds of every sequence of samples of a
      length exactly when that length is at most 17. */
  lemma MeanIsAtMostLargestExactly(n: nat)
    requires n > 0
    ensures (forall ds: seq<int>, hi: nat :: |ds| == n && Within(ds, 0, hi) ==> Mean(ds) <= hi) <==> n <= 17
  {
    if n <= PD_SLIDE + 1 {
      forall ds: seq<int>, hi: nat | |ds| == n && Within(ds, 0, hi)
        ensures Mean(ds) <= hi
      {
        MeanRange(ds, 0, hi);
      }
    } else {
      HeavyMean(n);
      assert |Repeat(34, n)| == n;
    }
  }

  /** The first case in full: eighteen equal samples d report more than d exactly when d
      is at least 18. */
  lemma EighteenEqualSamples(d: nat)
    ensures Mean(Repeat(d, 18)) > d <==> d >= 18
  {
    Heavy(d, 16);
    RepeatNext(d, 16);
    RepeatNext(d, 17);
    assert Acc(Repeat(d, 17)) == (17 * d) / 2 && Count(Repeat(d, 17)) == 8;
  }

  function Pow2(k: nat): (r: nat)
    ensures r > k
  {
    if k == 0 then 1 else 2 * Pow2(k - 1)
  }

  /** Equal samples up to the next slide. */
  lemma {:induction false} NoSlide(d: nat, k: nat, j: nat)
    requires Count(Repeat(d, k)) == 8 && j <= 8
    ensures Count(Repeat(d, k + j)) == 8 + j && Acc(Repeat(d, k + j)) == Acc(Repeat(d, k)) + j * d
  {
    if j > 0 {
      NoSlide(d, k, j - 1);
      RepeatNext(d, k + j - 1);
      hide Repeat;
      Distribute(j - 1, 1, d);
    }
  }

  /** Every slide halves what the accumulator falls short of nine samples. */
  lemma {:induction false} Slides(d: nat, c: nat, k: nat)
    requires d == Pow2(k) * c
    ensures Count(Repeat(d, 8 + 9 * k)) == 8 && Acc(Repeat(d, 8 + 9 * k)) == 9 * d - c
    decreases k
  {
    if k == 0 {
      Heavy(d, 8);
    } else {
      assert d == Pow2(k - 1) * (2 * c);
      Slides(d, 2 * c, k - 1);
      NoSlide(d, 9 * k - 1, 8);
      RepeatNext(d, 9 * k + 7);
    }
  }

  /** Equal samples can report as nearly 10/9 of their value as one likes. */
  lemma NearlyTenNinths(n: nat) returns (ds: seq<int>, d: nat)
    requires n > 0
    ensures ds != [] && Within(ds, 0, d) && n * (10 * d - 9 * Mean(ds)) < d
  {
    hide Acc, Count, Repeat, Mean, Pow2;
    d := Pow2(9 * n);
    ds := Repeat(d, 9 + 81 * n);
    EqualWithin(d, 9 + 81 * n);
    AfterSlides(d, 9 * n);
    MulMonotone(10 * d - 9 * Mean(ds), 9, n);
  }

  lemma AfterSlides(d: nat, k: nat)
    requires d == Pow2(k)
    ensures Repeat(d, 9 + 9 * k) != [] && 9 * Mean(Repeat(d, 9 + 9 * k)) >= 10 * d - 9
  {
    hide Acc, Count, Repeat, Pow2;
    Slides(d, 1, k);
    RepeatNext(d, 8 + 9 * k);
  }

  /** 10/9 is the least bound there is: that the mean is at most p/q of the largest
      sample holds of all sequences if and only if p/q is at least 10/9. */
  lemma MeanBoundExactly(p: nat, q: nat)
    requires q > 0
    ensures (forall ds: seq<int>, hi: nat :: ds != [] && Within(ds, 0, hi) ==> q * Mean(ds) <= p * hi) <==> 10 * q <= 9 * p
  {
    if 10 * q <= 9 * p {
      forall ds: seq<int>, hi: nat | ds != [] && Within(ds, 0, hi)
        ensures q * Mean(ds) <= p * hi
      {
        MeanRange(ds, 0, hi);
        MulMonotone(9 * Mean(ds), 10 * hi, q);
        MulMonotone(10 * q, 9 * p, hi);
        Ratio(p, q, Mean(ds), hi);
      }
    } else {
      var ds, d := NearlyTenNinths(q);
      MulMonotone(9 * p + 1, 10 * q, d);
      Ratio(p, q, Mean(ds), d);
    }
  }

  lemma Ratio(p: int, q: int, m: int, hi: int)
    ensures (9 * m) * q == 9 * (q * m) && (10 * hi) * q == (10 * q) * hi && (9 * p) * hi == 9 * (p * hi)
    ensures (9 * p + 1) * hi == 9 * (p * hi) + hi && q * (10 * hi - 9 * m) == (10 * q) * hi - 9 * (q * m)
  {}
}
