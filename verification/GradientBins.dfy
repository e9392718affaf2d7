/** Bucketing elevation samples into fixed-width bins
    (docs/one-offs/compute_reach_gradient.py). Distances are exact reals. */
module GradientBins {
  import opened Common
  import opened Multiples

  /** The cached samples of one reach. */
  datatype Profile = Profile(d: seq<real>, elev: seq<real>, lat: seq<real>, lon: seq<real>, srcs: seq<string>)

  /** A bin with samples; `variance` is the square of the program's sigma, in feet. */
  datatype Bin = Bin(mean: real, variance: real, lat: real, lon: real)

  ghost predicate Increasing(d: seq<real>) {
    forall i, j :: 0 <= i < j < |d| ==> d[i] < d[j]
  }

  /** What the caller hands over: at least one sample, columns of one length. The sampler
      emits strictly increasing distances from zero on. */
  ghost predicate Valid(p: Profile) {
    && |p.d| >= 1 && SameLengths(p) && Increasing(p.d) && p.d[0] >= 0.0
  }

  // ---------------------------------------------------------------- the bisect

  /** The least index from lo on whose distance reaches the target, else the last index. */
  function IndexAtOrAfter(d: seq<real>, target: real, lo: nat): (i: nat)
    requires lo < |d|
    ensures lo <= i < |d|
    ensures forall k :: lo <= k < i ==> d[k] < target
    ensures d[i] >= target || i == |d| - 1
    decreases |d| - lo
  {
    if d[lo] >= target || lo == |d| - 1 then lo else IndexAtOrAfter(d, target, lo + 1)
  }

  lemma {:induction false} LeastIndex(d: seq<real>, target: real, lo: nat, i: nat)
    requires lo <= i < |d|
    requires forall k :: lo <= k < i ==> d[k] < target
    requires d[i] >= target || i == |d| - 1
    ensures i == IndexAtOrAfter(d, target, lo)
    decreases i - lo
  {
    if lo < i { LeastIndex(d, target, lo + 1, i); }
  }

  method FindIndexAtOrAfter(d: seq<real>, target: real, lo: nat) returns (i: nat)
    requires Increasing(d) && lo < |d|
    ensures i == IndexAtOrAfter(d, target, lo)
  {
    var n := |d|;
    if target <= d[lo] { return lo; }
    if target >= d[n - 1] {
      LeastIndex(d, target, lo, n - 1);
      return n - 1;
    }
    var low, high := lo, n - 1;
    while low < high
      invariant lo <= low <= high <= n - 1
      invariant forall k :: lo <= k < low ==> d[k] < target
      invariant d[high] >= target
    {
      var mid := (low + high) / 2;
      if d[mid] < target { low := mid + 1; } else { high := mid; }
    }
    LeastIndex(d, target, lo, low);
    return low;
  }

  // ---------------------------------------------------------------- one bin

  const SLACK := 0.000000001

  /** The samples of a bin, as an index range; None when the code finds the bin empty. */
  function Extent(d: seq<real>, dl: real, b: nat): (r: Option<(nat, nat)>)
    requires |d| >= 1
    ensures r.Some? ==> r.value.0 < r.value.1 <= |d|
  {
    var lo := IndexAtOrAfter(d, Multiple(b, dl), 0);
    var hi := IndexAtOrAfter(d, Multiple(b + 1, dl), 0);
    var hiExc := if hi > lo && d[hi] < Multiple(b + 1, dl) + SLACK then hi + 1 else hi;
    if hiExc <= lo || lo >= |d| then None else Some((lo, hiExc))
  }

  predicate InBin(d: seq<real>, dl: real, b: nat, i: nat)
    requires |d| >= 1
  {
    Extent(d, dl, b).Some? && Extent(d, dl, b).value.0 <= i < Extent(d, dl, b).value.1
  }

  function Sum(xs: seq<real>, lo: nat, hi: nat): real
    requires lo <= hi <= |xs|
  {
    if lo == hi then 0.0 else Sum(xs, lo, hi - 1) + xs[hi - 1]
  }

  const M_TO_FT := 3.28083989501

  /** Noise of one sample in metres, by elevation source. */
  function Rmse(src: string, dflt: real): real {
    if src == "1arc3" then 2.4 else if src == "1m" then 0.15 else dflt
  }

  function SquareSum(srcs: seq<string>, dflt: real, lo: nat, hi: nat): (v: real)
    requires lo <= hi <= |srcs|
    ensures v >= 0.0
  {
    if lo == hi then 0.0
    else SquareSum(srcs, dflt, lo, hi - 1) + Square(Rmse(srcs[hi - 1], dflt))
  }

  function Square(x: real): (y: real)
    ensures y >= 0.0
  {
    x * x
  }

  function Mean(total: real, n: nat): real
    requires n > 0
  {
    total / n as real
  }

  /** Variance of the mean of n independent samples, in square feet. */
  function MeanVariance(squares: real, n: nat): real
    requires n > 0
  {
    var k := n as real;
    assert k * k > 0.0;
    squares / (k * k) * (M_TO_FT * M_TO_FT)
  }

  ghost predicate SameLengths(p: Profile) {
    |p.elev| == |p.lat| == |p.lon| == |p.srcs| == |p.d|
  }

  /** Mean, its variance and the middle sample's coordinates. */
  ghost function Summary(p: Profile, dflt: real, lo: nat, hi: nat): Bin
    requires SameLengths(p) && lo < hi <= |p.d|
  {
    var n, mid := hi - lo, (lo + hi - 1) / 2;
    Bin(Mean(Sum(p.elev, lo, hi), n), MeanVariance(SquareSum(p.srcs, dflt, lo, hi), n), p.lat[mid], p.lon[mid])
  }

  ghost function BinOf(p: Profile, dl: real, dflt: real, b: nat): Option<Bin>
    requires |p.d| >= 1 && SameLengths(p)
  {
    var r := Extent(p.d, dl, b);
    if r.None? then None else Some(Summary(p, dflt, r.value.0, r.value.1))
  }

  // ---------------------------------------------------------------- what a bin says

  function Total(xs: seq<real>): real {
    if xs == [] then 0.0 else xs[0] + Total(xs[1..])
  }

  function TotalSquares(xs: seq<real>): real {
    if xs == [] then 0.0 else xs[0] * xs[0] + TotalSquares(xs[1..])
  }

  /** The vertical errors of the samples in metres: 2.4 for the 1/3 arc-second model, 0.15
      for the one-metre model, the default for any other. */
  ghost predicate Errors(es: seq<real>, srcs: seq<string>, dflt: real) {
    |es| == |srcs| && forall i :: 0 <= i < |srcs| ==>
      es[i] == match srcs[i] case "1arc3" => 2.4 case "1m" => 0.15 case _ => dflt
  }

  predicate IsMean(m: real, xs: seq<real>) {
    m * |xs| as real == Total(xs)
  }

  /** v is the variance of the mean, in square feet, of samples from these sources. */
  ghost predicate IsVariance(v: real, srcs: seq<string>, dflt: real) {
    exists es :: Errors(es, srcs, dflt)
      && v * (|srcs| as real * |srcs| as real) == TotalSquares(es) * (3.28083989501 * 3.28083989501)
  }

  predicate IsMiddle(mid: nat, lo: nat, hi: nat) {
    lo <= mid < hi && 0 <= (hi - 1 - mid) - (mid - lo) <= 1
  }

  /** The bin of the samples lo to hi: their mean elevation, the variance of that mean, and
      the place of the middle sample, the earlier of two. */
  ghost predicate BinSays(bin: Bin, p: Profile, dflt: real, lo: nat, hi: nat)
    requires SameLengths(p) && lo < hi <= |p.d|
  {
    && IsMean(bin.mean, p.elev[lo..hi]) && IsVariance(bin.variance, p.srcs[lo..hi], dflt)
    && exists mid: nat :: IsMiddle(mid, lo, hi) && bin.lat == p.lat[mid] && bin.lon == p.lon[mid]
  }

  lemma {:induction false} TotalSnoc(xs: seq<real>, x: real)
    ensures Total(xs + [x]) == Total(xs) + x && TotalSquares(xs + [x]) == TotalSquares(xs) + x * x
  {
    if xs == [] {
      assert xs + [x] == [x];
    } else {
      assert (xs + [x])[1..] == xs[1..] + [x];
      TotalSnoc(xs[1..], x);
    }
  }

  lemma {:induction false} SumIsTotal(xs: seq<real>, lo: nat, hi: nat)
    requires lo <= hi <= |xs|
    ensures Sum(xs, lo, hi) == Total(xs[lo..hi])
    decreases hi - lo
  {
    if lo < hi {
      SumIsTotal(xs, lo, hi - 1);
      TotalSnoc(xs[lo..hi - 1], xs[hi - 1]);
      assert xs[lo..hi] == xs[lo..hi - 1] + [xs[hi - 1]];
    }
  }

  lemma ErrorsSnoc(es: seq<real>, srcs: seq<string>, dflt: real, src: string)
    requires Errors(es, srcs, dflt)
    ensures Errors(es + [Rmse(src, dflt)], srcs + [src], dflt)
  {
  }

  lemma {:induction false} SquaresAreTotal(srcs: seq<string>, dflt: real, lo: nat, hi: nat) returns (es: seq<real>)
    requires lo <= hi <= |srcs|
    ensures Errors(es, srcs[lo..hi], dflt) && SquareSum(srcs, dflt, lo, hi) == TotalSquares(es)
    decreases hi - lo
  {
    if lo == hi {
      es := [];
    } else {
      hide TotalSquares, Errors, Rmse;
      var front := SquaresAreTotal(srcs, dflt, lo, hi - 1);
      var e := Rmse(srcs[hi - 1], dflt);
      TotalSnoc(front, e);
      ErrorsSnoc(front, srcs[lo..hi - 1], dflt, srcs[hi - 1]);
      es := front + [e];
      assert srcs[lo..hi] == srcs[lo..hi - 1] + [srcs[hi - 1]];
    }
  }

  lemma Averaged(total: real, n: nat)
    requires n > 0
    ensures Mean(total, n) * n as real == total
  {
  }

  lemma VarianceAveraged(squares: real, n: nat)
    requires n > 0
    ensures MeanVariance(squares, n) * (n as real * n as real) == squares * (3.28083989501 * 3.28083989501)
  {
    var k := n as real;
    var c, f := k * k, M_TO_FT * M_TO_FT;
    assert c > 0.0;
    CancelScaled(squares, c, f);
  }

  lemma CancelScaled(x: real, c: real, f: real)
    requires c > 0.0
    ensures x / c * f * c == x * f
  {
    assert x / c * f * c == x / c * c * f;
  }

  lemma MeanIs(xs: seq<real>, lo: nat, hi: nat)
    requires lo < hi <= |xs|
    ensures IsMean(Mean(Sum(xs, lo, hi), hi - lo), xs[lo..hi])
  {
    SumIsTotal(xs, lo, hi);
    Averaged(Sum(xs, lo, hi), hi - lo);
    hide Sum, Total, Mean;
    assert |xs[lo..hi]| == hi - lo;
  }

  lemma VarianceIs(srcs: seq<string>, dflt: real, lo: nat, hi: nat)
    requires lo < hi <= |srcs|
    ensures IsVariance(MeanVariance(SquareSum(srcs, dflt, lo, hi), hi - lo), srcs[lo..hi], dflt)
  {
    var es := SquaresAreTotal(srcs, dflt, lo, hi);
    VarianceAveraged(SquareSum(srcs, dflt, lo, hi), hi - lo);
    hide SquareSum, TotalSquares, Errors, MeanVariance;
    assert |srcs[lo..hi]| == hi - lo;
  }

  lemma SummarySays(p: Profile, dflt: real, lo: nat, hi: nat)
    requires SameLengths(p) && lo < hi <= |p.d|
    ensures BinSays(Summary(p, dflt, lo, hi), p, dflt, lo, hi)
  {
    hide Sum, SquareSum, Mean, MeanVariance, IsMean, IsVariance;
    MeanIs(p.elev, lo, hi);
    VarianceIs(p.srcs, dflt, lo, hi);
    assert IsMiddle((lo + hi - 1) / 2, lo, hi);
  }

  lemma {:induction false} TotalBetween(xs: seq<real>, low: real, high: real)
    requires forall i :: 0 <= i < |xs| ==> low <= xs[i] <= high
    ensures |xs| as real * low <= Total(xs) <= |xs| as real * high
  {
    if xs != [] {
      TotalBetween(xs[1..], low, high);
      assert |xs| as real * low == |xs[1..]| as real * low + low;
      assert |xs| as real * high == |xs[1..]| as real * high + high;
    }
  }

  lemma Dividing(m: real, low: real, high: real, n: real)
    requires n > 0.0 && n * low <= m * n <= n * high
    ensures low <= m <= high
  {
    assert m < low ==> (low - m) * n > 0.0;
    assert m > high ==> (m - high) * n > 0.0;
  }

  lemma MeanWithin(m: real, xs: seq<real>, low: real, high: real)
    requires xs != [] && IsMean(m, xs) && forall i :: 0 <= i < |xs| ==> low <= xs[i] <= high
    ensures low <= m <= high
  {
    hide Total;
    TotalBetween(xs, low, high);
    var n := |xs| as real;
    assert m * n == Total(xs);
    Dividing(m, low, high, n);
  }

  /** A bin's elevation lies between those of its samples. */
  lemma MeanBetween(bin: Bin, p: Profile, dflt: real, lo: nat, hi: nat, low: real, high: real)
    requires SameLengths(p) && lo < hi <= |p.d| && BinSays(bin, p, dflt, lo, hi)
    requires forall i :: lo <= i < hi ==> low <= p.elev[i] <= high
    ensures low <= bin.mean <= high
  {
    var xs := p.elev[lo..hi];
    assert forall i :: 0 <= i < |xs| ==> xs[i] == p.elev[lo + i];
    MeanWithin(bin.mean, xs, low, high);
  }

  /** int(total / dl) + 1. */
  function BinCount(d: seq<real>, dl: real): (n: nat)
    requires |d| >= 1 && d[|d| - 1] >= 0.0 && dl > 0.0
    ensures n >= 1
  {
    Whole(d[|d| - 1], dl) + 1
  }

  /** The bin has what its samples say, and is missing if it has none. */
  ghost predicate FilledFrom(bin: Option<Bin>, p: Profile, dl: real, dflt: real, b: nat)
    requires |p.d| >= 1 && SameLengths(p)
  {
    match Extent(p.d, dl, b)
    case None => bin.None?
    case Some(run) => bin.Some? && BinSays(bin.value, p, dflt, run.0, run.1)
  }

  lemma BinFilled(p: Profile, dl: real, dflt: real, b: nat)
    requires |p.d| >= 1 && SameLengths(p)
    ensures FilledFrom(BinOf(p, dl, dflt, b), p, dl, dflt, b)
  {
    hide BinSays, Summary;
    var run := Extent(p.d, dl, b);
    if run.Some? { SummarySays(p, dflt, run.value.0, run.value.1); }
  }

  lemma LastInLast(d: seq<real>, dl: real)
    requires |d| >= 1 && dl > 0.0 && d[0] >= 0.0 && Increasing(d)
    ensures d[|d| - 1] >= 0.0
    ensures Multiple(BinCount(d, dl) - 1, dl) <= d[|d| - 1] < Multiple(BinCount(d, dl), dl)
  {
    assert |d| > 1 ==> d[0] < d[|d| - 1];
    hide Multiple, Whole;
    WholeFits(d[|d| - 1], dl);
  }

  method BinElevations(p: Profile, dl: real, dflt: real) returns (bins: seq<Option<Bin>>)
    requires Valid(p) && dl > 0.0
    ensures p.d[|p.d| - 1] >= 0.0 && |bins| == BinCount(p.d, dl)
    ensures Multiple(|bins| - 1, dl) <= p.d[|p.d| - 1] < Multiple(|bins|, dl)
    ensures forall b :: 0 <= b < |bins| ==> bins[b] == BinOf(p, dl, dflt, b)
    ensures forall b :: 0 <= b < |bins| ==> FilledFrom(bins[b], p, dl, dflt, b)
  {
    hide Summary, BinOf, BinCount, Extent, Multiple, FilledFrom;
    var d := p.d;
    LastInLast(d, dl);
    assert |d| > 1 ==> d[0] < d[|d| - 1];
    var nBins := BinCount(d, dl);
    bins := [];
    for b := 0 to nBins
      invariant |bins| == b && forall c :: 0 <= c < b ==> bins[c] == BinOf(p, dl, dflt, c) && FilledFrom(bins[c], p, dl, dflt, c)
    {
      BinFilled(p, dl, dflt, b);
      var lo := FindIndexAtOrAfter(d, Multiple(b, dl), 0);
      var hi := FindIndexAtOrAfter(d, Multiple(b + 1, dl), 0);
      if hi > lo && d[hi] < Multiple(b + 1, dl) + SLACK {
        hi := hi + 1;
      }
      ExtentIs(p, dl, dflt, b, lo, hi);
      if hi <= lo || lo >= |d| {
        bins := bins + [None];
      } else {
        var bin := Summarise(p, dflt, lo, hi);
        bins := bins + [Some(bin)];
      }
    }
  }

  lemma ExtentIs(p: Profile, dl: real, dflt: real, b: nat, lo: nat, hi: nat)
    requires Valid(p) && lo == IndexAtOrAfter(p.d, Multiple(b, dl), 0)
    requires var h := IndexAtOrAfter(p.d, Multiple(b + 1, dl), 0);
             hi == if h > lo && p.d[h] < Multiple(b + 1, dl) + SLACK then h + 1 else h
    ensures hi <= lo || lo >= |p.d| ==> BinOf(p, dl, dflt, b) == None
    ensures lo < hi && lo < |p.d| ==> hi <= |p.d| && BinOf(p, dl, dflt, b) == Some(Summary(p, dflt, lo, hi))
  {
    hide Multiple, Summary;
  }

  method Summarise(p: Profile, dflt: real, lo: nat, hi: nat) returns (bin: Bin)
    requires SameLengths(p) && lo < hi <= |p.d|
    ensures bin == Summary(p, dflt, lo, hi)
  {
    hide Square, Rmse, Mean, MeanVariance;
    var total, squares := 0.0, 0.0;
    for k := lo to hi
      invariant total == Sum(p.elev, lo, k) && squares == SquareSum(p.srcs, dflt, lo, k)
    {
      total := total + p.elev[k];
      squares := squares + Square(Rmse(p.srcs[k], dflt));
    }
    var n, mid := hi - lo, (lo + hi - 1) / 2;
    return Bin(Mean(total, n), MeanVariance(squares, n), p.lat[mid], p.lon[mid]);
  }

  // ---------------------------------------------------------------- which samples a bin has

  predicate Within(d: seq<real>, dl: real, b: nat, i: nat)
    requires i < |d|
  {
    Multiple(b, dl) <= d[i] < Multiple(b + 1, dl)
  }

  /** A bin is empty exactly when no sample but possibly the last one lies in its interval. */
  lemma EmptyIff(d: seq<real>, dl: real, b: nat)
    requires |d| >= 1 && Increasing(d) && dl > 0.0
    ensures Extent(d, dl, b).None? <==> forall i :: 0 <= i < |d| - 1 ==> !Within(d, dl, b, i)
  {
    hide Multiple;
    NextMultiple(b, dl);
    var lo := IndexAtOrAfter(d, Multiple(b, dl), 0);
    var hi := IndexAtOrAfter(d, Multiple(b + 1, dl), 0);
    if lo < hi { assert Within(d, dl, b, lo); }
    forall i | 0 <= i < |d| - 1 && Within(d, dl, b, i) ensures lo < hi {
      assert lo <= i;
      assert i < hi;
    }
  }

  /** A bin's samples are a run inside [start, end + slack), and the run misses nothing of
      [start, end). */
  lemma BinIsRun(d: seq<real>, dl: real, b: nat, i: nat)
    requires |d| >= 1 && Increasing(d) && dl > 0.0 && i < |d| && Extent(d, dl, b).Some?
    ensures InBin(d, dl, b, i) ==> Multiple(b, dl) <= d[i] < Multiple(b + 1, dl) + SLACK
    ensures Within(d, dl, b, i) ==> InBin(d, dl, b, i)
  {
    hide Multiple;
    NextMultiple(b, dl);
    var lo := IndexAtOrAfter(d, Multiple(b, dl), 0);
    var hi := IndexAtOrAfter(d, Multiple(b + 1, dl), 0);
    assert lo < |d| - 1 ==> d[lo] >= Multiple(b, dl);
    if lo <= i && lo < |d| - 1 { assert d[lo] <= d[i]; }
    if hi < i { assert d[hi] < d[i]; }
  }

  /** Every sample but the last is in the bin its distance falls into, one of the bins. */
  lemma SamplesAreBinned(p: Profile, dl: real, i: nat)
    requires Valid(p) && dl > 0.0 && i < |p.d| - 1
    ensures p.d[i] >= 0.0 && p.d[|p.d| - 1] >= 0.0
    ensures Whole(p.d[i], dl) < BinCount(p.d, dl) && InBin(p.d, dl, Whole(p.d[i], dl), i)
  {
    hide Multiple, InBin, Extent;
    var last := |p.d| - 1;
    assert p.d[i] < p.d[last] && (i > 0 ==> p.d[0] < p.d[i]);
    var b := Whole(p.d[i], dl);
    WholeFits(p.d[i], dl);
    WholeMonotone(p.d[i], p.d[last], dl);
    assert Whole(p.d[last], dl) + 1 == BinCount(p.d, dl);
    assert Within(p.d, dl, b, i);
    EmptyIff(p.d, dl, b);
    BinIsRun(p.d, dl, b, i);
  }

  /** Exactly when the last sample is in no bin: it is alone in its own bin, and the bin
      before is empty or ends more than the slack earlier. */
  lemma LastSampleLostIff(p: Profile, dl: real)
    requires Valid(p) && dl > SLACK
    ensures p.d[|p.d| - 1] >= 0.0
    ensures LastLost(p, dl) <==>
            (var b := Whole(p.d[|p.d| - 1], dl);
             Extent(p.d, dl, b).None?
             && (b > 0 ==> Extent(p.d, dl, b - 1).None? || p.d[|p.d| - 1] >= Multiple(b, dl) + SLACK))
  {
    hide Multiple, Extent, Whole, InBin, Within;
    var d, last := p.d, |p.d| - 1;
    assert last > 0 ==> d[0] < d[last];
    var b := Whole(d[last], dl);
    WholeFits(d[last], dl);
    if Extent(d, dl, b).Some? {
      OwnBin(d, dl, b, last);
      assert LastIn(d, dl, b);
    } else {
      if b > 0 && Extent(d, dl, b - 1).Some? && d[last] < Multiple(b, dl) + SLACK {
        LastInPrevious(d, dl, b - 1);
        assert LastIn(d, dl, b - 1);
      }
      forall c | 0 <= c < BinCount(d, dl) && LastIn(d, dl, c)
        ensures b > 0 && c == b - 1 && Extent(d, dl, c).Some? && d[last] < Multiple(b, dl) + SLACK
      {
        OnlyTwoBins(d, dl, b, c, last);
      }
    }
  }

  ghost predicate LastLost(p: Profile, dl: real)
    requires |p.d| >= 1 && p.d[|p.d| - 1] >= 0.0 && dl > 0.0
  {
    forall c :: 0 <= c < BinCount(p.d, dl) ==> !LastIn(p.d, dl, c)
  }

  predicate LastIn(d: seq<real>, dl: real, c: nat)
    requires |d| >= 1
  {
    InBin(d, dl, c, |d| - 1)
  }

  lemma OwnBin(d: seq<real>, dl: real, b: nat, i: nat)
    requires |d| >= 1 && Increasing(d) && dl > 0.0 && i < |d| && Extent(d, dl, b).Some?
    requires Multiple(b, dl) <= d[i] < Multiple(b + 1, dl)
    ensures InBin(d, dl, b, i)
  {
    hide Multiple, Extent;
    BinIsRun(d, dl, b, i);
  }

  /** A sample is in the bin of its interval or, within the slack of the boundary, in the
      one before. */
  lemma OnlyTwoBins(d: seq<real>, dl: real, b: nat, c: nat, i: nat)
    requires |d| >= 1 && Increasing(d) && dl > SLACK && i < |d|
    requires Multiple(b, dl) <= d[i] < Multiple(b + 1, dl) && InBin(d, dl, c, i)
    ensures Extent(d, dl, c).Some? && (c == b || (b > 0 && c == b - 1 && d[i] < Multiple(b, dl) + SLACK))
  {
    hide Multiple, Extent;
    BinIsRun(d, dl, c, i);
    NextMultiple(c, dl);
    if c + 1 < b { MultiplesIncrease(c + 1, b, dl); }
    if b + 1 < c { MultiplesIncrease(b + 1, c, dl); }
  }

  /** When the last bin is empty, the bin before it takes the last sample in if it is not
      empty and the sample lies within the slack of their boundary. */
  lemma LastInPrevious(d: seq<real>, dl: real, b: nat)
    requires |d| >= 1 && Increasing(d) && dl > SLACK && Extent(d, dl, b).Some? && Extent(d, dl, b + 1).None?
    requires Multiple(b + 1, dl) <= d[|d| - 1] < Multiple(b + 1, dl) + SLACK
    ensures InBin(d, dl, b, |d| - 1)
  {
    hide Multiple;
    NextMultiple(b + 1, dl);
    EmptyIff(d, dl, b + 1);
    forall i | 0 <= i < |d| - 1 ensures d[i] < Multiple(b + 1, dl) {
      assert !Within(d, dl, b + 1, i) && d[i] < d[|d| - 1];
    }
    LeastIndex(d, Multiple(b + 1, dl), 0, |d| - 1);
  }

  /** A sample counts in two bins exactly when it is the first one at or after their
      boundary, within the slack of it, and neither bin is empty. */
  lemma CountedTwiceIff(d: seq<real>, dl: real, b: nat, i: nat)
    requires |d| >= 1 && Increasing(d) && dl > SLACK && i < |d|
    ensures InBin(d, dl, b, i) && InBin(d, dl, b + 1, i) <==>
            Extent(d, dl, b).Some? && Extent(d, dl, b + 1).Some?
            && Multiple(b + 1, dl) <= d[i] < Multiple(b + 1, dl) + SLACK
            && (i > 0 ==> d[i - 1] < Multiple(b + 1, dl))
  {
    hide Multiple;
    NextMultiple(b + 1, dl);
    NextMultiple(b, dl);
    var hi := IndexAtOrAfter(d, Multiple(b + 1, dl), 0);
    if Extent(d, dl, b).Some? && Extent(d, dl, b + 1).Some? {
      if i > 0 && d[i - 1] >= Multiple(b + 1, dl) {
        assert hi <= i - 1;
      } else if d[i] >= Multiple(b + 1, dl) {
        LeastIndex(d, Multiple(b + 1, dl), 0, i);
        if d[i] < Multiple(b + 1, dl) + SLACK { BinIsRun(d, dl, b + 1, i); }
      } else {
        BinIsRun(d, dl, b + 1, i);
      }
    }
  }

  /** Samples at 0 and 1.5 miles in bins of one mile: the second one is in no bin. */
  lemma LoneLastSampleLost()
    ensures (var d := [0.0, 1.5];
             Increasing(d) && BinCount(d, 1.0) == 2 && forall b :: 0 <= b < 2 ==> !InBin(d, 1.0, b, 1))
  {
    var d := [0.0, 1.5];
    NextMultiple(0, 1.0);
    NextMultiple(1, 1.0);
    LeastIndex(d, 0.0, 0, 0);
    LeastIndex(d, 1.0, 0, 1);
    LeastIndex(d, 2.0, 0, 1);
    assert Extent(d, 1.0, 0) == Some((0, 1)) && Extent(d, 1.0, 1) == None;
  }
}
