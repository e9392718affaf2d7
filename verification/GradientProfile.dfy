/** What the gradient profile of a reach says, row by row, in terms of the bins alone
    (docs/one-offs/compute_reach_gradient.py). */
module GradientProfile {
  import opened Common
  import opened Rounding
  import opened Multiples
  import opened GradientBins
  import opened GradientWalk

  // ---------------------------------------------------------------- one row

  /** The drop from bin a to bin b is at least m standard deviations of its noise; the
      variances of the two means add up. */
  predicate ClearsNoise(a: Bin, b: Bin, m: real) {
    var drop := a.mean - b.mean;
    var noise := m * m * (a.variance + b.variance);
    if m >= 0.0 then drop >= 0.0 && drop * drop >= noise else drop >= 0.0 || drop * drop <= noise
  }

  /** Bin k has samples and its drop from bin i clears the noise. */
  predicate ClearAt(bins: Bins, m: real, i: nat, k: nat)
    requires i < |bins| && bins[i].Some? && k < |bins|
  {
    bins[k].Some? && ClearsNoise(bins[i].value, bins[k].value, m)
  }

  /** Where a row that starts in bin i ends: a significant one at the nearest bin that
      clears the noise; without one nearer than maxN bins, at the farthest bin with samples
      within maxN. */
  ghost predicate EndsAt(bins: Bins, m: real, maxN: nat, i: nat, j: nat, significant: bool)
    requires i < j < |bins| && bins[i].Some?
  {
    if significant then j - i < maxN && ClearAt(bins, m, i, j) && forall k :: i < k < j ==> !ClearAt(bins, m, i, k)
    else
      && j - i <= maxN && bins[j].Some? && (forall k :: j < k <= i + maxN && k < |bins| ==> bins[k].None?)
      && forall k :: i < k < i + maxN && k < |bins| ==> !ClearAt(bins, m, i, k)
  }

  /** A gradient over a width: the drop, or level if it leads uphill. */
  predicate IsGradient(g: real, a: Bin, b: Bin, width: real) {
    g * width == if a.mean > b.mean then a.mean - b.mean else 0.0
  }

  function WidthOf(i: nat, j: nat, dl: real): real {
    (j - i) as real * dl
  }

  function MiddleOf(i: nat, j: nat, dl: real): real {
    (i + j) as real * dl / 2.0
  }

  /** The row for the stretch from bin i to bin j: its width, its middle and its gradient,
      and the place of the bin with samples nearest to its middle bin, the lower of two. */
  ghost predicate RowSays(bins: Bins, dl: real, i: nat, j: nat, s: Sample)
    requires i < j < |bins| && bins[i].Some? && bins[j].Some?
  {
    && RoundsTo(WidthOf(i, j, dl), 0.0001, s.wMi)
    && RoundsTo(MiddleOf(i, j, dl), 0.0001, s.dMi)
    && (exists g :: IsGradient(g, bins[i].value, bins[j].value, WidthOf(i, j, dl)) && RoundsTo(g, 0.1, s.grad))
    && exists c: nat :: NearestSampled(bins, (i + j) / 2, c) && PlacedAt(bins, c, s)
  }

  predicate NearestSampled(bins: Bins, mid: nat, c: nat) {
    c < |bins| && bins[c].Some? && forall k: nat :: k < |bins| && bins[k].Some? ==>
      AbsInt(c - mid) < AbsInt(k - mid) || (AbsInt(c - mid) == AbsInt(k - mid) && c <= k)
  }

  ghost predicate PlacedAt(bins: Bins, c: nat, s: Sample) {
    c < |bins| && bins[c].Some? && RoundsTo(bins[c].value.lat, 0.000001, s.lat) && RoundsTo(bins[c].value.lon, 0.000001, s.lon)
  }

  // ---------------------------------------------------------------- the whole profile

  /** `stops` are the bins between the rows: the first is the first bin with samples, each
      row leads from one to the next, and behind the last there is no bin with samples
      within maxN. */
  ghost predicate Stops(bins: Bins, m: real, maxN: nat, dl: real, stops: seq<nat>, samples: seq<Sample>) {
    && |stops| == |samples| + 1
    && IsFirstSampled(bins, stops[0])
    && (forall k :: 0 <= k < |samples| ==> Leads(bins, m, maxN, dl, stops[k], stops[k + 1], samples[k]))
    && forall k :: stops[|samples|] < k <= stops[|samples|] + maxN && k < |bins| ==> bins[k].None?
  }

  /** f is the first bin with samples, or past the end if there is none. */
  predicate IsFirstSampled(bins: Bins, f: nat) {
    (f < |bins| ==> bins[f].Some?) && forall k :: 0 <= k < f && k < |bins| ==> bins[k].None?
  }

  ghost predicate Leads(bins: Bins, m: real, maxN: nat, dl: real, i: nat, j: nat, s: Sample) {
    && i < j < |bins| && bins[i].Some? && bins[j].Some?
    && EndsAt(bins, m, maxN, i, j, s.significant) && RowSays(bins, dl, i, j, s)
  }

  // ---------------------------------------------------------------- the walk does this

  lemma ClearIff(bins: Bins, m: real, i: nat, n: nat)
    requires i < |bins| && bins[i].Some? && i + n < |bins|
    ensures Clears(bins, m, i, n) <==> ClearAt(bins, m, i, i + n)
  {
    if bins[i + n].Some? {
      var v := bins[i].value.variance + bins[i + n].value.variance;
      assert Variance(bins, i, i + n) == v;
    }
  }

  lemma EndsWhere(bins: Bins, m: real, maxN: nat, w: Window)
    requires Taken(bins, m, maxN, w)
    ensures w.n >= 1 && End(w) < |bins| && bins[w.at].Some? && bins[End(w)].Some?
    ensures EndsAt(bins, m, maxN, w.at, End(w), w.significant)
  {
    WindowIsMinimal(bins, m, maxN, w);
    forall k | w.at < k < |bins| ensures Clears(bins, m, w.at, k - w.at) <==> ClearAt(bins, m, w.at, k) {
      ClearIff(bins, m, w.at, k - w.at);
    }
    hide Clears, ClearAt, Taken;
  }

  lemma DecimalsIff(x: real, scale: real, u: real, v: real)
    requires scale > 0.0 && u > 0.0 && u * scale == 1.0
    ensures RoundsTo(x, u, v) <==> v == Decimals(x, scale)
  {
    ScaledRounding(x, scale, u, v);
    hide RoundHalfEven, RoundsTo;
  }

  lemma SpanOf(w: Window, dl: real)
    ensures Middle(w, dl) == MiddleOf(w.at, End(w), dl)
    ensures Width(w, dl) == WidthOf(w.at, End(w), dl)
  {
    assert w.at as real + w.n as real / 2.0 == (w.at + End(w)) as real / 2.0;
    Halved((w.at + End(w)) as real, dl);
  }

  lemma Halved(x: real, y: real)
    ensures x / 2.0 * y == x * y / 2.0
  {
  }

  lemma NearestIs(bins: Bins, w: Window, c: nat)
    requires w.at + w.n < |bins| && NearestToMiddle(bins, w, c)
    ensures NearestSampled(bins, (w.at + End(w)) / 2, c)
  {
    assert (w.at + End(w)) / 2 == w.at + w.n / 2;
  }

  lemma GradientIs(bins: Bins, m: real, maxN: nat, w: Window, dl: real)
    requires Taken(bins, m, maxN, w) && dl > 0.0
    ensures w.n >= 1 && End(w) < |bins| && bins[w.at].Some? && bins[End(w)].Some?
    ensures IsGradient(Gradient(w, dl), bins[w.at].value, bins[End(w)].value, WidthOf(w.at, End(w), dl))
  {
    WindowIsMinimal(bins, m, maxN, w);
    ShownIsClamped(bins, m, maxN, w, dl);
    assert Width(w, dl) == WidthOf(w.at, End(w), dl);
    hide Taken, Gradient, Width;
  }

  lemma FiguresAre(dl: real, w: Window, s: Sample)
    requires w.n >= 1 && dl > 0.0 && Figures(w, dl, s)
    ensures RoundsTo(WidthOf(w.at, End(w), dl), 0.0001, s.wMi)
    ensures RoundsTo(MiddleOf(w.at, End(w), dl), 0.0001, s.dMi)
    ensures RoundsTo(Gradient(w, dl), 0.1, s.grad)
  {
    SpanOf(w, dl);
    DecimalsIff(Width(w, dl), 10000.0, 0.0001, s.wMi);
    DecimalsIff(Middle(w, dl), 10000.0, 0.0001, s.dMi);
    DecimalsIff(Gradient(w, dl), 10.0, 0.1, s.grad);
    hide Gradient, Decimals, RoundsTo, Width, End, Middle, MiddleOf, WidthOf;
  }

  lemma PlacedIs(bins: Bins, c: nat, s: Sample)
    requires Coordinates(bins, c, s)
    ensures PlacedAt(bins, c, s)
  {
    DecimalsIff(bins[c].value.lat, 1000000.0, 0.000001, s.lat);
    DecimalsIff(bins[c].value.lon, 1000000.0, 0.000001, s.lon);
    hide Decimals, RoundsTo;
  }

  lemma PlaceIs(bins: Bins, dl: real, w: Window, s: Sample)
    requires dl > 0.0 && Describes(bins, dl, w, s)
    ensures exists c: nat :: NearestSampled(bins, (w.at + End(w)) / 2, c) && PlacedAt(bins, c, s)
  {
    hide Figures, NearestToMiddle, NearestSampled, Coordinates, PlacedAt;
    var c: nat :| NearestToMiddle(bins, w, c) && Coordinates(bins, c, s);
    NearestIs(bins, w, c);
    PlacedIs(bins, c, s);
    assert NearestSampled(bins, (w.at + End(w)) / 2, c) && PlacedAt(bins, c, s);
  }

  lemma RowSaysSo(bins: Bins, m: real, maxN: nat, dl: real, w: Window, s: Sample)
    requires Taken(bins, m, maxN, w) && dl > 0.0 && Describes(bins, dl, w, s)
    ensures w.n >= 1 && End(w) < |bins| && bins[w.at].Some? && bins[End(w)].Some?
    ensures RowSays(bins, dl, w.at, End(w), s)
  {
    hide MiddleOf, WidthOf, Taken, Figures, Coordinates, NearestToMiddle, EndsAt, Gradient, RoundsTo, IsGradient, NearestSampled, PlacedAt;
    GradientIs(bins, m, maxN, w, dl);
    FiguresAre(dl, w, s);
    PlaceIs(bins, dl, w, s);
  }

  lemma RowIs(bins: Bins, m: real, maxN: nat, dl: real, w: Window, s: Sample)
    requires Taken(bins, m, maxN, w) && dl > 0.0 && Describes(bins, dl, w, s)
    ensures Leads(bins, m, maxN, dl, w.at, End(w), s)
  {
    EndsWhere(bins, m, maxN, w);
    RowSaysSo(bins, m, maxN, dl, w, s);
    hide Taken, RowSays, EndsAt, Gradient, Width, Decimals, NearestToMiddle, Coordinates;
  }

  /** The bins the walk stands in, one after the other. */
  function StopsOf(bins: Bins, ws: seq<Window>): (stops: seq<nat>)
    ensures |stops| == |ws| + 1
  {
    [if ws == [] then FirstSampled(bins, 0) else ws[0].at] + seq(|ws|, k requires 0 <= k < |ws| => End(ws[k]))
  }

  lemma StopsAre(bins: Bins, ws: seq<Window>)
    requires Linked(ws)
    ensures var stops := StopsOf(bins, ws);
            stops[|ws|] == LastStop(bins, ws) && forall k :: 0 <= k < |ws| ==> stops[k] == ws[k].at && stops[k + 1] == End(ws[k])
  {
  }

  lemma NothingBehind(bins: Bins, m: real, maxN: nat, k: nat)
    requires var e := LastStop(bins, Walk(bins, m, maxN, 0)); e < k <= e + maxN && k < |bins|
    ensures bins[k].None?
  {
    hide Walk;
    if FirstSampled(bins, 0) < |bins| {
      StopsAtEmptyRun(bins, m, maxN, 0, k);
    } else {
      StopsAfterStart(bins, m, maxN);
    }
  }

  /** Main result: the rows of the walk are the profile described. */
  lemma ProfileSays(bins: Bins, m: real, maxN: nat, dl: real, samples: seq<Sample>) returns (stops: seq<nat>)
    requires dl > 0.0 && maxN >= 1 && Profiled(bins, m, maxN, dl, samples)
    ensures Stops(bins, m, maxN, dl, stops, samples)
  {
    var ws := Walk(bins, m, maxN, 0);
    WalkIsChain(bins, m, maxN, 0);
    StopsAre(bins, ws);
    hide Walk, Taken, Describes, Leads, Linked, StopsOf, LastStop, End;
    stops := StopsOf(bins, ws);
    forall k | 0 <= k < |samples| ensures Leads(bins, m, maxN, dl, stops[k], stops[k + 1], samples[k]) {
      RowIs(bins, m, maxN, dl, ws[k], samples[k]);
    }
    forall k | stops[|samples|] < k <= stops[|samples|] + maxN && k < |bins| ensures bins[k].None? {
      NothingBehind(bins, m, maxN, k);
    }
    FirstIs(bins, m, maxN);
  }

  lemma FirstIs(bins: Bins, m: real, maxN: nat)
    ensures IsFirstSampled(bins, StopsOf(bins, Walk(bins, m, maxN, 0))[0])
  {
    hide Walk, Taken, Linked;
    WalkIsChain(bins, m, maxN, 0);
  }

  // ---------------------------------------------------------------- the code

  /** int(max_window / dl), at least 1. */
  function MaxBins(maxWindow: real, dl: real): (n: nat)
    requires dl > 0.0
    ensures n >= 1
  {
    var q := maxWindow / dl;
    if q < 1.0 then 1 else q.Floor
  }

  /** The bins are those of the samples. */
  ghost predicate Binned(p: Profile, dl: real, dflt: real, bins: Bins)
    requires |p.d| >= 1 && SameLengths(p)
  {
    && |bins| >= 1 && Multiple(|bins| - 1, dl) <= p.d[|p.d| - 1] < Multiple(|bins|, dl)
    && forall b :: 0 <= b < |bins| ==> FilledFrom(bins[b], p, dl, dflt, b)
  }

  /** maxN is the number of whole bins in the search window, at least one. */
  predicate SearchLimit(maxN: nat, maxWindow: real, dl: real) {
    maxN >= 1 && maxWindow < Multiple(maxN + 1, dl) && (Multiple(maxN, dl) <= maxWindow || maxN == 1)
  }

  lemma MaxBinsIs(maxWindow: real, dl: real)
    requires dl > 0.0
    ensures SearchLimit(MaxBins(maxWindow, dl), maxWindow, dl)
  {
    var q := maxWindow / dl;
    if q < 1.0 {
      Divided(maxWindow, dl);
      Scaled(q, 2.0, dl);
      assert Multiple(2, dl) == 2.0 * dl;
    } else {
      QuotientBounds(maxWindow, dl, q, q.Floor);
    }
  }

  ghost function AllBins(p: Profile, dl: real, dflt: real): (bins: Bins)
    requires |p.d| >= 1 && SameLengths(p) && p.d[|p.d| - 1] >= 0.0 && dl > 0.0
    ensures |bins| == BinCount(p.d, dl) && forall b :: 0 <= b < |bins| ==> bins[b] == BinOf(p, dl, dflt, b)
  {
    seq(BinCount(p.d, dl), b requires b >= 0 => BinOf(p, dl, dflt, b))
  }

  /** The samples are the profile of the bins for some stops. */
  ghost predicate HasStops(bins: Bins, m: real, maxN: nat, dl: real, samples: seq<Sample>) {
    exists stops :: Stops(bins, m, maxN, dl, stops, samples)
  }

  /** build_profile: bin the samples, then walk the bins. */
  method BuildProfile(p: Profile, dflt: real, dl: real, maxWindow: real, m: real) returns (samples: seq<Sample>)
    requires Valid(p) && dl > 0.0
    ensures p.d[|p.d| - 1] >= 0.0 && Binned(p, dl, dflt, AllBins(p, dl, dflt))
    ensures SearchLimit(MaxBins(maxWindow, dl), maxWindow, dl)
    ensures Profiled(AllBins(p, dl, dflt), m, MaxBins(maxWindow, dl), dl, samples)
    ensures HasStops(AllBins(p, dl, dflt), m, MaxBins(maxWindow, dl), dl, samples)
  {
    hide BinOf, BinCount, Profiled, Multiple, FilledFrom, Stops;
    var bins := BinElevations(p, dl, dflt);
    assert bins == AllBins(p, dl, dflt);
    MaxBinsIs(maxWindow, dl);
    samples := WalkBins(bins, m, MaxBins(maxWindow, dl), dl);
    ghost var stops := ProfileSays(bins, m, MaxBins(maxWindow, dl), dl, samples);
  }
}
