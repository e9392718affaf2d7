/** Resampling a reach's polyline at a fixed spacing
    (docs/one-offs/sample_reach_elevations.py). Distances are exact reals and the
    great-circle length of each segment is an input. */
module ReachWalk {
  import opened Multiples

  datatype Point = Point(lon: real, lat: real)

  datatype Sample = Sample(dMi: real, lat: real, lon: real)

  /** A parsed geometry: vertices and the lengths of the segments between them. */
  datatype Line = Line(verts: seq<Point>, lens: seq<real>)

  ghost predicate Valid(l: Line) {
    && (|l.verts| > 0 ==> |l.lens| == |l.verts| - 1)
    && (forall i :: 0 <= i < |l.lens| ==> l.lens[i] >= 0.0)
  }

  const METRES_PER_MILE := 1609.344

  /** Distance along the line at which segment i starts. */
  function Start(lens: seq<real>, i: nat): (d: real)
    requires i <= |lens|
  {
    if i == 0 then 0.0 else Start(lens, i - 1) + lens[i - 1]
  }

  function Length(l: Line): real {
    Start(l.lens, |l.lens|)
  }

  lemma {:induction false} StartMonotone(lens: seq<real>, i: nat, j: nat)
    requires i <= j <= |lens| && forall k :: 0 <= k < |lens| ==> lens[k] >= 0.0
    ensures Start(lens, i) <= Start(lens, j)
  {
    if i < j { StartMonotone(lens, i, j - 1); }
  }

  // ---------------------------------------------------------------- what is emitted

  /** _interpolate. */
  function Interpolate(a: Point, b: Point, t: real): Point {
    Point(a.lon + (b.lon - a.lon) * t, a.lat + (b.lat - a.lat) * t)
  }

  /** Position p belongs to segment i: after its start, at its end at the latest. */
  predicate InSegment(l: Line, i: nat, p: real)
    requires i < |l.lens|
  {
    Start(l.lens, i) < p <= Start(l.lens, i + 1)
  }

  function Fraction(l: Line, i: nat, p: real): (t: real)
    requires i < |l.lens| && InSegment(l, i, p)
    ensures 0.0 < t <= 1.0
  {
    var from := Start(l.lens, i);
    FractionBounds(p - from, l.lens[i]);
    (p - from) / l.lens[i]
  }

  lemma FractionBounds(x: real, y: real)
    requires 0.0 < x <= y
    ensures 0.0 < x / y <= 1.0
  {
  }

  predicate PlacedIn(l: Line, i: nat, s: Sample, p: real)
    requires Valid(l) && |l.verts| >= 2
  {
    i < |l.lens| && InSegment(l, i, p) &&
    var at := Interpolate(l.verts[i], l.verts[i + 1], Fraction(l, i, p));
    s == Sample(p / METRES_PER_MILE, at.lat, at.lon)
  }

  /** The sample stands at distance p along the line. */
  ghost predicate Placed(l: Line, s: Sample, p: real)
    requires Valid(l) && |l.verts| >= 2
  {
    exists i :: PlacedIn(l, i, s, p)
  }

  predicate TakeOut(l: Line, s: Sample)
    requires Valid(l) && |l.verts| >= 2
  {
    var last := l.verts[|l.verts| - 1];
    s == Sample(Length(l) / METRES_PER_MILE, last.lat, last.lon)
  }

  predicate PutIn(l: Line, s: Sample)
    requires Valid(l) && |l.verts| >= 2
  {
    s == Sample(0.0, l.verts[0].lat, l.verts[0].lon)
  }

  /** Is the take-out emitted on its own? */
  predicate Leftover(l: Line, h: real)
    requires Length(l) >= 0.0 && h > 0.0
  {
    Length(l) - Multiple(Whole(Length(l), h), h) > 1.0
  }

  function Count(l: Line, h: real): nat
    requires Length(l) >= 0.0 && h > 0.0
  {
    Whole(Length(l), h) + (if Leftover(l, h) then 2 else 1)
  }

  /** Distance along the line of the k-th sample. */
  function Position(l: Line, h: real, k: nat): real
    requires Length(l) >= 0.0 && h > 0.0 && k < Count(l, h)
  {
    if k <= Whole(Length(l), h) then Multiple(k, h) else Length(l)
  }

  /** The whole output, without a word about how it is computed. */
  ghost predicate Resampled(l: Line, h: real, out: seq<Sample>)
    requires Valid(l) && |l.verts| >= 2 && h > 0.0 && Length(l) >= 0.0
  {
    && |out| == Count(l, h)
    && PutIn(l, out[0])
    && (forall k :: 1 <= k <= Whole(Length(l), h) ==> Placed(l, out[k], Multiple(k, h)))
    && (Leftover(l, h) ==> TakeOut(l, out[|out| - 1]))
  }

  /** The samples emitted so far, next one due at Multiple(|out|). */
  ghost predicate Marks(l: Line, h: real, out: seq<Sample>)
    requires Valid(l) && |l.verts| >= 2
  {
    out != [] && PutIn(l, out[0]) && forall k :: 1 <= k < |out| ==> Placed(l, out[k], Multiple(k, h))
  }

  lemma LengthNonNegative(l: Line)
    requires Valid(l)
    ensures Length(l) >= 0.0
  {
    StartMonotone(l.lens, 0, |l.lens|);
  }

  method WalkReach(l: Line, h: real) returns (out: seq<Sample>)
    requires Valid(l) && h > 0.0
    ensures |l.verts| < 2 ==> out == []
    ensures |l.verts| >= 2 ==> Length(l) >= 0.0 && Resampled(l, h, out)
  {
    out := [];
    if |l.verts| < 2 { return; }
    hide Placed, Multiple, Whole, Interpolate;
    var cum, nextEmit := 0.0, 0.0;
    out := [Sample(0.0, l.verts[0].lat, l.verts[0].lon)];
    nextEmit := nextEmit + h;
    NextMultiple(0, h);
    for i := 0 to |l.lens|
      invariant cum == Start(l.lens, i) && nextEmit == Multiple(|out|, h)
      invariant nextEmit - h <= cum < nextEmit
      invariant Marks(l, h, out)
    {
      var a, b := l.verts[i], l.verts[i + 1];
      var segLen := l.lens[i];
      if segLen != 0.0 {
        var segStart := cum;
        while nextEmit <= cum + segLen
          invariant cum == Start(l.lens, i) == segStart && nextEmit == Multiple(|out|, h) && nextEmit > segStart
          invariant nextEmit - h <= cum + segLen && out != []
          invariant Marks(l, h, out)
          decreases Remaining(cum + segLen - nextEmit, h)
        {
          var t := (nextEmit - segStart) / segLen;
          var at := Interpolate(a, b, t);
          var s := Sample(nextEmit / METRES_PER_MILE, at.lat, at.lon);
          PlacedThere(l, i, s, nextEmit);
          AddMark(l, h, out, s);
          RemainingFalls(cum + segLen - nextEmit, h);
          NextMultiple(|out|, h);
          out := out + [s];
          nextEmit := nextEmit + h;
        }
        cum := cum + segLen;
      }
    }
    LengthNonNegative(l);
    var last := l.verts[|l.verts| - 1];
    var lastEmit := nextEmit - h;
    NextMultiple(|out| - 1, h);
    WholeUnique(Length(l), h, |out| - 1);
    if cum - lastEmit > 1.0 {
      out := out + [Sample(cum / METRES_PER_MILE, last.lat, last.lon)];
    }
  }

  function Remaining(x: real, h: real): nat
    requires h > 0.0
  {
    if x < 0.0 then 0 else QuotientSign(x, h); (x / h).Floor + 1
  }

  lemma RemainingFalls(x: real, h: real)
    requires h > 0.0 && x >= 0.0
    ensures Remaining(x - h, h) < Remaining(x, h)
  {
    var q := x / h;
    Divided(x, h);
    if x - h >= 0.0 {
      Divided(x - h, h);
      OneLess(x, h, (x - h) / h, q);
    }
  }

  lemma OneLess(x: real, h: real, p: real, q: real)
    requires h > 0.0 && p * h == x - h && q * h == x
    ensures p == q - 1.0
  {
    assert (q - 1.0) * h == q * h - h;
    if p > q - 1.0 { Scaled(q - 1.0, p, h); }
    if p < q - 1.0 { Scaled(p, q - 1.0, h); }
  }

  lemma PlacedThere(l: Line, i: nat, s: Sample, p: real)
    requires Valid(l) && |l.verts| >= 2 && i < |l.lens| && InSegment(l, i, p)
    requires var at := Interpolate(l.verts[i], l.verts[i + 1], (p - Start(l.lens, i)) / l.lens[i]);
             s == Sample(p / METRES_PER_MILE, at.lat, at.lon)
    ensures Placed(l, s, p)
  {
    assert PlacedIn(l, i, s, p);
  }

  lemma AddMark(l: Line, h: real, out: seq<Sample>, s: Sample)
    requires Valid(l) && |l.verts| >= 2 && Marks(l, h, out) && Placed(l, s, Multiple(|out|, h))
    ensures Marks(l, h, out + [s])
  {
    hide Placed, Multiple;
  }

  // ---------------------------------------------------------------- what that means

  /** Distances strictly increase, no gap exceeds the spacing, and the last sample is at
      most one metre short of the take-out. */
  lemma EvenlySpaced(l: Line, h: real, k: nat)
    requires Valid(l) && h > 0.0 && Length(l) >= 0.0 && k < Count(l, h)
    ensures 0.0 <= Position(l, h, k) <= Length(l)
    ensures k + 1 < Count(l, h) ==> 0.0 < Position(l, h, k + 1) - Position(l, h, k) <= h
    ensures k + 1 == Count(l, h) ==> Length(l) - Position(l, h, k) <= 1.0
    ensures k == 0 ==> Position(l, h, k) == 0.0
  {
    hide Multiple, Whole, Length;
    var n := Whole(Length(l), h);
    WholeFits(Length(l), h);
    NextMultiple(n, h);
    if k <= n {
      NextMultiple(k, h);
      if k < n { MultiplesIncrease(k, n, h); }
      if k > 0 { NextMultiple(0, h); MultiplesIncrease(0, k, h); }
    }
  }

  /** Each sample carries its distance in miles. */
  lemma SamplesCarryDistance(l: Line, h: real, out: seq<Sample>, k: nat)
    requires Valid(l) && |l.verts| >= 2 && h > 0.0 && Length(l) >= 0.0 && Resampled(l, h, out) && k < |out|
    ensures out[k].dMi * METRES_PER_MILE == Position(l, h, k)
  {
    hide Whole, Interpolate, Length;
    NextMultiple(0, h);
    if k == 0 {
    } else if k <= Whole(Length(l), h) {
      var i :| PlacedIn(l, i, out[k], Multiple(k, h));
    }
  }

  lemma {:induction false} PositionsIncrease(l: Line, h: real, j: nat, k: nat)
    requires Valid(l) && h > 0.0 && Length(l) >= 0.0 && j < k < Count(l, h)
    ensures Position(l, h, j) < Position(l, h, k)
    decreases k
  {
    hide Position, Count;
    EvenlySpaced(l, h, k - 1);
    if j < k - 1 { PositionsIncrease(l, h, j, k - 1); }
  }

  /** The distances handed to the gradient computation start at zero and strictly increase,
      which is what its bisect relies on. */
  lemma DistancesIncrease(l: Line, h: real, out: seq<Sample>, j: nat, k: nat)
    requires Valid(l) && |l.verts| >= 2 && h > 0.0 && Length(l) >= 0.0 && Resampled(l, h, out) && j < k < |out|
    ensures out[0].dMi == 0.0 && out[j].dMi < out[k].dMi
  {
    hide Position, Count;
    SamplesCarryDistance(l, h, out, j);
    SamplesCarryDistance(l, h, out, k);
    SameCount(l, h, out);
    PositionsIncrease(l, h, j, k);
  }

  lemma SameCount(l: Line, h: real, out: seq<Sample>)
    requires Valid(l) && |l.verts| >= 2 && h > 0.0 && Length(l) >= 0.0 && Resampled(l, h, out)
    ensures |out| == Count(l, h)
  {
  }

  /** A position belongs to one segment only, so the polyline point is determined. */
  lemma OneSegment(l: Line, i: nat, j: nat, p: real)
    requires Valid(l) && i < |l.lens| && j < |l.lens| && InSegment(l, i, p) && InSegment(l, j, p)
    ensures i == j
  {
    if i < j { StartMonotone(l.lens, i + 1, j); }
    if j < i { StartMonotone(l.lens, j + 1, i); }
  }

  /** The output is determined by the line and the spacing. */
  lemma OneOutput(l: Line, h: real, a: seq<Sample>, b: seq<Sample>)
    requires Valid(l) && |l.verts| >= 2 && h > 0.0 && Length(l) >= 0.0
    requires Resampled(l, h, a) && Resampled(l, h, b)
    ensures a == b
  {
    hide Whole, Multiple, Interpolate, Length, Leftover;
    forall k | 0 <= k < |a| ensures a[k] == b[k] {
      if 1 <= k <= Whole(Length(l), h) {
        var i :| PlacedIn(l, i, a[k], Multiple(k, h));
        var j :| PlacedIn(l, j, b[k], Multiple(k, h));
        OneSegment(l, i, j, Multiple(k, h));
      }
    }
  }

  /** Later samples stand on the same or later segments, never before. */
  lemma SegmentsInOrder(l: Line, i: nat, j: nat, p: real, q: real)
    requires Valid(l) && i < |l.lens| && j < |l.lens| && InSegment(l, i, p) && InSegment(l, j, q) && p < q
    ensures i <= j
  {
    if j < i { StartMonotone(l.lens, j + 1, i); }
  }

  // ---------------------------------------------------------------- in the reader's terms

  /** The distances along the line at which its vertices stand. */
  ghost predicate VertexMarks(l: Line, marks: seq<real>) {
    && |marks| == |l.lens| + 1 && marks[0] == 0.0
    && forall i :: 0 <= i < |l.lens| ==> marks[i + 1] - marks[i] == l.lens[i]
  }

  /** The sample lies on the segment from a to b, at `into` of its length in both
      coordinates alike, and carries p in miles. */
  predicate OnLine(s: Sample, a: Point, b: Point, length: real, into: real, p: real) {
    && 0.0 < into <= length && s.dMi * 1609.344 == p
    && (s.lat - a.lat) * length == (b.lat - a.lat) * into
    && (s.lon - a.lon) * length == (b.lon - a.lon) * into
  }

  ghost predicate OnSomeSegment(l: Line, marks: seq<real>, s: Sample, p: real)
    requires |l.verts| >= 2 && |l.lens| == |l.verts| - 1 && VertexMarks(l, marks)
  {
    exists i :: 0 <= i < |l.lens| && OnLine(s, l.verts[i], l.verts[i + 1], l.lens[i], p - marks[i], p)
  }

  predicate AtVertex(s: Sample, v: Point, p: real) {
    s.dMi * 1609.344 == p && s.lat == v.lat && s.lon == v.lon
  }

  /** The samples of a line: the put-in, one for each of the n multiples of the spacing up
      to the length, and the take-out if it is more than a metre past the last of them. */
  ghost predicate Sampled(l: Line, h: real, marks: seq<real>, n: nat, out: seq<Sample>)
    requires |l.verts| >= 2 && |l.lens| == |l.verts| - 1 && VertexMarks(l, marks)
  {
    var length := marks[|l.lens|];
    && n as real * h <= length < (n + 1) as real * h
    && |out| == (if length - n as real * h > 1.0 then n + 2 else n + 1)
    && AtVertex(out[0], l.verts[0], 0.0)
    && (forall k :: 1 <= k <= n ==> OnSomeSegment(l, marks, out[k], k as real * h))
    && (|out| == n + 2 ==> AtVertex(out[n + 1], l.verts[|l.verts| - 1], length))
  }

  lemma PointOnLine(a: real, b: real, into: real, length: real)
    requires length > 0.0
    ensures (a + (b - a) * (into / length) - a) * length == (b - a) * into
  {
    var t := into / length;
    assert t * length == into;
    assert (b - a) * t * length == (b - a) * (t * length);
  }

  lemma PlacedOnLine(l: Line, i: nat, s: Sample, p: real)
    requires Valid(l) && |l.verts| >= 2 && PlacedIn(l, i, s, p)
    ensures OnLine(s, l.verts[i], l.verts[i + 1], l.lens[i], p - Start(l.lens, i), p)
  {
    var a, b := l.verts[i], l.verts[i + 1];
    assert Start(l.lens, i + 1) == Start(l.lens, i) + l.lens[i];
    PointOnLine(a.lat, b.lat, p - Start(l.lens, i), l.lens[i]);
    PointOnLine(a.lon, b.lon, p - Start(l.lens, i), l.lens[i]);
  }

  function Marked(l: Line): (marks: seq<real>)
    ensures VertexMarks(l, marks) && forall i :: 0 <= i <= |l.lens| ==> marks[i] == Start(l.lens, i)
  {
    seq(|l.lens| + 1, i requires 0 <= i <= |l.lens| => Start(l.lens, i))
  }

  lemma SegmentOf(l: Line, s: Sample, p: real)
    requires Valid(l) && |l.verts| >= 2 && Placed(l, s, p)
    ensures OnSomeSegment(l, Marked(l), s, p)
  {
    hide PlacedIn, OnLine;
    var i: nat :| PlacedIn(l, i, s, p);
    OnItsLine(l, i, s, p);
  }

  lemma OnItsLine(l: Line, i: nat, s: Sample, p: real)
    requires Valid(l) && |l.verts| >= 2 && PlacedIn(l, i, s, p)
    ensures i < |l.lens| && OnLine(s, l.verts[i], l.verts[i + 1], l.lens[i], p - Marked(l)[i], p)
  {
    PlacedOnLine(l, i, s, p);
    hide OnLine;
  }

  lemma SampleAt(l: Line, h: real, out: seq<Sample>, k: nat)
    requires Valid(l) && |l.verts| >= 2 && h > 0.0 && Length(l) >= 0.0 && Resampled(l, h, out)
    requires 1 <= k <= Whole(Length(l), h)
    ensures k < |out| && OnSomeSegment(l, Marked(l), out[k], k as real * h)
  {
    assert Multiple(k, h) == k as real * h;
    hide Multiple, Whole, Placed, OnSomeSegment, Length, Marked;
    SegmentOf(l, out[k], Multiple(k, h));
  }

  lemma SamplesBetween(l: Line, h: real, out: seq<Sample>)
    requires Valid(l) && |l.verts| >= 2 && h > 0.0 && Length(l) >= 0.0 && Resampled(l, h, out)
    ensures |out| > Whole(Length(l), h)
    ensures forall k :: 1 <= k <= Whole(Length(l), h) ==> OnSomeSegment(l, Marked(l), out[k], k as real * h)
  {
    hide Whole, Length, OnSomeSegment, Marked, Placed, Multiple, PutIn, TakeOut;
    forall k: int | 1 <= k <= Whole(Length(l), h) ensures OnSomeSegment(l, Marked(l), out[k], k as real * h) {
      SampleAt(l, h, out, k);
    }
  }

  lemma HowMany(l: Line, h: real)
    requires h > 0.0 && Length(l) >= 0.0
    ensures var n := Whole(Length(l), h);
            n as real * h <= Length(l) < (n + 1) as real * h
            && Count(l, h) == (if Length(l) - n as real * h > 1.0 then n + 2 else n + 1)
            && (Leftover(l, h) <==> Length(l) - n as real * h > 1.0)
  {
    hide Whole;
    WholeFits(Length(l), h);
  }

  lemma EndsAre(l: Line, h: real, out: seq<Sample>)
    requires Valid(l) && |l.verts| >= 2 && h > 0.0 && Length(l) >= 0.0 && Resampled(l, h, out)
    ensures |out| == Count(l, h) && AtVertex(out[0], l.verts[0], 0.0)
    ensures Leftover(l, h) ==> AtVertex(out[|out| - 1], l.verts[|l.verts| - 1], Length(l))
  {
    hide Placed, Whole, Multiple, Length, Leftover, Count;
  }

  /** Main result: the samples are those described. */
  lemma SamplesAre(l: Line, h: real, out: seq<Sample>) returns (n: nat)
    requires Valid(l) && |l.verts| >= 2 && h > 0.0 && Length(l) >= 0.0 && Resampled(l, h, out)
    ensures Sampled(l, h, Marked(l), n, out)
  {
    n := Whole(Length(l), h);
    assert Marked(l)[|l.lens|] == Length(l);
    HowMany(l, h);
    EndsAre(l, h, out);
    SamplesBetween(l, h, out);
    hide Whole, Resampled, OnSomeSegment, Length, Marked, VertexMarks, Leftover, Count, AtVertex, Multiple;
  }
}
