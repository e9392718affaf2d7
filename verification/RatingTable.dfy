/** Interpolation in a rating table (utils/conversions.py). */
module RatingTable {
  import opened Common
  import opened Rounding

  type Table = seq<(real, real)>

  predicate Ascending(t: Table) {
    forall i, j :: 0 <= i < j < |t| ==> t[i].0 <= t[j].0
  }

  predicate Rising(t: Table) {
    Ascending(t) && forall i, j :: 0 <= i < j < |t| ==> t[i].1 <= t[j].1
  }

  function OnSegment(p: (real, real), q: (real, real), v: real): real
    requires p.0 <= v <= q.0
  {
    if p.0 == q.0 then p.1 else p.1 + (q.1 - p.1) / (q.0 - p.0) * (v - p.0)
  }

  predicate InSegment(t: Table, i: nat, v: real)
    requires i + 1 < |t|
  {
    t[i].0 <= v <= t[i + 1].0
  }

  /** The first segment from i on that contains v. */
  function FirstSegment(t: Table, i: nat, v: real): (s: Option<nat>)
    ensures s.Some? ==> i <= s.value && s.value + 1 < |t| && InSegment(t, s.value, v)
    ensures s.None? ==> forall j :: i <= j && j + 1 < |t| ==> !InSegment(t, j, v)
    decreases |t| - i
  {
    if i + 1 >= |t| then None else if InSegment(t, i, v) then Some(i) else FirstSegment(t, i + 1, v)
  }

  function RoundTo(x: real, unit: real): real {
    if unit > 0.0 then RoundHalfEven(x / unit) as real * unit else x
  }

  /** Clamped to the end values, which are not rounded; rounded in between. */
  function Interpolate(t: Table, v: real, unit: real): Option<real> {
    if t == [] then None
    else if v <= t[0].0 then Some(t[0].1)
    else if v >= t[|t| - 1].0 then Some(t[|t| - 1].1)
    else
      var s := FirstSegment(t, 0, v);
      if s.None? then None else Some(RoundTo(OnSegment(t[s.value], t[s.value + 1], v), unit))
  }

  method InterpolateRating(t: Table, v: real, unit: real) returns (r: Option<real>)
    ensures r == Interpolate(t, v, unit)
  {
    if t == [] { return None; }
    if v <= t[0].0 { return Some(t[0].1); }
    if v >= t[|t| - 1].0 { return Some(t[|t| - 1].1); }
    var i := 0;
    while i + 1 < |t|
      invariant 0 <= i < |t|
      invariant FirstSegment(t, 0, v) == FirstSegment(t, i, v)
    {
      if InSegment(t, i, v) {
        assert FirstSegment(t, 0, v) == Some(i);
        return Some(RoundTo(OnSegment(t[i], t[i + 1], v), unit));
      }
      i := i + 1;
    }
    return None;
  }

  lemma {:induction false} SegmentExists(t: Table, i: nat, v: real)
    requires i < |t| && t[i].0 <= v <= t[|t| - 1].0 && i + 1 < |t|
    ensures FirstSegment(t, i, v).Some?
    decreases |t| - i
  {
    if !InSegment(t, i, v) { SegmentExists(t, i + 1, v); }
  }

  /** A table with entries answers every question. */
  lemma InterpolateTotal(t: Table, v: real, unit: real)
    requires t != []
    ensures Interpolate(t, v, unit).Some?
  {
    if t[0].0 < v < t[|t| - 1].0 { SegmentExists(t, 0, v); }
  }

  lemma SegmentBounds(p: (real, real), q: (real, real), v: real)
    requires p.0 <= v <= q.0 && p.1 <= q.1
    ensures p.1 <= OnSegment(p, q, v) <= q.1
  {
    if p.0 < q.0 {
      var slope := (q.1 - p.1) / (q.0 - p.0);
      assert slope * (q.0 - p.0) == q.1 - p.1;
      Scale(slope, 0.0, v - p.0);
      Scale(slope, v - p.0, q.0 - p.0);
    }
  }

  lemma Scale(slope: real, a: real, b: real)
    requires slope >= 0.0 && a <= b
    ensures slope * a <= slope * b
  {
    assert slope * (b - a) >= 0.0;
  }

  lemma SegmentMonotone(p: (real, real), q: (real, real), v: real, w: real)
    requires p.0 <= v <= w <= q.0 && p.1 <= q.1
    ensures OnSegment(p, q, v) <= OnSegment(p, q, w)
  {
    if p.0 < q.0 {
      var slope := (q.1 - p.1) / (q.0 - p.0);
      assert slope * (q.0 - p.0) == q.1 - p.1;
      Scale(slope, v - p.0, w - p.0);
    }
  }

  lemma EndBounds(t: Table, v: real)
    requires Rising(t) && t != []
    ensures Interpolate(t, v, 0.0).Some? && t[0].1 <= Interpolate(t, v, 0.0).value <= t[|t| - 1].1
  {
    InterpolateTotal(t, v, 0.0);
    if t[0].0 < v < t[|t| - 1].0 {
      var s := FirstSegment(t, 0, v).value;
      SegmentBounds(t[s], t[s + 1], v);
    }
  }

  /** Without rounding, a rising table is a rising function. */
  lemma ExactMonotone(t: Table, v: real, w: real)
    requires Rising(t) && t != [] && v <= w
    ensures Interpolate(t, v, 0.0).Some? && Interpolate(t, w, 0.0).Some?
    ensures Interpolate(t, v, 0.0).value <= Interpolate(t, w, 0.0).value
  {
    EndBounds(t, v);
    EndBounds(t, w);
    if t[0].0 < v && w < t[|t| - 1].0 {
      var i, j := FirstSegment(t, 0, v).value, FirstSegment(t, 0, w).value;
      SegmentBounds(t[i], t[i + 1], v);
      SegmentBounds(t[j], t[j + 1], w);
      if i == j {
        SegmentMonotone(t[i], t[i + 1], v, w);
      } else if j < i {
        assert t[j + 1].0 <= t[i].0;
        FirstIsFirst(t, 0, j, v);
      }
    }
  }

  /** Nothing before the first segment contains v. */
  lemma {:induction false} FirstIsFirst(t: Table, i: nat, j: nat, v: real)
    requires i <= j && j + 1 < |t| && InSegment(t, j, v)
    ensures FirstSegment(t, i, v).Some? && FirstSegment(t, i, v).value <= j
    decreases |t| - i
  {
    if !InSegment(t, i, v) { FirstIsFirst(t, i + 1, j, v); }
  }

  /** Rounding moves a value by at most half a unit. */
  lemma WithinHalfUnit(t: Table, v: real, unit: real)
    requires t != [] && unit > 0.0
    ensures Interpolate(t, v, unit).Some? && Interpolate(t, v, 0.0).Some?
    ensures var d := Interpolate(t, v, unit).value - Interpolate(t, v, 0.0).value; -0.5 * unit <= d <= 0.5 * unit
  {
    InterpolateTotal(t, v, unit);
    InterpolateTotal(t, v, 0.0);
    if t[0].0 < v < t[|t| - 1].0 {
      var s := FirstSegment(t, 0, v).value;
      RoundToNear(OnSegment(t[s], t[s + 1], v), unit);
    }
  }

  /** A product the solver need not look into. */
  lemma QuotientProduct(x: real, unit: real)
    requires unit > 0.0
    ensures x == Product(unit, x / unit)
  {
  }

  lemma Distribute(u: real, a: real, b: real)
    ensures Product(u, a - b) == Product(u, a) - Product(u, b)
  {
  }

  lemma QuotientOrder(x: real, y: real, unit: real)
    requires unit > 0.0
    ensures x < y ==> x / unit < y / unit
    ensures x <= y ==> x / unit <= y / unit
  {
    QuotientProduct(x, unit);
    QuotientProduct(y, unit);
    if x / unit >= y / unit { Scale(unit, y / unit, x / unit); }
  }

  lemma StrictlyAbove(p: (real, real), q: (real, real), v: real)
    requires p.0 < v <= q.0 && p.1 < q.1
    ensures OnSegment(p, q, v) > p.1
  {
    QuotientOrder(0.0, q.1 - p.1, q.0 - p.0);
    assert (q.1 - p.1) / (q.0 - p.0) * (v - p.0) > 0.0;
  }

  lemma StrictlyBelow(p: (real, real), q: (real, real), v: real)
    requires p.0 <= v < q.0 && p.1 < q.1
    ensures OnSegment(p, q, v) < q.1
  {
    QuotientOrder(0.0, q.1 - p.1, q.0 - p.0);
    var slope := (q.1 - p.1) / (q.0 - p.0);
    assert slope * (q.0 - p.0) == q.1 - p.1;
    assert slope * (q.0 - v) > 0.0;
    assert slope * (q.0 - p.0) == slope * (q.0 - v) + slope * (v - p.0);
  }

  lemma ProductBetween(u: real, d: real)
    requires u > 0.0 && -0.5 <= d <= 0.5
    ensures -0.5 * u <= Product(u, d) <= 0.5 * u
  {
    assert u * (d + 0.5) >= 0.0 && u * (0.5 - d) >= 0.0;
  }

  lemma NearScaled(unit: real, r: real, y: real)
    requires unit > 0.0 && -0.5 <= y - r <= 0.5
    ensures -0.5 * unit <= Product(unit, r) - Product(unit, y) <= 0.5 * unit
  {
    hide *;
    ProductBetween(unit, r - y);
    Distribute(unit, r, y);
  }

  lemma RoundToNear(x: real, unit: real)
    requires unit > 0.0
    ensures -0.5 * unit <= RoundTo(x, unit) - x <= 0.5 * unit
  {
    var y := x / unit;
    var r := RoundHalfEven(y) as real;
    assert RoundTo(x, unit) == Product(unit, r);
    hide *;
    NearScaled(unit, r, y);
    QuotientProduct(x, unit);
  }

  /** (v, y) lies on the line through p and q. */
  predicate OnLine(p: (real, real), q: (real, real), v: real, y: real) {
    if p.0 == q.0 then y == p.1 else (y - p.1) * (q.0 - p.0) == (q.1 - p.1) * (v - p.0)
  }

  /** Entries i and i + 1 are the first neighbours with v between them. */
  predicate FirstAround(t: Table, i: nat, v: real) {
    i + 1 < |t| && t[i].0 <= v <= t[i + 1].0 && forall j: nat :: j < i ==> !InSegment(t, j, v)
  }

  ghost predicate RoundedIfWanted(y: real, unit: real, r: real) {
    if unit > 0.0 then RoundsTo(y, unit, r) else r == y
  }

  /** The answer of a table: the end values outside, the rounded point of the line between
      the neighbours inside. */
  ghost predicate Rates(t: Table, v: real, unit: real, r: real)
    requires t != []
  {
    if v <= t[0].0 then r == t[0].1
    else if v >= t[|t| - 1].0 then r == t[|t| - 1].1
    else exists i: nat, y :: FirstAround(t, i, v) && OnLine(t[i], t[i + 1], v, y) && RoundedIfWanted(y, unit, r)
  }

  lemma Solved(a: real, b: real, y: real)
    requires a > 0.0
    ensures y * a == b <==> y == b / a
  {
    assert b / a * a == b && (y * a) / a == y;
  }

  lemma Slope(rise: real, run: real, part: real)
    requires run > 0.0
    ensures rise * part / run == rise / run * part
  {
  }

  lemma OnLineIff(p: (real, real), q: (real, real), v: real, y: real)
    requires p.0 <= v <= q.0
    ensures OnLine(p, q, v, y) <==> y == OnSegment(p, q, v)
  {
    if p.0 < q.0 {
      var run, rise, part := q.0 - p.0, q.1 - p.1, v - p.0;
      Solved(run, rise * part, y - p.1);
      Slope(rise, run, part);
    }
  }

  lemma RoundedIff(y: real, unit: real, r: real)
    ensures RoundedIfWanted(y, unit, r) <==> r == RoundTo(y, unit)
  {
    if unit > 0.0 {
      QuotientProduct(y, unit);
      RoundsToIff(y, y / unit, unit, r);
    }
  }

  /** Main result: the answer is the one described, and there is exactly one. */
  lemma RatesIff(t: Table, v: real, unit: real, r: real)
    requires t != []
    ensures Interpolate(t, v, unit) == Some(r) <==> Rates(t, v, unit, r)
  {
    if t[0].0 < v < t[|t| - 1].0 {
      InterpolateTotal(t, v, unit);
      var s := FirstSegment(t, 0, v).value;
      OnlyFirst(t, v);
      var p, q := t[s], t[s + 1];
      OnLineIff(p, q, v, OnSegment(p, q, v));
      RoundedIff(OnSegment(p, q, v), unit, r);
      hide RoundTo, RoundedIfWanted;
      forall y ensures OnLine(p, q, v, y) <==> y == OnSegment(p, q, v) { OnLineIff(p, q, v, y); }
      hide OnLine, OnSegment, FirstAround, FirstSegment;
    }
  }

  lemma OnlyFirst(t: Table, v: real)
    requires t != [] && t[0].0 < v < t[|t| - 1].0
    ensures FirstSegment(t, 0, v).Some? && forall i: nat :: FirstAround(t, i, v) <==> i == FirstSegment(t, 0, v).value
  {
    SegmentExists(t, 0, v);
    var s := FirstSegment(t, 0, v).value;
    FirstIsLeast(t, 0, v);
    forall i: nat | FirstAround(t, i, v) ensures i == s {
      FirstIsFirst(t, 0, i, v);
    }
  }

  lemma {:induction false} FirstIsLeast(t: Table, i: nat, v: real)
    requires FirstSegment(t, i, v).Some?
    ensures forall j: nat :: i <= j < FirstSegment(t, i, v).value ==> !InSegment(t, j, v)
    decreases |t| - i
  {
    if !InSegment(t, i, v) { FirstIsLeast(t, i + 1, v); }
  }

  /** The rounded function need not rise: the ends keep their unrounded values. */
  lemma RoundedEndDips() returns (t: Table)
    ensures Rising(t) && Interpolate(t, 9.99, 0.1) == Some(1.1) && Interpolate(t, 10.0, 0.1) == Some(1.06)
  {
    t := [(0.0, 0.0), (10.0, 1.06)];
    assert InSegment(t, 0, 9.99);
    assert OnSegment(t[0], t[1], 9.99) == 1.05894;
    assert FirstSegment(t, 0, 9.99) == Some(0);
    TenthsOf(OnSegment(t[0], t[1], 9.99), 0.1);
  }

  lemma TenthsOf(x: real, unit: real)
    requires x == 1.05894 && unit == 0.1
    ensures RoundTo(x, unit) == 1.1
  {
    assert x / unit == 10.5894;
    assert RoundHalfEven(x / unit) == 11;
  }

  // ---------------------------------------------------------------- the reverse table

  /** Insertion after all entries not greater: a stable sort, one entry at a time. */
  function InsertByX(e: (real, real), t: Table): (ins: Table)
    ensures multiset(ins) == multiset(t) + multiset{e}
  {
    if t == [] || e.0 < t[0].0 then [e] + t
    else
      assert t == [t[0]] + t[1..];
      [t[0]] + InsertByX(e, t[1..])
  }

  /** The (flow, height) pairs of a rating in ascending order of flow. */
  function CfsToFeet(feetToCfs: Table): (t: Table)
    ensures |t| == |feetToCfs|
    ensures Ascending(t)
  {
    if feetToCfs == [] then []
    else
      var last := feetToCfs[|feetToCfs| - 1];
      var rest := CfsToFeet(feetToCfs[..|feetToCfs| - 1]);
      InsertAscending((last.1, last.0), rest);
      InsertByX((last.1, last.0), rest)
  }

  /** The columns exchanged, in the order of the table. */
  function Swapped(t: Table): Table {
    seq(|t|, i requires 0 <= i < |t| => (t[i].1, t[i].0))
  }

  function IfAt(e: (real, real), x: real): Table {
    if e.0 == x then [e] else []
  }

  /** The entries with argument x, in their order. */
  function AtX(t: Table, x: real): Table {
    if t == [] then [] else IfAt(t[0], x) + AtX(t[1..], x)
  }

  lemma AtXUnfolds(t: Table, x: real)
    requires t != []
    ensures AtX(t, x) == IfAt(t[0], x) + AtX(t[1..], x)
  {
  }

  lemma {:induction false} AtXAppend(a: Table, b: Table, x: real)
    ensures AtX(a + b, x) == AtX(a, x) + AtX(b, x)
  {
    if a == [] {
      assert a + b == b;
    } else {
      hide *;
      AtXAppend(a[1..], b, x);
      AtXUnfolds(a, x);
      AtXUnfolds(a + b, x);
      TailOfTwo(a, b);
      Associate(IfAt(a[0], x), AtX(a[1..], x), AtX(b, x));
    }
  }

  lemma TailOfTwo(a: Table, b: Table)
    requires a != []
    ensures (a + b)[0] == a[0] && (a + b)[1..] == a[1..] + b
  {
  }

  lemma Associate(a: Table, b: Table, c: Table)
    ensures (a + b) + c == a + (b + c)
  {
  }

  lemma {:induction false} AtXAbsent(t: Table, x: real)
    requires forall i :: 0 <= i < |t| ==> t[i].0 != x
    ensures AtX(t, x) == []
  {
    if t != [] { AtXAbsent(t[1..], x); }
  }

  lemma AtXBehind(h: (real, real), a: Table, b: Table, x: real)
    requires AtX(a, x) == AtX(b, x)
    ensures AtX([h] + a, x) == AtX([h] + b, x)
  {
    AtXAppend([h], a, x);
    AtXAppend([h], b, x);
  }

  lemma AtXSwap(e: (real, real), t: Table, x: real)
    requires forall i :: 0 <= i < |t| ==> e.0 < t[i].0
    ensures AtX([e] + t, x) == AtX(t + [e], x)
  {
    AtXAppend([e], t, x);
    AtXAppend(t, [e], x);
    if e.0 == x { AtXAbsent(t, x); }
  }

  lemma {:induction false} InsertAtX(e: (real, real), t: Table, x: real)
    requires Ascending(t)
    ensures AtX(InsertByX(e, t), x) == AtX(t + [e], x)
  {
    hide AtX;
    if t == [] || e.0 < t[0].0 {
      AtXSwap(e, t, x);
    } else {
      InsertAtX(e, t[1..], x);
      AtXBehind(t[0], InsertByX(e, t[1..]), t[1..] + [e], x);
      assert [t[0]] + (t[1..] + [e]) == t + [e];
    }
  }

  /** The reverse table is the stable sort of the exchanged pairs: the same pairs, in
      ascending order of flow, heights of one flow in the order of the rating. */
  lemma {:induction false} ReverseIsStableSort(t: Table)
    ensures Ascending(CfsToFeet(t)) && multiset(CfsToFeet(t)) == multiset(Swapped(t))
    ensures forall x :: AtX(CfsToFeet(t), x) == AtX(Swapped(t), x)
  {
    hide InsertByX, Ascending, AtX;
    if t != [] {
      var front, last := t[..|t| - 1], t[|t| - 1];
      var e := (last.1, last.0);
      ReverseIsStableSort(front);
      ReverseUnfolds(t);
      hide CfsToFeet;
      assert Swapped(t) == Swapped(front) + [e];
      forall x ensures AtX(CfsToFeet(t), x) == AtX(Swapped(t), x) {
        InsertAtX(e, CfsToFeet(front), x);
        AtXAppend(CfsToFeet(front), [e], x);
        AtXAppend(Swapped(front), [e], x);
      }
    }
  }

  lemma {:induction false} InsertAscending(e: (real, real), t: Table)
    requires Ascending(t)
    ensures Ascending(InsertByX(e, t)) && |InsertByX(e, t)| == |t| + 1
    ensures InsertByX(e, t)[0] == e || (t != [] && InsertByX(e, t)[0] == t[0])
  {
    if t != [] && t[0].0 <= e.0 {
      assert Ascending(t[1..]);
      InsertAscending(e, t[1..]);
    }
  }

  lemma {:induction false} InsertLast(e: (real, real), t: Table)
    requires forall i :: 0 <= i < |t| ==> t[i].0 <= e.0
    ensures InsertByX(e, t) == t + [e]
  {
    if t != [] {
      InsertLast(e, t[1..]);
      assert t == [t[0]] + t[1..];
    }
  }

  lemma ReverseUnfolds(t: Table)
    requires t != []
    ensures CfsToFeet(t) == InsertByX((t[|t| - 1].1, t[|t| - 1].0), CfsToFeet(t[..|t| - 1]))
  {
  }

  lemma ReverseAppends(t: Table)
    requires t != [] && forall e :: e in CfsToFeet(t[..|t| - 1]) ==> e.0 <= t[|t| - 1].1
    ensures CfsToFeet(t) == CfsToFeet(t[..|t| - 1]) + [(t[|t| - 1].1, t[|t| - 1].0)]
  {
    hide *;
    ReverseUnfolds(t);
    InsertLast((t[|t| - 1].1, t[|t| - 1].0), CfsToFeet(t[..|t| - 1]));
  }

  /** For a strictly rising rating the reverse table is the table with its columns swapped. */
  lemma {:induction false} ReverseIsSwap(t: Table)
    requires Strictly(t)
    ensures |CfsToFeet(t)| == |t| && forall i :: 0 <= i < |t| ==> CfsToFeet(t)[i] == (t[i].1, t[i].0)
  {
    hide CfsToFeet;
    if t != [] {
      var front, last := t[..|t| - 1], t[|t| - 1];
      ReverseIsSwap(front);
      var rest := CfsToFeet(front);
      forall e | e in rest ensures e.0 <= last.1 {
        var i :| 0 <= i < |rest| && rest[i] == e;
        assert front[i] == t[i] && t[i].1 < last.1;
      }
      ReverseAppends(t);
    }
  }

  predicate IsSwap(t: Table, u: Table) {
    |u| == |t| && forall i :: 0 <= i < |t| ==> u[i] == (t[i].1, t[i].0)
  }

  lemma ReverseSwapped(t: Table)
    requires Strictly(t)
    ensures IsSwap(t, CfsToFeet(t)) && IsSwap(CfsToFeet(t), t) && Strictly(CfsToFeet(t))
  {
    ReverseIsSwap(t);
    hide CfsToFeet;
  }

  lemma SlopesCancel(run: real, rise: real, d: real)
    requires run > 0.0 && rise > 0.0
    ensures Product(run / rise, Product(rise / run, d)) == d
  {
    var a, b := run / rise, rise / run;
    assert a * rise == run && b * run == rise;
    assert (a * b) * run == a * (b * run);
    assert (a * b - 1.0) * run == 0.0;
    assert a * b == 1.0;
    assert a * (b * d) == (a * b) * d;
  }

  /** On a rising segment the segment with exchanged columns leads back. */
  lemma SegmentInverts(p: (real, real), q: (real, real), v: real)
    requires p.0 < v <= q.0 && p.1 < q.1
    ensures var y := OnSegment(p, q, v);
            && p.1 < y <= q.1 && (v < q.0 ==> y < q.1)
            && OnSegment((p.1, p.0), (q.1, q.0), y) == v
  {
    SegmentBounds(p, q, v);
    StrictlyAbove(p, q, v);
    if v < q.0 { StrictlyBelow(p, q, v); }
    SlopesCancel(q.0 - p.0, q.1 - p.1, v - p.0);
  }

  /** The first segment of a strictly rising table that contains an inner argument is
      entered from the left. */
  lemma InnerSegment(t: Table, v: real) returns (s: nat)
    requires Strictly(t) && t != [] && t[0].0 < v < t[|t| - 1].0
    ensures s + 1 < |t| && t[s].0 < v <= t[s + 1].0
    ensures Interpolate(t, v, 0.0) == Some(OnSegment(t[s], t[s + 1], v))
  {
    SegmentExists(t, 0, v);
    s := FirstSegment(t, 0, v).value;
    if v == t[s].0 { FirstIsFirst(t, 0, s - 1, v); }
  }

  lemma AtSegment(t: Table, s: nat, v: real)
    requires Strictly(t) && s + 1 < |t| && t[s].0 < v <= t[s + 1].0 && v < t[|t| - 1].0
    ensures Interpolate(t, v, 0.0) == Some(OnSegment(t[s], t[s + 1], v))
  {
    assert t[0].0 <= t[s].0;
    var r := InnerSegment(t, v);
  }

  /** Interpolating there and back. */
  lemma SwapInverts(t: Table, u: Table, v: real)
    requires Strictly(t) && IsSwap(t, u) && t != [] && t[0].0 <= v <= t[|t| - 1].0
    ensures Interpolate(t, v, 0.0).Some? && Interpolate(u, Interpolate(t, v, 0.0).value, 0.0) == Some(v)
  {
    assert Strictly(u);
    if t[0].0 < v < t[|t| - 1].0 {
      var s := InnerSegment(t, v);
      hide Interpolate;
      SegmentInverts(t[s], t[s + 1], v);
      hide OnSegment;
      AtSegment(u, s, OnSegment(t[s], t[s + 1], v));
    }
  }

  /** Every entry is met exactly, both ways. */
  lemma EntriesMet(t: Table, i: nat)
    requires Strictly(t) && i < |t|
    ensures Interpolate(t, t[i].0, 0.0) == Some(t[i].1)
    ensures Interpolate(CfsToFeet(t), t[i].1, 0.0) == Some(t[i].0)
  {
    ReverseSwapped(t);
    AtEntry(t, i);
    AtEntry(CfsToFeet(t), i);
  }

  lemma AtEntry(t: Table, i: nat)
    requires Strictly(t) && i < |t|
    ensures Interpolate(t, t[i].0, 0.0) == Some(t[i].1)
  {
    if 0 < i < |t| - 1 {
      AtSegment(t, i - 1, t[i].0);
      SegmentEnd(t[i - 1], t[i]);
    }
  }

  lemma SegmentEnd(p: (real, real), q: (real, real))
    requires p.0 < q.0
    ensures OnSegment(p, q, q.0) == q.1
  {
  }

  /** For a strictly rising rating, height to flow and back is the identity on every height
      from the first entry to the last, and flow to height and back on every flow. */
  lemma RatingInverts(t: Table, v: real)
    requires Strictly(t) && t != []
    ensures t[0].0 <= v <= t[|t| - 1].0 ==>
              Interpolate(t, v, 0.0).Some? && Interpolate(CfsToFeet(t), Interpolate(t, v, 0.0).value, 0.0) == Some(v)
    ensures t[0].1 <= v <= t[|t| - 1].1 ==>
              Interpolate(CfsToFeet(t), v, 0.0).Some? && Interpolate(t, Interpolate(CfsToFeet(t), v, 0.0).value, 0.0) == Some(v)
  {
    ReverseSwapped(t);
    hide Interpolate, CfsToFeet;
    if t[0].0 <= v <= t[|t| - 1].0 { SwapInverts(t, CfsToFeet(t), v); }
    if t[0].1 <= v <= t[|t| - 1].1 { SwapInverts(CfsToFeet(t), t, v); }
  }

  predicate Strictly(t: Table) {
    forall i, j :: 0 <= i < j < |t| ==> t[i].0 < t[j].0 && t[i].1 < t[j].1
  }
}
