/** When the rounded interpolation of a rising table is a rising function. Inside the table
    it always is; what can break it are the two end values, which are not rounded. */
module RatingMonotone {
  import opened Common
  import opened Rounding
  import opened RatingTable

  function ValueAt(t: Table, v: real, unit: real): real
    requires t != []
  {
    InterpolateTotal(t, v, unit);
    Interpolate(t, v, unit).value
  }

  ghost predicate Monotone(t: Table, unit: real)
    requires t != []
  {
    forall v, w :: v <= w ==> ValueAt(t, v, unit) <= ValueAt(t, w, unit)
  }

  predicate Inside(t: Table, v: real)
    requires t != []
  {
    t[0].0 < v < t[|t| - 1].0
  }

  function Units(k: int, unit: real): real {
    k as real * unit
  }

  /** What values just above z round to. */
  function HalfUp(z: real): (h: int)
    ensures h as real - 0.5 <= z < h as real + 0.5
  {
    (z + 0.5).Floor
  }

  /** What values just below z round to. */
  function HalfDown(z: real): (h: int)
    ensures h as real - 0.5 < z <= h as real + 0.5
  {
    -HalfUp(-z)
  }

  /** The last entry that shares the first one's argument. */
  function LeavesStart(t: Table, i: nat): (r: nat)
    requires i < |t| && t[i].0 == t[0].0
    ensures i <= r < |t| && t[r].0 == t[0].0 && (r + 1 < |t| ==> t[r + 1].0 != t[0].0)
    decreases |t| - i
  {
    if i + 1 < |t| && t[i + 1].0 == t[0].0 then LeavesStart(t, i + 1) else i
  }

  /** The first entry that shares the last one's argument. */
  function ReachesEnd(t: Table, j: nat): (r: nat)
    requires j < |t| && t[j].0 == t[|t| - 1].0
    ensures r <= j && t[r].0 == t[|t| - 1].0 && (r > 0 ==> t[r - 1].0 != t[|t| - 1].0)
  {
    if j > 0 && t[j - 1].0 == t[|t| - 1].0 then ReachesEnd(t, j - 1) else j
  }

  /** Just after the start the rounded values do not fall below the unrounded first one. */
  predicate StartFits(t: Table, unit: real)
    requires t != [] && unit > 0.0
  {
    var i := LeavesStart(t, 0);
    i + 1 < |t| ==>
      (if t[i].1 < t[i + 1].1 then Units(HalfUp(t[i].1 / unit), unit) >= t[0].1 else RoundTo(t[i].1, unit) >= t[0].1)
  }

  /** Just before the end the rounded values do not rise above the unrounded last one. */
  predicate EndFits(t: Table, unit: real)
    requires t != [] && unit > 0.0
  {
    var j, n := ReachesEnd(t, |t| - 1), |t| - 1;
    j > 0 ==>
      (if t[j - 1].1 < t[j].1 then Units(HalfDown(t[j].1 / unit), unit) <= t[n].1 else RoundTo(t[j].1, unit) <= t[n].1)
  }

  // ---------------------------------------------------------------- rounding to units

  lemma UnitsOrder(k: int, m: int, unit: real)
    requires k <= m && unit > 0.0
    ensures Units(k, unit) <= Units(m, unit)
  {
    assert (m - k) as real * unit >= 0.0;
  }

  lemma RoundToUnits(x: real, unit: real)
    requires unit > 0.0
    ensures RoundTo(x, unit) == Units(RoundHalfEven(x / unit), unit)
  {
  }

  lemma RoundToOrder(x: real, y: real, unit: real)
    requires x <= y && unit > 0.0
    ensures RoundTo(x, unit) <= RoundTo(y, unit)
  {
    hide *;
    RoundToUnits(x, unit);
    RoundToUnits(y, unit);
    QuotientOrder(x, y, unit);
    RoundMonotone(x / unit, y / unit);
    UnitsOrder(RoundHalfEven(x / unit), RoundHalfEven(y / unit), unit);
  }

  lemma AboveRounds(z: real, a: real)
    requires z < a
    ensures RoundHalfEven(a) >= HalfUp(z)
  {
  }

  lemma BelowRounds(z: real, a: real)
    requires a < z
    ensures RoundHalfEven(a) <= HalfDown(z)
  {
  }

  /** Between any two numbers there is one that rounds as numbers just above the lower do. */
  lemma NearAbove(x: real, y: real, unit: real) returns (e: real)
    requires x < y && unit > 0.0
    ensures x < e < y && RoundTo(e, unit) == Units(HalfUp(x / unit), unit)
  {
    QuotientOrder(x, y, unit);
    var z, top := x / unit, y / unit;
    var h := HalfUp(z) as real + 0.5;
    var m := (z + if h < top then h else top) / 2.0;
    assert RoundHalfEven(m) == HalfUp(z);
    e := Product(unit, m);
    UnitsBack(m, unit);
    RoundToUnits(e, unit);
    BackInOrder(x, z, m, e, unit);
    BackBelow(y, top, m, e, unit);
  }

  lemma NearBelow(x: real, y: real, unit: real) returns (e: real)
    requires x < y && unit > 0.0
    ensures x < e < y && RoundTo(e, unit) == Units(HalfDown(y / unit), unit)
  {
    QuotientOrder(x, y, unit);
    var low, z := x / unit, y / unit;
    var h := HalfDown(z) as real - 0.5;
    var m := (z + if h > low then h else low) / 2.0;
    assert RoundHalfEven(m) == HalfDown(z);
    e := Product(unit, m);
    UnitsBack(m, unit);
    RoundToUnits(e, unit);
    BackInOrder(x, low, m, e, unit);
    BackBelow(y, z, m, e, unit);
  }

  lemma UnitsBack(m: real, unit: real)
    requires unit > 0.0
    ensures Product(unit, m) / unit == m
  {
  }

  lemma BackInOrder(x: real, z: real, m: real, e: real, unit: real)
    requires unit > 0.0 && z == x / unit && z < m && e == Product(unit, m)
    ensures x < e
  {
    hide *;
    UnitsBack(m, unit);
    QuotientOrder(e, x, unit);
  }

  lemma BackBelow(y: real, z: real, m: real, e: real, unit: real)
    requires unit > 0.0 && z == y / unit && m < z && e == Product(unit, m)
    ensures e < y
  {
    hide *;
    UnitsBack(m, unit);
    QuotientOrder(y, e, unit);
  }

  // ---------------------------------------------------------------- inside the table

  /** An interior value is the rounding of the exact one. */
  lemma InsideRounds(t: Table, v: real, unit: real)
    requires t != [] && Inside(t, v)
    ensures ValueAt(t, v, unit) == RoundTo(ValueAt(t, v, 0.0), unit)
  {
    InterpolateTotal(t, v, unit);
  }

  lemma InsideOrder(t: Table, v: real, w: real, unit: real)
    requires Rising(t) && t != [] && Inside(t, v) && Inside(t, w) && v <= w && unit > 0.0
    ensures ValueAt(t, v, unit) <= ValueAt(t, w, unit)
  {
    ExactMonotone(t, v, w);
    InsideRounds(t, v, unit);
    InsideRounds(t, w, unit);
    RoundToOrder(ValueAt(t, v, 0.0), ValueAt(t, w, 0.0), unit);
  }

  ghost predicate AboveStart(t: Table, unit: real)
    requires t != []
  {
    forall v :: Inside(t, v) ==> ValueAt(t, v, unit) >= t[0].1
  }

  ghost predicate BelowEnd(t: Table, unit: real)
    requires t != []
  {
    forall v :: Inside(t, v) ==> ValueAt(t, v, unit) <= t[|t| - 1].1
  }

  /** Only the two ends can break the order. */
  lemma MonotoneIffBetween(t: Table, unit: real)
    requires Rising(t) && t != [] && unit > 0.0
    ensures Monotone(t, unit) <==> AboveStart(t, unit) && BelowEnd(t, unit)
  {
    var n := |t| - 1;
    if Monotone(t, unit) {
      forall v | Inside(t, v) ensures t[0].1 <= ValueAt(t, v, unit) <= t[n].1 {
        assert ValueAt(t, t[0].0, unit) <= ValueAt(t, v, unit) <= ValueAt(t, t[n].0, unit);
      }
    }
    if AboveStart(t, unit) && BelowEnd(t, unit) {
      forall v, w | v <= w ensures ValueAt(t, v, unit) <= ValueAt(t, w, unit) {
        if Inside(t, v) && Inside(t, w) { InsideOrder(t, v, w, unit); }
        assert Ascending(t) && t[0].1 <= t[n].1;
      }
    }
  }

  // ---------------------------------------------------------------- near the ends

  lemma SegmentPoint(p: (real, real), q: (real, real), e: real) returns (v: real)
    requires p.0 < q.0 && p.1 < e < q.1
    ensures p.0 < v < q.0 && OnSegment(p, q, v) == e
  {
    var part := (e - p.1) / (q.1 - p.1);
    var rise := q.1 - p.1;
    QuotientProduct(e - p.1, rise);
    Share(e - p.1, rise);
    var run := q.0 - p.0;
    v := p.0 + Product(run, part);
    PartOf(run, part);
    PartSlope(run, rise, part);
  }

  lemma Share(x: real, whole: real)
    requires 0.0 < x < whole
    ensures 0.0 < x / whole < 1.0
  {
    QuotientOrder(x, whole, whole);
    assert whole / whole == 1.0;
  }

  lemma PartOf(run: real, part: real)
    requires run > 0.0 && 0.0 < part < 1.0
    ensures 0.0 < Product(run, part) < run
  {
    Positive(run, part);
    Positive(run, 1.0 - part);
    Distribute(run, 1.0, part);
  }

  lemma Positive(a: real, b: real)
    requires a > 0.0 && b > 0.0
    ensures Product(a, b) > 0.0
  {
  }

  lemma PartSlope(run: real, rise: real, part: real)
    requires run > 0.0
    ensures rise / run * Product(run, part) == Product(rise, part)
  {
    assert rise / run * run == rise;
    assert rise / run * (run * part) == (rise / run * run) * part;
  }

  /** The segment a point strictly inside one segment falls into, past vertical ones. */
  lemma OwnSegment(t: Table, i: nat, v: real)
    requires Ascending(t) && i + 1 < |t| && t[i].0 < v < t[i + 1].0
    ensures Inside(t, v) && ValueAt(t, v, 0.0) == OnSegment(t[i], t[i + 1], v)
  {
    assert t[0].0 <= t[i].0 && t[i + 1].0 <= t[|t| - 1].0;
    FirstIsFirst(t, 0, i, v);
    var s := FirstSegment(t, 0, v).value;
  }

  lemma StartIff(t: Table, unit: real)
    requires Rising(t) && t != [] && unit > 0.0 && t[0].0 < t[|t| - 1].0
    ensures AboveStart(t, unit) <==> StartFits(t, unit)
  {
    hide Interpolate, ValueAt, RoundTo, OnSegment, Units, HalfUp, LeavesStart, FirstSegment;
    var i := LeavesStart(t, 0);
    assert i + 1 < |t| && t[i].0 < t[i + 1].0;
    if AboveStart(t, unit) {
      var v := StartWitness(t, i, unit);
    }
    if StartFits(t, unit) {
      forall v | Inside(t, v) ensures ValueAt(t, v, unit) >= t[0].1 {
        AtLeastStart(t, i, v, unit);
      }
    }
  }

  /** An argument just after the start whose rounded value is the least one. */
  lemma StartWitness(t: Table, i: nat, unit: real) returns (v: real)
    requires Rising(t) && i + 1 < |t| && t[i].0 < t[i + 1].0 && unit > 0.0
    ensures Inside(t, v)
    ensures ValueAt(t, v, unit) == if t[i].1 < t[i + 1].1 then Units(HalfUp(t[i].1 / unit), unit) else RoundTo(t[i].1, unit)
  {
    hide Interpolate, ValueAt, RoundTo, Units, HalfUp, FirstSegment;
    if t[i].1 < t[i + 1].1 {
      var e := NearAbove(t[i].1, t[i + 1].1, unit);
      v := SegmentPoint(t[i], t[i + 1], e);
    } else {
      v := (t[i].0 + t[i + 1].0) / 2.0;
      SegmentBounds(t[i], t[i + 1], v);
    }
    OwnSegment(t, i, v);
    InsideRounds(t, v, unit);
  }

  lemma AtLeastStart(t: Table, i: nat, v: real, unit: real)
    requires Rising(t) && i + 1 < |t| && t[i].0 == t[0].0 < t[i + 1].0 && Inside(t, v) && unit > 0.0
    ensures ValueAt(t, v, unit) >= if t[i].1 < t[i + 1].1 then Units(HalfUp(t[i].1 / unit), unit) else RoundTo(t[i].1, unit)
  {
    hide RoundTo, Units, HalfUp;
    InterpolateTotal(t, v, 0.0);
    var s := FirstSegment(t, 0, v).value;
    var e := ValueAt(t, v, 0.0);
    assert RoundTo(OnSegment(t[s], t[s + 1], v), 0.0) == e == OnSegment(t[s], t[s + 1], v) by { Unrounded(OnSegment(t[s], t[s + 1], v)); }
    SegmentBounds(t[s], t[s + 1], v);
    assert e >= t[s].1 >= t[i].1;
    InsideRounds(t, v, unit);
    if t[i].1 < t[i + 1].1 {
      if s == i { StrictlyAbove(t[i], t[i + 1], v); } else { assert t[s].1 >= t[i + 1].1; }
      RoundsAbove(t[i].1, e, unit);
    } else {
      RoundToOrder(t[i].1, e, unit);
    }
  }

  lemma Unrounded(x: real)
    ensures RoundTo(x, 0.0) == x
  {
  }

  lemma RoundsAbove(x: real, e: real, unit: real)
    requires x < e && unit > 0.0
    ensures RoundTo(e, unit) >= Units(HalfUp(x / unit), unit)
  {
    hide *;
    QuotientOrder(x, e, unit);
    AboveRounds(x / unit, e / unit);
    RoundToUnits(e, unit);
    UnitsOrder(HalfUp(x / unit), RoundHalfEven(e / unit), unit);
  }

  lemma RoundsBelow(x: real, e: real, unit: real)
    requires e < x && unit > 0.0
    ensures RoundTo(e, unit) <= Units(HalfDown(x / unit), unit)
  {
    hide *;
    QuotientOrder(e, x, unit);
    BelowRounds(x / unit, e / unit);
    RoundToUnits(e, unit);
    UnitsOrder(RoundHalfEven(e / unit), HalfDown(x / unit), unit);
  }

  lemma EndIff(t: Table, unit: real)
    requires Rising(t) && t != [] && unit > 0.0 && t[0].0 < t[|t| - 1].0
    ensures BelowEnd(t, unit) <==> EndFits(t, unit)
  {
    hide Interpolate, ValueAt, RoundTo, OnSegment, Units, HalfDown, ReachesEnd, FirstSegment;
    var j := ReachesEnd(t, |t| - 1);
    assert j > 0 && t[j - 1].0 < t[j].0;
    if BelowEnd(t, unit) {
      var v := EndWitness(t, j, unit);
    }
    if EndFits(t, unit) {
      forall v | Inside(t, v) ensures ValueAt(t, v, unit) <= t[|t| - 1].1 {
        AtMostEnd(t, j, v, unit);
      }
    }
  }

  /** An argument just before the end whose rounded value is the greatest one. */
  lemma EndWitness(t: Table, j: nat, unit: real) returns (v: real)
    requires Rising(t) && 0 < j < |t| && t[j - 1].0 < t[j].0 && unit > 0.0
    ensures Inside(t, v)
    ensures ValueAt(t, v, unit) == if t[j - 1].1 < t[j].1 then Units(HalfDown(t[j].1 / unit), unit) else RoundTo(t[j].1, unit)
  {
    hide Interpolate, ValueAt, RoundTo, Units, HalfDown, FirstSegment;
    if t[j - 1].1 < t[j].1 {
      var e := NearBelow(t[j - 1].1, t[j].1, unit);
      v := SegmentPoint(t[j - 1], t[j], e);
    } else {
      v := (t[j - 1].0 + t[j].0) / 2.0;
      SegmentBounds(t[j - 1], t[j], v);
    }
    OwnSegment(t, j - 1, v);
    InsideRounds(t, v, unit);
  }

  lemma AtMostEnd(t: Table, j: nat, v: real, unit: real)
    requires Rising(t) && 0 < j < |t| && t[j - 1].0 < t[j].0 == t[|t| - 1].0 && Inside(t, v) && unit > 0.0
    ensures ValueAt(t, v, unit) <= if t[j - 1].1 < t[j].1 then Units(HalfDown(t[j].1 / unit), unit) else RoundTo(t[j].1, unit)
  {
    hide RoundTo, Units, HalfDown;
    InterpolateTotal(t, v, 0.0);
    var s := FirstSegment(t, 0, v).value;
    var e := ValueAt(t, v, 0.0);
    assert e == OnSegment(t[s], t[s + 1], v) by { Unrounded(OnSegment(t[s], t[s + 1], v)); }
    SegmentBounds(t[s], t[s + 1], v);
    assert e <= t[s + 1].1 <= t[j].1;
    InsideRounds(t, v, unit);
    if t[j - 1].1 < t[j].1 {
      if s == j - 1 { StrictlyBelow(t[j - 1], t[j], v); } else { assert t[s + 1].1 <= t[j - 1].1; }
      RoundsBelow(t[j].1, e, unit);
    } else {
      RoundToOrder(e, t[j].1, unit);
    }
  }

  /** The exact condition: a rising table gives a rising rounded function if and only if its
      two end values fit the values they meet, which depends on the first and the last
      segment that is not vertical. */
  lemma RoundedMonotoneIff(t: Table, unit: real)
    requires Rising(t) && t != [] && unit > 0.0
    ensures Monotone(t, unit) <==> t[0].0 == t[|t| - 1].0 || (StartFits(t, unit) && EndFits(t, unit))
  {
    hide Monotone, AboveStart, BelowEnd, StartFits, EndFits, ValueAt;
    MonotoneIffBetween(t, unit);
    if t[0].0 < t[|t| - 1].0 {
      StartIff(t, unit);
      EndIff(t, unit);
    } else {
      NoInside(t, unit);
    }
  }

  lemma NoInside(t: Table, unit: real)
    requires t != [] && t[0].0 >= t[|t| - 1].0
    ensures AboveStart(t, unit) && BelowEnd(t, unit)
  {
  }

  /** In particular if both end values are whole multiples of the unit. */
  lemma WholeEndsMonotone(t: Table, unit: real, a: int, b: int)
    requires Rising(t) && t != [] && unit > 0.0
    requires t[0].1 == Units(a, unit) && t[|t| - 1].1 == Units(b, unit)
    ensures Monotone(t, unit)
  {
    hide Monotone, RoundTo, Units, HalfUp, HalfDown;
    RoundedMonotoneIff(t, unit);
    if t[0].0 < t[|t| - 1].0 {
      var i, j := LeavesStart(t, 0), ReachesEnd(t, |t| - 1);
      WholeBelow(a, t[i].1, unit);
      WholeAbove(b, t[j].1, unit);
    }
  }

  lemma WholeQuotient(k: int, unit: real)
    requires unit > 0.0
    ensures Units(k, unit) / unit == k as real
  {
  }

  lemma WholeBelow(k: int, x: real, unit: real)
    requires unit > 0.0 && Units(k, unit) <= x
    ensures Units(HalfUp(x / unit), unit) >= Units(k, unit) && RoundTo(x, unit) >= Units(k, unit)
  {
    hide Units, RoundTo;
    QuotientOrder(Units(k, unit), x, unit);
    WholeQuotient(k, unit);
    RoundToUnits(x, unit);
    UnitsOrder(k, HalfUp(x / unit), unit);
    UnitsOrder(k, RoundHalfEven(x / unit), unit);
  }

  lemma WholeAbove(k: int, x: real, unit: real)
    requires unit > 0.0 && x <= Units(k, unit)
    ensures Units(HalfDown(x / unit), unit) <= Units(k, unit) && RoundTo(x, unit) <= Units(k, unit)
  {
    hide Units, RoundTo;
    QuotientOrder(x, Units(k, unit), unit);
    WholeQuotient(k, unit);
    RoundToUnits(x, unit);
    UnitsOrder(HalfDown(x / unit), k, unit);
    UnitsOrder(RoundHalfEven(x / unit), k, unit);
  }
}
