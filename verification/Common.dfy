/** Small shared vocabulary: optional values, duplicate-free sequences, and rounding
    to the nearest integer the way Python's round() does it. */
module Common {

  datatype Option<+T> = None | Some(value: T)

  ghost predicate NoDup<T>(s: seq<T>) {
    forall i, j :: 0 <= i < j < |s| ==> s[i] != s[j]
  }

  function Elems<T>(s: seq<T>): set<T> {
    set x | x in s
  }

  /** Reading a dict with a default: d.get(k, dflt). */
  function GetOr<K, V>(m: map<K, V>, k: K, dflt: V): V {
    if k in m then m[k] else dflt
  }

  function Lookup<K, V>(m: map<K, V>, k: K): Option<V> {
    if k in m then Some(m[k]) else None
  }

  function MinNat(a: nat, b: nat): nat {
    if a < b then a else b
  }

  function MinInt(a: int, b: int): int {
    if a < b then a else b
  }

  function MaxReal(a: real, b: real): real {
    if a < b then b else a
  }

  function Pow2(k: nat): (p: nat)
    ensures p >= 1
  {
    if k == 0 then 1 else 2 * Pow2(k - 1)
  }

  function AbsInt(a: int): nat {
    if a < 0 then -a else a
  }
}

/** Python's round(x) on exact reals: to nearest, ties to the even neighbour. */
module Rounding {

  function RoundHalfEven(x: real): (r: int)
    ensures -0.5 <= x - r as real <= 0.5
    ensures (x - r as real == 0.5 || x - r as real == -0.5) ==> r % 2 == 0
  {
    var f := x.Floor;
    var d := x - f as real;
    if d < 0.5 then f
    else if d > 0.5 then f + 1
    else if f % 2 == 0 then f
    else f + 1
  }

  /** Rounding never reverses an order, so sort keys built from rounded numbers
      follow the numbers. */
  lemma RoundMonotone(x: real, y: real)
    requires x <= y
    ensures RoundHalfEven(x) <= RoundHalfEven(y)
  {
    assert x.Floor <= y.Floor;
  }

  // ---------------------------------------------------------------- to other units

  /** A product and a quotient the solver need not look into. */
  function Product(x: real, y: real): real {
    x * y
  }

  function Quotient(x: real, y: real): real
    requires y != 0.0
  {
    x / y
  }

  /** v is k units, no other number of units is nearer to x, and of two as near it is the
      even one. */
  predicate Nearest(x: real, u: real, k: int, v: real) {
    && v == k as real * u && -u / 2.0 <= v - x <= u / 2.0
    && (v - x == u / 2.0 || x - v == u / 2.0 ==> k % 2 == 0)
  }

  ghost predicate RoundsTo(x: real, u: real, v: real) {
    exists k: int :: Nearest(x, u, k, v)
  }

  /** The even neighbour rule leaves one number of units. */
  lemma NearestOnly(x: real, k: int)
    requires -0.5 <= k as real - x <= 0.5 && (k as real - x == 0.5 || x - k as real == 0.5 ==> k % 2 == 0)
    ensures k == RoundHalfEven(x)
  {
    var r := RoundHalfEven(x);
    assert -1.0 <= (k - r) as real <= 1.0;
  }

  lemma ScaledOrder(a: real, b: real, u: real)
    requires u > 0.0
    ensures a <= b <==> Product(a, u) <= Product(b, u)
    ensures a == b <==> Product(a, u) == Product(b, u)
  {
    if a <= b { assert (b - a) * u >= 0.0; }
    if a > b { assert (a - b) * u > 0.0; }
  }

  lemma ScaledDifference(a: real, b: real, u: real)
    ensures Product(a - b, u) == Product(a, u) - Product(b, u)
  {
  }

  lemma ScaledHalf(u: real)
    ensures Product(0.5, u) == u / 2.0 && Product(-0.5, u) == -u / 2.0
  {
  }

  /** Rounding to units is rounding the number of units. */
  lemma RoundsToIff(x: real, y: real, u: real, v: real)
    requires u > 0.0 && x == Product(y, u)
    ensures RoundsTo(x, u, v) <==> v == Product(RoundHalfEven(y) as real, u)
  {
    hide RoundHalfEven;
    forall k: int ensures Nearest(x, u, k, v) <==> k == RoundHalfEven(y) && v == Product(k as real, u) {
      NearestIff(x, y, u, k, v);
    }
    hide Nearest;
    if v == Product(RoundHalfEven(y) as real, u) { assert Nearest(x, u, RoundHalfEven(y), v); }
  }

  lemma NearestIff(x: real, y: real, u: real, k: int, v: real)
    requires u > 0.0 && x == Product(y, u)
    ensures Nearest(x, u, k, v) <==> k == RoundHalfEven(y) && v == Product(k as real, u)
  {
    var d := k as real - y;
    ScaledDifference(k as real, y, u);
    ScaledHalf(u);
    ScaledOrder(d, 0.5, u);
    ScaledOrder(-0.5, d, u);
    ScaledOrder(d, -0.5, u);
    assert v == k as real * u <==> v == Product(k as real, u);
    hide Product, RoundHalfEven;
    if -0.5 <= d <= 0.5 && (d == 0.5 || d == -0.5 ==> k % 2 == 0) { NearestOnly(y, k); }
  }

  lemma Cancel(x: real, a: real, b: real)
    requires b * a == 1.0
    ensures Product(Product(x, a), b) == x
  {
    assert x * a * b == x * (b * a);
  }

  lemma DividedIs(x: real, a: real, b: real)
    requires a > 0.0 && b * a == 1.0
    ensures Quotient(x, a) == Product(x, b)
  {
    assert x * b * a == x * (b * a);
    assert (x * b * a) / a == x * b;
  }

  /** Scaling up, rounding and scaling down again is rounding to the inverse unit. */
  lemma ScaledRounding(x: real, scale: real, u: real, v: real)
    requires scale > 0.0 && u > 0.0 && u * scale == 1.0
    ensures RoundsTo(x, u, v) <==> v == Quotient(RoundHalfEven(Product(x, scale)) as real, scale)
  {
    hide RoundHalfEven, RoundsTo, Product, Quotient;
    Cancel(x, scale, u);
    RoundsToIff(x, Product(x, scale), u, v);
    DividedIs(RoundHalfEven(Product(x, scale)) as real, scale, u);
  }

  lemma WholeIff(x: real, v: real)
    ensures RoundsTo(x, 1.0, v) <==> v == RoundHalfEven(x) as real
  {
    hide RoundHalfEven, RoundsTo;
    RoundsToIff(x, x, 1.0, v);
  }
}

/** Decimal numerals, as str(n) and the format code 06d write them. */
module Decimal {

  function Digit(d: nat): (c: char)
    requires d < 10
    ensures '0' <= c <= '9' && c as int == '0' as int + d
  {
    ('0' as int + d) as char
  }

  function Digits(n: nat): (s: string)
    ensures |s| >= 1 && forall i :: 0 <= i < |s| ==> '0' <= s[i] <= '9'
  {
    if n < 10 then [Digit(n)] else Digits(n / 10) + [Digit(n % 10)]
  }

  lemma {:induction false} DigitsInjective(a: nat, b: nat)
    requires Digits(a) == Digits(b)
    ensures a == b
    decreases a
  {
    var s, t := Digits(a), Digits(b);
    assert s[|s| - 1] == Digit(a % 10) && t[|t| - 1] == Digit(b % 10);
    if a >= 10 && b >= 10 {
      assert s[..|s| - 1] == Digits(a / 10) && t[..|t| - 1] == Digits(b / 10);
      DigitsInjective(a / 10, b / 10);
    }
  }
}

/** Whole multiples of a positive real: int(x / h) and the marks k * h around it. */
module Multiples {

  /** The k-th multiple. */
  function Multiple(k: nat, h: real): real {
    k as real * h
  }

  lemma NextMultiple(k: nat, h: real)
    ensures Multiple(k + 1, h) == Multiple(k, h) + h && Multiple(0, h) == 0.0 && Multiple(1, h) == h
  {
  }

  lemma {:induction false} MultiplesIncrease(j: nat, k: nat, h: real)
    requires j < k && h > 0.0
    ensures Multiple(j, h) + h <= Multiple(k, h)
    decreases k
  {
    hide Multiple;
    NextMultiple(k - 1, h);
    if j < k - 1 { MultiplesIncrease(j, k - 1, h); }
  }

  /** int(x / h) of a non-negative x: how many whole multiples fit. */
  function Whole(x: real, h: real): nat
    requires x >= 0.0 && h > 0.0
  {
    QuotientSign(x, h);
    (x / h).Floor
  }

  lemma QuotientSign(x: real, h: real)
    requires x >= 0.0 && h > 0.0
    ensures x / h >= 0.0
  {
  }

  lemma Divided(x: real, h: real)
    requires h > 0.0
    ensures x == (x / h) * h
  {
  }

  lemma Scaled(a: real, b: real, h: real)
    requires h > 0.0 && a < b
    ensures a * h < b * h
  {
    assert (b - a) * h > 0.0;
  }

  lemma QuotientBounds(x: real, h: real, q: real, n: nat)
    requires h > 0.0 && q == x / h && n as real <= q < (n + 1) as real
    ensures Multiple(n, h) <= x < Multiple(n + 1, h)
  {
    var low, high := n as real, (n + 1) as real;
    assert x == q * h by { Divided(x, h); }
    assert low * h <= q * h by { if low < q { Scaled(low, q, h); } }
    assert q * h < high * h by { Scaled(q, high, h); }
    assert Multiple(n, h) == low * h && Multiple(n + 1, h) == high * h;
  }

  lemma WholeFits(x: real, h: real)
    requires x >= 0.0 && h > 0.0
    ensures Multiple(Whole(x, h), h) <= x < Multiple(Whole(x, h) + 1, h)
  {
    var q, n := x / h, Whole(x, h);
    assert n as real <= q < (n + 1) as real;
    QuotientBounds(x, h, q, n);
  }

  /** There is one such number. */
  lemma WholeUnique(x: real, h: real, n: nat)
    requires x >= 0.0 && h > 0.0 && Multiple(n, h) <= x < Multiple(n + 1, h)
    ensures n == Whole(x, h)
  {
    hide Multiple, Whole;
    WholeFits(x, h);
    var m := Whole(x, h);
    if m < n { NextMultiple(m, h); MultiplesIncrease(m, n, h); }
    if n < m { NextMultiple(n, h); MultiplesIncrease(n, m, h); }
  }

  lemma WholeMonotone(x: real, y: real, h: real)
    requires 0.0 <= x <= y && h > 0.0
    ensures Whole(x, h) <= Whole(y, h)
  {
    hide Multiple, Whole;
    WholeFits(x, h);
    WholeFits(y, h);
    var a, b := Whole(x, h), Whole(y, h);
    if b < a { NextMultiple(b, h); MultiplesIncrease(b, a, h); }
  }
}
