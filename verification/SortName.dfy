/** Code-point order of strings: the order of Python's str and of the BINARY collation. */
module TextOrder {

  predicate Less(s: string, t: string) {
    t != [] && (s == [] || s[0] < t[0] || (s[0] == t[0] && Less(s[1..], t[1..])))
  }

  predicate NotAfter(s: string, t: string) {
    s == t || Less(s, t)
  }

  predicate Free(s: string, c: char) {
    forall i :: 0 <= i < |s| ==> s[i] != c
  }

  lemma {:induction false} LessTotal(s: string, t: string)
    ensures s == t || Less(s, t) || Less(t, s)
    ensures !(Less(s, t) && Less(t, s)) && !Less(s, s)
  {
    if s != [] { LessTotal(s[1..], s[1..]); }
    if s != [] && t != [] && s[0] == t[0] {
      LessTotal(s[1..], t[1..]);
      assert s == [s[0]] + s[1..] && t == [t[0]] + t[1..];
    }
  }

  lemma {:induction false} LessTransitive(s: string, t: string, u: string)
    requires Less(s, t) && Less(t, u)
    ensures Less(s, u)
  {
    if s != [] && s[0] == t[0] == u[0] { LessTransitive(s[1..], t[1..], u[1..]); }
  }

  /** A common prefix does not matter. */
  lemma {:induction false} LessAfterPrefix(p: string, s: string, t: string)
    ensures Less(p + s, p + t) <==> Less(s, t)
  {
    if p == [] {
      assert p + s == s && p + t == t;
    } else {
      LessAfterPrefix(p[1..], s, t);
      assert (p + s)[1..] == p[1..] + s && (p + t)[1..] == p[1..] + t;
    }
  }

  /** Fields closed by a delimiter they do not contain compare one after the other. */
  lemma {:induction false} LessByField(x: string, y: string, d: char, s: string, t: string)
    requires Free(x, d) && Free(y, d)
    ensures Less(x + [d] + s, y + [d] + t) <==> Less(x + [d], y + [d]) || (x == y && Less(s, t))
  {
    var p, q := x + [d] + s, y + [d] + t;
    var u, v := x + [d], y + [d];
    assert x != [] ==> p[0] == x[0] == u[0] && p[1..] == x[1..] + [d] + s && u[1..] == x[1..] + [d];
    assert y != [] ==> q[0] == y[0] == v[0] && q[1..] == y[1..] + [d] + t && v[1..] == y[1..] + [d];
    assert x == [] ==> p[0] == d == u[0] && p[1..] == s && u[1..] == [];
    assert y == [] ==> q[0] == d == v[0] && q[1..] == t && v[1..] == [];
    if x != [] && y != [] {
      LessByField(x[1..], y[1..], d, s, t);
      assert x == [x[0]] + x[1..] && y == [y[0]] + y[1..];
    }
  }

  /** Between two strings with a common prefix every string has that prefix. */
  lemma {:induction false} Between(p: string, s: string, m: string, t: string)
    requires NotAfter(p + s, m) && NotAfter(m, p + t)
    ensures p <= m
  {
    if p != [] {
      assert (p + s)[1..] == p[1..] + s && (p + t)[1..] == p[1..] + t;
      assert p[0] == (p + s)[0] == (p + t)[0];
      Between(p[1..], s, m[1..], t);
      assert p == [p[0]] + p[1..] && m == [m[0]] + m[1..];
    }
  }

  /** Two delimited fields that start the same string are the same field. */
  lemma {:induction false} SameField(x: string, y: string, d: char, m: string)
    requires Free(x, d) && Free(y, d) && x + [d] <= m && y + [d] <= m
    ensures x == y
  {
    assert m[|x|] == (x + [d])[|x|] == d && m[|y|] == (y + [d])[|y|] == d;
    assert forall i :: 0 <= i < |x| ==> m[i] == (x + [d])[i] == x[i];
    assert forall i :: 0 <= i < |y| ==> m[i] == (y + [d])[i] == y[i];
  }
}

/** Zero-padded numbers: the format codes 06d and 02d. */
module PaddedNumber {
  import opened Decimal
  import opened TextOrder

  function Ten(w: nat): (p: nat)
    ensures p >= 1
  {
    if w == 0 then 1 else 10 * Ten(w - 1)
  }

  function Zeros(k: int): (s: string) {
    if k <= 0 then "" else "0" + Zeros(k - 1)
  }

  /** Python's format(n, "0<w>d"): the sign counts towards the width. */
  function Pad(n: int, w: nat): string {
    if n >= 0 then Zeros(w - |Digits(n)|) + Digits(n)
    else "-" + Zeros(w - 1 - |Digits(-n)|) + Digits(-n)
  }

  /** Exactly w digits. */
  function Fixed(n: nat, w: nat): (s: string)
    ensures |s| == w && forall i :: 0 <= i < |s| ==> '0' <= s[i] <= '9'
  {
    if w == 0 then "" else Fixed(n / 10, w - 1) + [Digit(n % 10)]
  }

  lemma {:induction false} FixedZero(w: nat)
    ensures Fixed(0, w) == Zeros(w)
  {
    if w > 0 {
      FixedZero(w - 1);
      ZerosEnd(w);
    }
  }

  lemma {:induction false} ZerosEnd(w: nat)
    requires w > 0
    ensures Zeros(w) == Zeros(w - 1) + "0"
  {
    if w > 1 { ZerosEnd(w - 1); }
  }

  /** A number that fits is written with leading zeros. */
  lemma {:induction false} PadIsFixed(n: nat, w: nat)
    requires w >= 1 && n < Ten(w)
    ensures |Digits(n)| <= w && Pad(n, w) == Fixed(n, w)
  {
    if n < 10 {
      FixedZero(w - 1);
    } else {
      assert w > 1;
      PadIsFixed(n / 10, w - 1);
      assert Pad(n, w) == Zeros(w - 1 - |Digits(n / 10)|) + (Digits(n / 10) + [Digit(n % 10)]);
    }
  }

  /** Fixed-width numerals compare as numbers, whatever follows them. */
  lemma {:induction false} FixedOrder(a: nat, b: nat, w: nat, s: string, t: string)
    requires a < Ten(w) && b < Ten(w)
    ensures Less(Fixed(a, w) + s, Fixed(b, w) + t) <==> a < b || (a == b && Less(s, t))
  {
    if w == 0 {
      assert Fixed(a, w) + s == s && Fixed(b, w) + t == t;
    } else {
      var x, y := [Digit(a % 10)] + s, [Digit(b % 10)] + t;
      FixedOrder(a / 10, b / 10, w - 1, x, y);
      assert Fixed(a, w) + s == Fixed(a / 10, w - 1) + x && Fixed(b, w) + t == Fixed(b / 10, w - 1) + y;
      assert x[1..] == s && y[1..] == t;
    }
  }

  lemma PadOrder(a: nat, b: nat, w: nat, s: string, t: string)
    requires w >= 1 && a < Ten(w) && b < Ten(w)
    ensures Less(Pad(a, w) + s, Pad(b, w) + t) <==> a < b || (a == b && Less(s, t))
  {
    PadIsFixed(a, w);
    PadIsFixed(b, w);
    FixedOrder(a, b, w, s, t);
  }

  lemma PadNegative(n: int, w: nat)
    requires n > 0 && w >= 2 && n < Ten(w - 1)
    ensures Pad(-n, w) == "-" + Fixed(n, w - 1)
  {
    PadIsFixed(n, w - 1);
    assert "-" + Zeros(w - 1 - |Digits(n)|) + Digits(n) == "-" + (Zeros(w - 1 - |Digits(n)|) + Digits(n));
  }

  /** Signed numbers that fit: below zero the order of the texts is reversed. */
  lemma PadOrderSigned(a: int, b: int, w: nat, s: string, t: string)
    requires w >= 2 && a < b && a + Ten(w - 1) > 0 && b < Ten(w)
    ensures Less(Pad(a, w) + s, Pad(b, w) + t) <==> b >= 0
    ensures Less(Pad(b, w) + t, Pad(a, w) + s) <==> b < 0
  {
    hide Pad, Less, Fixed;
    if b < 0 {
      PadOrderBelowZero(-a, -b, w, s, t);
      PadOrderBelowZero(-b, -a, w, t, s);
    } else if a >= 0 {
      PadOrder(a, b, w, s, t);
      PadOrder(b, a, w, t, s);
    } else {
      MinusFirst(-a, b, w, s, t);
    }
  }

  lemma PadOrderBelowZero(a: int, b: int, w: nat, s: string, t: string)
    requires w >= 2 && 0 < a < Ten(w - 1) && 0 < b < Ten(w - 1) && a != b
    ensures Less(Pad(-a, w) + s, Pad(-b, w) + t) <==> a < b
  {
    hide Pad, Less, Fixed;
    PadNegative(a, w);
    PadNegative(b, w);
    var p, q := Fixed(a, w - 1) + s, Fixed(b, w - 1) + t;
    FixedOrder(a, b, w - 1, s, t);
    LessAfterPrefix("-", p, q);
    assert Pad(-a, w) + s == "-" + p && Pad(-b, w) + t == "-" + q;
  }

  lemma MinusFirst(a: int, b: nat, w: nat, s: string, t: string)
    requires w >= 2 && 0 < a < Ten(w - 1) && b < Ten(w)
    ensures Less(Pad(-a, w) + s, Pad(b, w) + t) && !Less(Pad(b, w) + t, Pad(-a, w) + s)
  {
    hide Pad;
    PadNegative(a, w);
    PadIsFixed(b, w);
    assert (Pad(-a, w) + s)[0] == '-' && '0' <= (Pad(b, w) + t)[0] <= '9';
  }
}

/** The composite key scripts/seed_gauge_display.py stores in gauge.sort_name. */
module SortName {
  import opened Common
  import opened Rounding
  import opened TextOrder
  import opened PaddedNumber

  /** A gauge row after its river name was split: basin in lower case, fork label ("" on
      the main stem). */
  datatype Row = Row(basin: string, fork: string, elevation: Option<real>, area: Option<real>)

  /** Curated fork orders by basin. */
  type Curated = map<string, seq<string>>

  function IndexOf(order: seq<string>, f: string): (i: nat)
    requires f in order
    ensures i < |order| && order[i] == f && forall k :: 0 <= k < i ==> order[k] != f
  {
    if order[0] == f then 0 else 1 + IndexOf(order[1..], f)
  }

  function RankFork(curated: Curated, basin: string, fork: string): string {
    if fork == "" then fork
    else if basin !in curated then fork
    else if fork !in curated[basin] then "99" + "-" + fork
    else Pad(IndexOf(curated[basin], fork), 2) + "-" + fork
  }

  function ElevationNumber(e: Option<real>): int {
    if e.Some? then RoundHalfEven(10000.0 - e.value) else 999999
  }

  function AreaNumber(a: Option<real>): int {
    if a.Some? then RoundHalfEven(a.value) else 999999
  }

  /** fork_rank and label: "0" before a fork's label, "9" on the main stem. */
  function Label(curated: Curated, r: Row): string {
    (if r.fork != "" then "0" else "9") + RankFork(curated, r.basin, r.fork)
  }

  function BuildSortName(curated: Curated, r: Row): string {
    r.basin + "|" + Label(curated, r) + "|" + Pad(ElevationNumber(r.elevation), 6) + "|" + Pad(AreaNumber(r.area), 6)
  }

  // ---------------------------------------------------------------- the tuple it stands for

  predicate Fits(n: int) {
    0 <= n <= 999999
  }

  predicate NumbersFit(r: Row) {
    Fits(ElevationNumber(r.elevation)) && Fits(AreaNumber(r.area))
  }

  predicate Delimited(r: Row) {
    Free(r.basin, '|') && Free(r.fork, '|')
  }

  /** Basin, then forks before the main stem, then fork label, then falling elevation,
      then rising area; an unknown number counts as the largest. */
  predicate TupleLess(curated: Curated, a: Row, b: Row) {
    Less(a.basin + "|", b.basin + "|") ||
    (a.basin == b.basin &&
     (Less(Label(curated, a) + "|", Label(curated, b) + "|") ||
      (Label(curated, a) == Label(curated, b) &&
       (ElevationNumber(a.elevation) < ElevationNumber(b.elevation) ||
        (ElevationNumber(a.elevation) == ElevationNumber(b.elevation) &&
         AreaNumber(a.area) < AreaNumber(b.area))))))
  }

  function Numbers(r: Row): string {
    Pad(ElevationNumber(r.elevation), 6) + "|" + Pad(AreaNumber(r.area), 6)
  }

  lemma NameIsFields(curated: Curated, r: Row)
    ensures BuildSortName(curated, r) == r.basin + ['|'] + (Label(curated, r) + ['|'] + Numbers(r))
  {
    hide Pad, Label, ElevationNumber, AreaNumber;
  }

  lemma DigitsFree(n: nat)
    ensures Free(Pad(n, 2), '|')
  {
    ZerosFree(2 - |Decimal.Digits(n)|);
  }

  lemma {:induction false} ZerosFree(k: int)
    ensures forall i :: 0 <= i < |Zeros(k)| ==> Zeros(k)[i] == '0'
  {
    if k > 0 { ZerosFree(k - 1); }
  }

  lemma LabelFree(curated: Curated, r: Row)
    requires Free(r.fork, '|')
    ensures Free(Label(curated, r), '|')
  {
    hide Pad;
    if r.fork != "" && r.basin in curated && r.fork in curated[r.basin] {
      DigitsFree(IndexOf(curated[r.basin], r.fork));
    }
  }

  lemma NumbersOrder(a: Row, b: Row)
    requires NumbersFit(a) && NumbersFit(b)
    ensures Less(Numbers(a), Numbers(b)) <==>
            ElevationNumber(a.elevation) < ElevationNumber(b.elevation) ||
            (ElevationNumber(a.elevation) == ElevationNumber(b.elevation) && AreaNumber(a.area) < AreaNumber(b.area))
  {
    hide Less, Pad, ElevationNumber, AreaNumber;
    var ea, eb := ElevationNumber(a.elevation), ElevationNumber(b.elevation);
    var na, nb := AreaNumber(a.area), AreaNumber(b.area);
    assert Ten(6) == 1000000;
    PadOrder(ea, eb, 6, "|" + Pad(na, 6), "|" + Pad(nb, 6));
    LessAfterPrefix("|", Pad(na, 6), Pad(nb, 6));
    PadOrder(na, nb, 6, "", "");
    LessTotal("", "");
    assert Pad(na, 6) + "" == Pad(na, 6) && Pad(nb, 6) + "" == Pad(nb, 6);
    assert Numbers(a) == Pad(ea, 6) + ("|" + Pad(na, 6)) && Numbers(b) == Pad(eb, 6) + ("|" + Pad(nb, 6));
  }

  /** Sorting the one text column sorts by the whole tuple. */
  lemma KeyOrderIsTupleOrder(curated: Curated, a: Row, b: Row)
    requires Delimited(a) && Delimited(b) && NumbersFit(a) && NumbersFit(b)
    ensures Less(BuildSortName(curated, a), BuildSortName(curated, b)) <==> TupleLess(curated, a, b)
  {
    hide Less, BuildSortName, Label, ElevationNumber, AreaNumber, Numbers;
    NameIsFields(curated, a);
    NameIsFields(curated, b);
    LabelFree(curated, a);
    LabelFree(curated, b);
    var la, lb := Label(curated, a), Label(curated, b);
    LessByField(a.basin, b.basin, '|', la + ['|'] + Numbers(a), lb + ['|'] + Numbers(b));
    LessByField(la, lb, '|', Numbers(a), Numbers(b));
    NumbersOrder(a, b);
  }

  // ---------------------------------------------------------------- what the page promises

  /** Rows in key order, ties in any order. */
  predicate InKeyOrder(curated: Curated, rows: seq<Row>) {
    forall i, j :: 0 <= i < j < |rows| ==>
      NotAfter(BuildSortName(curated, rows[i]), BuildSortName(curated, rows[j]))
  }

  /** A basin's rows stand together, and within it each fork's rows, whatever their numbers. */
  lemma BasinsContiguous(curated: Curated, rows: seq<Row>, i: nat, j: nat, k: nat)
    requires InKeyOrder(curated, rows) && i < j < k < |rows|
    requires forall x :: 0 <= x < |rows| ==> Delimited(rows[x])
    requires rows[i].basin == rows[k].basin
    ensures rows[j].basin == rows[i].basin
    ensures Label(curated, rows[i]) == Label(curated, rows[k]) ==> Label(curated, rows[j]) == Label(curated, rows[i])
  {
    var a, m, b := rows[i], rows[j], rows[k];
    assert NotAfter(BuildSortName(curated, a), BuildSortName(curated, m));
    assert NotAfter(BuildSortName(curated, m), BuildSortName(curated, b));
    MiddleRow(curated, a, m, b);
  }

  lemma MiddleRow(curated: Curated, a: Row, m: Row, b: Row)
    requires NotAfter(BuildSortName(curated, a), BuildSortName(curated, m))
    requires NotAfter(BuildSortName(curated, m), BuildSortName(curated, b))
    requires Delimited(a) && Delimited(m) && Delimited(b) && a.basin == b.basin
    ensures m.basin == a.basin
    ensures Label(curated, a) == Label(curated, b) ==> Label(curated, m) == Label(curated, a)
  {
    hide BuildSortName, Label, Numbers, NotAfter;
    NameIsFields(curated, a);
    NameIsFields(curated, m);
    NameIsFields(curated, b);
    var head := a.basin + ['|'];
    var la, lm, lb := Label(curated, a), Label(curated, m), Label(curated, b);
    var ta, tm, tb := la + ['|'] + Numbers(a), lm + ['|'] + Numbers(m), lb + ['|'] + Numbers(b);
    Between(head, ta, BuildSortName(curated, m), tb);
    SameField(a.basin, m.basin, '|', BuildSortName(curated, m));
    if la == lb {
      assert NotAfter(ta, tm) && NotAfter(tm, tb) by { DropPrefix(head, ta, tm); DropPrefix(head, tm, tb); }
      Between(la + ['|'], Numbers(a), tm, Numbers(b));
      LabelFree(curated, a);
      LabelFree(curated, m);
      SameField(la, lm, '|', tm);
    }
  }

  lemma DropPrefix(p: string, s: string, t: string)
    requires NotAfter(p + s, p + t)
    ensures NotAfter(s, t)
  {
    LessAfterPrefix(p, s, t);
    assert p + s == p + t ==> s == (p + s)[|p|..] == t;
  }

  /** Forks come before the main stem of their basin, whatever their numbers. */
  lemma ForksFirst(curated: Curated, a: Row, b: Row)
    requires a.basin == b.basin && a.fork != "" && b.fork == ""
    ensures Less(BuildSortName(curated, a), BuildSortName(curated, b))
  {
    hide BuildSortName, Numbers, RankFork;
    NameIsFields(curated, a);
    NameIsFields(curated, b);
    var ta := Label(curated, a) + ['|'] + Numbers(a);
    var tb := Label(curated, b) + ['|'] + Numbers(b);
    assert ta[0] == '0' && tb[0] == '9';
    LessAfterPrefix(a.basin + ['|'], ta, tb);
  }

  /** Position of a fork in its basin's confluence order; unlisted forks share the last. */
  function Rank(order: seq<string>, f: string): nat {
    if f in order then IndexOf(order, f) else 99
  }

  /** In a curated basin forks follow the curated order, and unlisted ones come after all
      listed ones, whatever their initial letter and their numbers. */
  lemma CuratedOrderHolds(curated: Curated, a: Row, b: Row)
    requires a.basin == b.basin && a.basin in curated && |curated[a.basin]| <= 99
    requires a.fork != "" && b.fork != "" && Rank(curated[a.basin], a.fork) < Rank(curated[a.basin], b.fork)
    ensures Less(BuildSortName(curated, a), BuildSortName(curated, b))
  {
    hide *;
    var order := curated[a.basin];
    var x, y := Rank(order, a.fork), Rank(order, b.fork);
    CuratedName(curated, a);
    CuratedName(curated, b);
    TwoDigits();
    PadOrder(x, y, 2, AfterRank(a), AfterRank(b));
    LessAfterPrefix(a.basin + ['|'] + "0", Pad(x, 2) + AfterRank(a), Pad(y, 2) + AfterRank(b));
  }

  function AfterRank(r: Row): string {
    "-" + r.fork + ['|'] + Numbers(r)
  }

  lemma CuratedName(curated: Curated, r: Row)
    requires r.basin in curated && r.fork != "" && |curated[r.basin]| <= 99
    ensures Rank(curated[r.basin], r.fork) <= 99
    ensures BuildSortName(curated, r) ==
            r.basin + ['|'] + "0" + (Pad(Rank(curated[r.basin], r.fork), 2) + AfterRank(r))
  {
    hide BuildSortName, Label, Numbers, Pad, Rank;
    NameIsFields(curated, r);
    CuratedLabel(curated, r);
    var n := Pad(Rank(curated[r.basin], r.fork), 2);
    assert "0" + n + "-" + r.fork + ['|'] + Numbers(r) == "0" + (n + AfterRank(r));
  }

  lemma TwoDigits()
    ensures Ten(2) == 100
  {
  }

  lemma PadNines()
    ensures Pad(99, 2) == "99"
  {
    assert Decimal.Digits(9) == [Decimal.Digit(9)];
    assert Decimal.Digits(99) == Decimal.Digits(9) + [Decimal.Digit(9)];
  }

  lemma CuratedLabel(curated: Curated, r: Row)
    requires r.basin in curated && r.fork != "" && |curated[r.basin]| <= 99
    ensures Rank(curated[r.basin], r.fork) <= 99
    ensures Label(curated, r) == "0" + Pad(Rank(curated[r.basin], r.fork), 2) + "-" + r.fork
  {
    hide Pad;
    PadNines();
    Regroup("0", Pad(Rank(curated[r.basin], r.fork), 2), "-", r.fork);
  }

  predicate SameGroup(curated: Curated, a: Row, b: Row) {
    a.basin == b.basin && Label(curated, a) == Label(curated, b)
  }

  lemma GroupOrder(curated: Curated, a: Row, b: Row)
    requires SameGroup(curated, a, b)
    ensures Less(BuildSortName(curated, a), BuildSortName(curated, b)) <==> Less(Numbers(a), Numbers(b))
  {
    hide Less, BuildSortName, Label, Numbers;
    NameIsFields(curated, a);
    NameIsFields(curated, b);
    var head := a.basin + ['|'] + Label(curated, a) + ['|'];
    LessAfterPrefix(head, Numbers(a), Numbers(b));
    assert BuildSortName(curated, a) == head + Numbers(a);
    assert BuildSortName(curated, b) == head + Numbers(b);
  }

  lemma SmallerIfRoundsLower(x: real, y: real)
    requires RoundHalfEven(x) < RoundHalfEven(y)
    ensures x < y
  {
    if y <= x { RoundMonotone(y, x); }
  }

  /** Higher gauges first, exactly when the lower one is not above 10000 feet: beyond that
      both numbers carry a minus sign and the texts compare the wrong way round. */
  lemma UpstreamFirstIff(curated: Curated, a: Row, b: Row)
    requires SameGroup(curated, a, b) && a.elevation.Some? && b.elevation.Some?
    requires RoundHalfEven(10000.0 - a.elevation.value) < RoundHalfEven(10000.0 - b.elevation.value)
    requires a.elevation.value < 109999.0 && b.elevation.value >= -989999.0
    ensures Less(BuildSortName(curated, a), BuildSortName(curated, b)) <==> b.elevation.value <= 10000.5
    ensures a.elevation.value > b.elevation.value
  {
    hide Less, Pad, BuildSortName, Label;
    GroupOrder(curated, a, b);
    var ea, eb := ElevationNumber(a.elevation), ElevationNumber(b.elevation);
    assert -99999 <= ea && eb <= 999999 && (eb >= 0 <==> b.elevation.value <= 10000.5);
    SmallerIfRoundsLower(10000.0 - a.elevation.value, 10000.0 - b.elevation.value);
    assert Ten(6) == 1000000 && Ten(5) == 100000;
    var sa, sb := "|" + Pad(AreaNumber(a.area), 6), "|" + Pad(AreaNumber(b.area), 6);
    PadOrderSigned(ea, eb, 6, sa, sb);
    assert Numbers(a) == Pad(ea, 6) + sa && Numbers(b) == Pad(eb, 6) + sb;
  }

  /** At one elevation the larger drainage area comes later, exactly as far as the whole
      numbers of square miles tell the areas apart. */
  lemma LargerAreaLater(curated: Curated, a: Row, b: Row)
    requires SameGroup(curated, a, b) && a.elevation == b.elevation && a.area.Some? && b.area.Some?
    requires 0.0 <= a.area.value <= 999999.0 && 0.0 <= b.area.value <= 999999.0
    ensures Less(BuildSortName(curated, a), BuildSortName(curated, b)) <==> RoundHalfEven(a.area.value) < RoundHalfEven(b.area.value)
    ensures Less(BuildSortName(curated, a), BuildSortName(curated, b)) ==> a.area.value < b.area.value
    ensures b.area.value - a.area.value > 1.0 ==> Less(BuildSortName(curated, a), BuildSortName(curated, b))
  {
    var na, nb := RoundHalfEven(a.area.value), RoundHalfEven(b.area.value);
    assert na == AreaNumber(a.area) && nb == AreaNumber(b.area) && 0 <= na <= 999999 && 0 <= nb <= 999999;
    assert b.area.value - a.area.value > 1.0 ==> na < nb;
    if na < nb { SmallerIfRoundsLower(a.area.value, b.area.value); }
    hide Less, Pad, BuildSortName, Label, ElevationNumber, AreaNumber;
    GroupOrder(curated, a, b);
    var head := Pad(ElevationNumber(a.elevation), 6) + "|";
    assert Numbers(a) == head + Pad(na, 6) && Numbers(b) == head + Pad(nb, 6);
    LessAfterPrefix(head, Pad(na, 6), Pad(nb, 6));
    assert Ten(6) == 1000000;
    PadOrder(na, nb, 6, "", "");
    LessTotal("", "");
    assert Pad(na, 6) + "" == Pad(na, 6) && Pad(nb, 6) + "" == Pad(nb, 6);
  }

  lemma Regroup(p: string, f: string, q: string, n: string)
    ensures (p + f) + q + n == p + (f + q + n)
  {
  }

  lemma UncuratedName(curated: Curated, r: Row)
    requires r.basin !in curated && r.fork != ""
    ensures BuildSortName(curated, r) == r.basin + ['|'] + ("0" + (r.fork + ['|'] + Numbers(r)))
  {
    UncuratedLabel(curated, r);
    hide *;
    NameIsFields(curated, r);
    Regroup("0", r.fork, ['|'], Numbers(r));
  }

  lemma UncuratedLabel(curated: Curated, r: Row)
    requires r.basin !in curated && r.fork != ""
    ensures Label(curated, r) == "0" + r.fork
  {
  }

  /** Outside the curated basins forks come in alphabetical order, whatever their numbers. */
  lemma UncuratedAlphabetical(curated: Curated, a: Row, b: Row)
    requires a.basin == b.basin && a.basin !in curated && a.fork != "" && b.fork != "" && a.fork != b.fork
    requires Free(a.fork, '|') && Free(b.fork, '|')
    ensures Less(BuildSortName(curated, a), BuildSortName(curated, b)) <==> Less(a.fork + ['|'], b.fork + ['|'])
  {
    hide *;
    UncuratedName(curated, a);
    UncuratedName(curated, b);
    var ta, tb := a.fork + ['|'] + Numbers(a), b.fork + ['|'] + Numbers(b);
    LessAfterPrefix(a.basin + ['|'], "0" + ta, "0" + tb);
    LessAfterPrefix("0", ta, tb);
    LessByField(a.fork, b.fork, '|', Numbers(a), Numbers(b));
  }

  /** Two gauges above 10000 feet: the lower one is listed first. */
  lemma HighGaugesReversed()
    ensures var high := Row("animas", "", Some(11000.0), None);
            var low := Row("animas", "", Some(10500.0), None);
            Less(BuildSortName(map[], low), BuildSortName(map[], high))
  {
    var high := Row("animas", "", Some(11000.0), None);
    var low := Row("animas", "", Some(10500.0), None);
    assert ElevationNumber(low.elevation) == -500 && ElevationNumber(high.elevation) == -1000;
    assert SameGroup(map[], low, high);
    hide *;
    HighNumbersReversed(high, low);
    GroupOrder(map[], low, high);
  }

  lemma HighNumbersReversed(high: Row, low: Row)
    requires ElevationNumber(low.elevation) == -500 && ElevationNumber(high.elevation) == -1000
    ensures Less(Numbers(low), Numbers(high))
  {
    hide Less, Pad;
    assert Ten(6) == 1000000 && Ten(5) == 100000;
    var sl, sh := "|" + Pad(AreaNumber(low.area), 6), "|" + Pad(AreaNumber(high.area), 6);
    PadOrderSigned(-1000, -500, 6, sh, sl);
    assert Numbers(low) == Pad(-500, 6) + sl && Numbers(high) == Pad(-1000, 6) + sh;
  }

  lemma LowerNumberFirst(a: Row, b: Row)
    requires -99999 <= ElevationNumber(a.elevation) < ElevationNumber(b.elevation) && 0 <= ElevationNumber(b.elevation) <= 999999
    ensures Less(Numbers(a), Numbers(b))
  {
    hide Less, Pad, ElevationNumber, AreaNumber;
    var ea, eb := ElevationNumber(a.elevation), ElevationNumber(b.elevation);
    assert Ten(6) == 1000000 && Ten(5) == 100000;
    var sa, sb := "|" + Pad(AreaNumber(a.area), 6), "|" + Pad(AreaNumber(b.area), 6);
    PadOrderSigned(ea, eb, 6, sa, sb);
    assert Numbers(a) == Pad(ea, 6) + sa && Numbers(b) == Pad(eb, 6) + sb;
  }

  lemma SmallerAreaFirst(a: Row, b: Row)
    requires a.elevation == b.elevation && 0 <= AreaNumber(a.area) < AreaNumber(b.area) <= 999999
    ensures Less(Numbers(a), Numbers(b))
  {
    hide Less, Pad, ElevationNumber, AreaNumber;
    var na, nb := AreaNumber(a.area), AreaNumber(b.area);
    var head := Pad(ElevationNumber(a.elevation), 6) + "|";
    assert Numbers(a) == head + Pad(na, 6) && Numbers(b) == head + Pad(nb, 6);
    assert Ten(6) == 1000000;
    PadOrder(na, nb, 6, "", "");
    assert Pad(na, 6) + "" == Pad(na, 6) && Pad(nb, 6) + "" == Pad(nb, 6);
    LessAfterPrefix(head, Pad(na, 6), Pad(nb, 6));
  }

  /** Unknown elevations end their group, also behind gauges above 10000 feet, and unknown
      areas end their elevation. */
  lemma UnknownLast(curated: Curated, a: Row, b: Row)
    requires SameGroup(curated, a, b)
    requires (b.elevation.None? && a.elevation.Some? && -989998.0 <= a.elevation.value <= 109998.0)
          || (a.elevation == b.elevation && b.area.None? && a.area.Some? && 0.0 <= a.area.value <= 999998.0)
    ensures Less(BuildSortName(curated, a), BuildSortName(curated, b))
  {
    hide Less, Numbers, BuildSortName, Label;
    GroupOrder(curated, a, b);
    if a.elevation == b.elevation {
      if b.area.None? && a.area.Some? && 0.0 <= a.area.value <= 999998.0 { SmallerAreaFirst(a, b); }
    } else {
      LowerNumberFirst(a, b);
    }
  }

  /** Padding keeps the order of all numbers up to a bound exactly when the bound has at
      most six digits. */
  lemma SixDigitsIff(bound: nat)
    ensures (forall a: nat, b: nat :: a < b <= bound ==> Less(Pad(a, 6), Pad(b, 6))) <==> bound <= 999999
  {
    hide Less, Pad;
    assert Ten(6) == 1000000;
    if bound <= 999999 {
      forall a: nat, b: nat | a < b <= bound ensures Less(Pad(a, 6), Pad(b, 6)) {
        PadOrder(a, b, 6, "", "");
        assert Pad(a, 6) + "" == Pad(a, 6) && Pad(b, 6) + "" == Pad(b, 6);
      }
    } else {
      SevenDigits();
    }
  }

  lemma SevenDigits()
    ensures !Less(Pad(999999, 6), Pad(1000000, 6))
  {
    assert Ten(6) == 1000000;
    PadIsFixed(999999, 6);
    LeadingNine();
    LeadingOne();
  }

  lemma LeadingNine()
    ensures Fixed(999999, 6)[0] == '9'
  {
    assert Fixed(9, 1) == Fixed(0, 0) + [Decimal.Digit(9)];
    assert Fixed(999, 3)[0] == Fixed(99, 2)[0] == Fixed(9, 1)[0];
    assert Fixed(999999, 6)[0] == Fixed(99999, 5)[0] == Fixed(9999, 4)[0] == Fixed(999, 3)[0];
  }

  lemma LeadingOne()
    ensures Pad(1000000, 6)[0] == '1'
  {
    assert Decimal.Digits(1) == [Decimal.Digit(1)];
    assert Decimal.Digits(100)[0] == Decimal.Digits(10)[0] == Decimal.Digits(1)[0];
    assert |Decimal.Digits(1000000)| >= 6 by {
      assert |Decimal.Digits(1000)| == 4;
      assert |Decimal.Digits(100000)| == 6;
    }
    assert Decimal.Digits(100000)[0] == Decimal.Digits(10000)[0] == Decimal.Digits(1000)[0] == Decimal.Digits(100)[0];
    assert Decimal.Digits(1000000)[0] == Decimal.Digits(100000)[0];
  }
}
