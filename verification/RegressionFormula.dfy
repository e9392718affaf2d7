/** The calc expression a regression fit is turned into (gauge_pair_linear.py) computes
    the fitted model. Coefficients are taken as exact. */
module RegressionFormula {
  import opened Common
  import opened Decimal
  import opened Rounding
  import opened CalcText
  import opened CalcExpr

  /** The quadratic option: all or none, or one flag per predictor. */
  datatype Quadratic = Every(on: bool) | Mask(flags: seq<bool>)

  /** None is the ValueError for a mask of the wrong length. */
  function QuadMask(q: Quadratic, n: nat): (m: Option<seq<bool>>)
    ensures m.Some? ==> |m.value| == n
    ensures m.None? <==> q.Mask? && |q.flags| != n
    ensures m.Some? ==> forall i :: 0 <= i < n ==> (m.value[i] <==> if q.Every? then q.on else q.flags[i])
  {
    match q
    case Every(on) => Some(seq(n, _ => on))
    case Mask(flags) => if |flags| == n then Some(flags) else None
  }

  /** Flags set among the first n. */
  function Count(mask: seq<bool>, n: nat): nat
    requires n <= |mask|
  {
    if n == 0 then 0 else Count(mask, n - 1) + if mask[n - 1] then 1 else 0
  }

  lemma {:induction false} CountMonotone(mask: seq<bool>, i: nat, n: nat)
    requires i <= n <= |mask|
    ensures Count(mask, i) <= Count(mask, n)
    ensures i < n && mask[i] ==> Count(mask, i) < Count(mask, n)
  {
    if i < n { CountMonotone(mask, i, n - 1); }
  }

  // ---------------------------------------------------------------- the design

  function Times(a: real, b: real): real { a * b }

  /** Squares of the flagged values among the first n. */
  function Squares(x: seq<real>, mask: seq<bool>, n: nat): (s: seq<real>)
    requires n <= |x| == |mask|
    ensures |s| == Count(mask, n)
  {
    if n == 0 then [] else Squares(x, mask, n - 1) + if mask[n - 1] then [Times(x[n - 1], x[n - 1])] else []
  }

  /** design_row: 1, the values, then the flagged squares in order. */
  function DesignRow(x: seq<real>, mask: seq<bool>): (row: seq<real>)
    requires |x| == |mask|
    ensures |row| == 1 + |x| + Count(mask, |mask|)
  {
    [1.0] + x + Squares(x, mask, |x|)
  }

  function RowOf(cols: seq<seq<real>>, r: nat): (row: seq<real>)
    requires forall j :: 0 <= j < |cols| ==> r < |cols[j]|
    ensures |row| == |cols|
  {
    seq(|cols|, j requires 0 <= j < |cols| => cols[j][r])
  }

  function Squared(col: seq<real>): (s: seq<real>)
    ensures |s| == |col| && forall r :: 0 <= r < |col| ==> s[r] == Times(col[r], col[r])
  {
    seq(|col|, r requires 0 <= r < |col| => Times(col[r], col[r]))
  }

  /** The squared columns of the flagged predictors among the first n. */
  function SquareCols(predictors: seq<seq<real>>, mask: seq<bool>, n: nat): (cols: seq<seq<real>>)
    requires n <= |predictors| == |mask|
    ensures |cols| == Count(mask, n)
  {
    if n == 0 then [] else SquareCols(predictors, mask, n - 1) + if mask[n - 1] then [Squared(predictors[n - 1])] else []
  }

  function LinearNames(n: nat): (names: seq<string>)
    ensures |names| == n
  {
    if n == 0 then [] else LinearNames(n - 1) + ["x" + Digits(n)]
  }

  function SquareNames(mask: seq<bool>, n: nat): (names: seq<string>)
    requires n <= |mask|
    ensures |names| == Count(mask, n)
  {
    if n == 0 then [] else SquareNames(mask, n - 1) + if mask[n - 1] then ["x" + Digits(n) + "^2"] else []
  }

  ghost predicate Rectangular(cols: seq<seq<real>>, n: nat) {
    forall c :: c in cols ==> |c| == n
  }

  lemma {:induction false} SquareColsHeight(predictors: seq<seq<real>>, mask: seq<bool>, n: nat, height: nat)
    requires n <= |predictors| == |mask| && Rectangular(predictors, height)
    ensures Rectangular(SquareCols(predictors, mask, n), height)
  {
    if n > 0 {
      SquareColsHeight(predictors, mask, n - 1, height);
      assert predictors[n - 1] in predictors;
    }
  }

  lemma {:induction false} SquareColsRows(predictors: seq<seq<real>>, mask: seq<bool>, n: nat, height: nat, r: nat)
    requires n <= |predictors| == |mask| && Rectangular(predictors, height) && r < height
    ensures Rectangular(SquareCols(predictors, mask, n), height)
    ensures RowOf(SquareCols(predictors, mask, n), r) == Squares(RowOf(predictors, r), mask, n)
  {
    hide Times;
    SquareColsHeight(predictors, mask, n, height);
    if n > 0 {
      SquareColsRows(predictors, mask, n - 1, height, r);
      var col := predictors[n - 1];
      assert col in predictors && RowOf(predictors, r)[n - 1] == col[r];
      if mask[n - 1] {
        RowOfJoin(SquareCols(predictors, mask, n - 1), [Squared(col)], r);
        assert RowOf([Squared(col)], r) == [Times(col[r], col[r])];
        assert SquareCols(predictors, mask, n) == SquareCols(predictors, mask, n - 1) + [Squared(col)];
      } else {
        assert SquareCols(predictors, mask, n) == SquareCols(predictors, mask, n - 1);
      }
    }
  }

  lemma RowOfJoin(a: seq<seq<real>>, b: seq<seq<real>>, r: nat)
    requires forall j :: 0 <= j < |a| ==> r < |a[j]|
    requires forall j :: 0 <= j < |b| ==> r < |b[j]|
    ensures forall j :: 0 <= j < |a + b| ==> r < |(a + b)[j]|
    ensures RowOf(a + b, r) == RowOf(a, r) + RowOf(b, r)
  {
  }

  /** Stacked columns read row by row are design rows. */
  lemma ColumnsAreDesignRows(predictors: seq<seq<real>>, mask: seq<bool>, height: nat, r: nat)
    requires |predictors| == |mask| && Rectangular(predictors, height) && r < height
    ensures var cols := [seq(height, _ => 1.0)] + predictors + SquareCols(predictors, mask, |predictors|);
            Rectangular(cols, height) && RowOf(cols, r) == DesignRow(RowOf(predictors, r), mask)
  {
    SquareColsRows(predictors, mask, |predictors|, height, r);
    var ones, sq := [seq(height, _ => 1.0)], SquareCols(predictors, mask, |predictors|);
    RowOfJoin(ones, predictors, r);
    RowOfJoin(ones + predictors, sq, r);
    assert RowOf(ones, r) == [1.0];
  }

  /** The matrix in columns, and the names of the columns. */
  type Design = (seq<seq<real>>, seq<string>)

  /** Each row of the stacked columns is the design row of that observation, so fitting and
      prediction use one column order. */
  ghost predicate IsDesign(d: Design, predictors: seq<seq<real>>, mask: seq<bool>)
    requires predictors != [] && |mask| == |predictors| && Rectangular(predictors, |predictors[0]|)
  {
    && Rectangular(d.0, |predictors[0]|) && |d.0| == 1 + |predictors| + Count(mask, |mask|)
    && (forall r :: 0 <= r < |predictors[0]| ==> RowOf(d.0, r) == DesignRow(RowOf(predictors, r), mask))
    && d.1 == ["intercept"] + LinearNames(|predictors|) + SquareNames(mask, |predictors|)
  }

  /** build_design_matrix: a mask of the wrong length is an error, otherwise the design. */
  method BuildDesignMatrix(predictors: seq<seq<real>>, quadratic: Quadratic) returns (d: Option<Design>)
    requires predictors != [] && Rectangular(predictors, |predictors[0]|)
    ensures d.None? <==> quadratic.Mask? && |quadratic.flags| != |predictors|
    ensures d.Some? ==> IsDesign(d.value, predictors, QuadMask(quadratic, |predictors|).value)
  {
    hide Rectangular, RowOf, DesignRow, Count, Digits, IsDesign, Squared;
    var n, p := |predictors[0]|, |predictors|;
    var quad := QuadMask(quadratic, p);
    if quad.None? { return None; }
    var mask := quad.value;
    var cols, names := [seq(n, _ => 1.0)], ["intercept"];
    var i := 0;
    while i < p
      invariant 0 <= i <= p
      invariant cols == [seq(n, _ => 1.0)] + predictors[..i] && names == ["intercept"] + LinearNames(i)
    {
      cols := cols + [predictors[i]];
      names := names + ["x" + Digits(i + 1)];
      i := i + 1;
    }
    assert predictors[..i] == predictors;
    i := 0;
    while i < p
      invariant 0 <= i <= p
      invariant cols == [seq(n, _ => 1.0)] + predictors + SquareCols(predictors, mask, i)
      invariant names == ["intercept"] + LinearNames(p) + SquareNames(mask, i)
    {
      if mask[i] {
        cols := cols + [Squared(predictors[i])];
        names := names + ["x" + Digits(i + 1) + "^2"];
      }
      i := i + 1;
    }
    StackedIsDesign(predictors, mask);
    return Some((cols, names));
  }

  lemma StackedIsDesign(predictors: seq<seq<real>>, mask: seq<bool>)
    requires predictors != [] && |predictors| == |mask| && Rectangular(predictors, |predictors[0]|)
    ensures var cols := [seq(|predictors[0]|, _ => 1.0)] + predictors + SquareCols(predictors, mask, |predictors|);
            IsDesign((cols, ["intercept"] + LinearNames(|predictors|) + SquareNames(mask, |predictors|)), predictors, mask)
  {
    var height := |predictors[0]|;
    SquareColsHeight(predictors, mask, |predictors|, height);
    var cols := [seq(height, _ => 1.0)] + predictors + SquareCols(predictors, mask, |predictors|);
    forall r | 0 <= r < height ensures RowOf(cols, r) == DesignRow(RowOf(predictors, r), mask) {
      ColumnsAreDesignRows(predictors, mask, height, r);
    }
  }

  lemma {:induction false} LinearNameAt(n: nat, i: nat)
    requires i < n
    ensures LinearNames(n)[i] == "x" + Digits(i + 1)
  {
    if i < n - 1 { LinearNameAt(n - 1, i); }
  }

  lemma {:induction false} SquareNameAt(mask: seq<bool>, n: nat, i: nat)
    requires i < n <= |mask| && mask[i]
    ensures Count(mask, i) < Count(mask, n) && SquareNames(mask, n)[Count(mask, i)] == "x" + Digits(i + 1) + "^2"
  {
    CountMonotone(mask, i, n);
    if i < n - 1 {
      SquareNameAt(mask, n - 1, i);
    }
  }

  /** Each column's name: the intercept, x1 to xp, and the square's after its rank among the
      flagged predictors. */
  lemma ColumnNames(d: Design, predictors: seq<seq<real>>, mask: seq<bool>, i: nat)
    requires predictors != [] && |mask| == |predictors| && Rectangular(predictors, |predictors[0]|)
    requires IsDesign(d, predictors, mask) && i < |predictors|
    ensures |d.1| == |d.0| == 1 + |predictors| + Count(mask, |mask|)
    ensures d.1[0] == "intercept" && d.1[1 + i] == "x" + Digits(i + 1)
    ensures mask[i] ==> 1 + |predictors| + Count(mask, i) < |d.1| && d.1[1 + |predictors| + Count(mask, i)] == "x" + Digits(i + 1) + "^2"
  {
    var p := |predictors|;
    LinearNameAt(p, i);
    if mask[i] { SquareNameAt(mask, p, i); }
    hide LinearNames, SquareNames, Digits, Rectangular, DesignRow, RowOf;
    assert d.1[1 + i] == LinearNames(p)[i];
    if mask[i] { assert d.1[1 + p + Count(mask, i)] == SquareNames(mask, p)[Count(mask, i)]; }
  }

  function Dot(a: seq<real>, b: seq<real>): real
    requires |a| == |b|
  {
    if a == [] then 0.0 else Dot(a[..|a| - 1], b[..|b| - 1]) + Times(a[|a| - 1], b[|b| - 1])
  }

  lemma {:induction false} DotCons(a: seq<real>, b: seq<real>)
    requires |a| == |b| && a != []
    ensures Dot(a, b) == Times(a[0], b[0]) + Dot(a[1..], b[1..])
  {
    hide Times;
    var n := |a|;
    if n == 1 {
      assert Dot(a[..0], b[..0]) == 0.0;
    } else {
      DotCons(a[..n - 1], b[..n - 1]);
      assert a[..n - 1][1..] == a[1..][..n - 2] && b[..n - 1][1..] == b[1..][..n - 2];
    }
  }

  // ---------------------------------------------------------------- the generated expression

  /** How numbers from zero on are written: six significant digits for slopes, four for
      the intercept. */
  datatype Numerals = Numerals(six: real -> seq<Token>, four: real -> seq<Token>)

  function Ref(handle: string): string { handle + "::flow" }

  function RefsOf(handles: seq<string>): (ids: seq<string>)
    ensures |ids| == |handles| && forall i :: 0 <= i < |ids| ==> ids[i] == Ref(handles[i])
  {
    seq(|handles|, i requires 0 <= i < |handles| => Ref(handles[i]))
  }

  function Magnitude(c: real): real { if c < 0.0 then -c else c }

  function NumberText(c: real, num: Numerals): Text {
    if c < 0.0 then Prefix([Mark('-')], Num(-c, num.six(-c))) else Num(c, num.six(c))
  }

  /** left * id */
  function TimesText(left: Text, id: string): Text {
    Infix([Mark('*')], Spaced(0, left, 1), Spaced(1, Id(id), 0))
  }

  function LinearText(c: real, id: string, num: Numerals): Text {
    TimesText(NumberText(c, num), id)
  }

  function SquareText(c: real, id: string, num: Numerals): Text {
    TimesText(LinearText(c, id, num), id)
  }

  function LinearTexts(coefs: seq<real>, ids: seq<string>, n: nat, num: Numerals): (ts: seq<Text>)
    requires n <= |ids| < |coefs|
    ensures |ts| == n
  {
    if n == 0 then [] else LinearTexts(coefs, ids, n - 1, num) + [LinearText(coefs[n], ids[n - 1], num)]
  }

  /** The k-th flagged predictor takes the k-th coefficient after the linear ones. */
  function SquareTexts(coefs: seq<real>, mask: seq<bool>, ids: seq<string>, n: nat, num: Numerals): (ts: seq<Text>)
    requires n <= |ids| == |mask| && |coefs| == 1 + |ids| + Count(mask, |mask|)
    ensures |ts| == Count(mask, n)
  {
    if n == 0 then []
    else
      var before := SquareTexts(coefs, mask, ids, n - 1, num);
      CountMonotone(mask, n - 1, |mask|);
      if mask[n - 1] then before + [SquareText(coefs[1 + |ids| + Count(mask, n - 1)], ids[n - 1], num)] else before
  }

  function TermTexts(coefs: seq<real>, mask: seq<bool>, ids: seq<string>, num: Numerals): seq<Text>
    requires |ids| == |mask| && |coefs| == 1 + |ids| + Count(mask, |mask|)
  {
    LinearTexts(coefs, ids, |ids|, num) + SquareTexts(coefs, mask, ids, |ids|, num)
  }

  /** t1 + t2 + ... + tn, grouped to the left. */
  function ChainText(terms: seq<Text>): Text
    requires terms != []
  {
    if |terms| == 1 then terms[0]
    else Infix([Mark('+')], Spaced(0, ChainText(terms[..|terms| - 1]), 1), Spaced(1, terms[|terms| - 1], 0))
  }

  function SignText(c: real): seq<Token> { [Mark(if c < 0.0 then '-' else '+')] }

  /** The terms and the signed intercept: "t1 + t2 -5", a space before the sign only. */
  function InnerText(terms: seq<Text>, c: real, num: Numerals): Text {
    var last := Num(Magnitude(c), num.four(Magnitude(c)));
    if terms == [] then Spaced(1, Prefix(SignText(c), last), 0)
    else Infix(SignText(c), Spaced(0, ChainText(terms), 1), last)
  }

  /** round(clamp(0, inner)); the report writes greatest for the clamp. */
  function ClampedText(clamp: string, inner: Text): Text {
    CallOf("round", 0, [CallOf(clamp, 0, [Num(0.0, [Word("0")]), Spaced(1, inner, 0)])])
  }

  function FormulaText(coefs: seq<real>, mask: seq<bool>, ids: seq<string>, clamp: string, num: Numerals): Text
    requires |ids| == |mask| && |coefs| == 1 + |ids| + Count(mask, |mask|)
  {
    ClampedText(clamp, InnerText(TermTexts(coefs, mask, ids, num), coefs[0], num))
  }

  // ---------------------------------------------------------------- the report's string

  function Written(t: Text): string { Render(Spell(t)) }

  /** An f-string's number: the sign, then the magnitude. */
  function Signed(c: real, digits: real -> seq<Token>, plus: string): string {
    (if c < 0.0 then "-" else plus) + Render(digits(Magnitude(c)))
  }

  /** " + ".join. */
  function Joined(terms: seq<string>): string {
    if terms == [] then "" else if |terms| == 1 then terms[0]
    else Joined(terms[..|terms| - 1]) + " + " + terms[|terms| - 1]
  }

  function AllWritten(terms: seq<Text>): (ss: seq<string>)
    ensures |ss| == |terms| && forall i :: 0 <= i < |ss| ==> ss[i] == Written(terms[i])
  {
    seq(|terms|, i requires 0 <= i < |terms| => Written(terms[i]))
  }

  /** The report's f-strings. */
  function LinearString(c: real, handle: string, num: Numerals): string {
    Signed(c, num.six, "") + " * " + Ref(handle)
  }

  function SquareString(c: real, handle: string, num: Numerals): string {
    Signed(c, num.six, "") + " * " + Ref(handle) + " * " + Ref(handle)
  }

  function InnerString(terms: seq<string>, c: real, num: Numerals): string {
    Joined(terms) + " " + Signed(c, num.four, "+")
  }

  function FormulaString(inner: string): string {
    "round(greatest(0, " + inner + "))"
  }

  lemma Regrouped(h: string, x: string, y: string)
    ensures (h + x) + y == h + (x + y)
  {
  }

  lemma {:induction false} RenderAppend(a: seq<Token>, b: seq<Token>)
    ensures Render(a + b) == Render(a) + Render(b)
  {
    if a == [] {
      assert a + b == b;
    } else {
      var h := match a[0] case Word(text) => text case Mark(c) => [c];
      assert (a + b)[0] == a[0] && (a + b)[1..] == a[1..] + b;
      assert Render(a) == h + Render(a[1..]);
      assert Render(a + b) == h + Render(a[1..] + b);
      hide Render;
      RenderAppend(a[1..], b);
      Regrouped(h, Render(a[1..]), Render(b));
    }
  }

  lemma RenderWord(w: string)
    ensures Render([Word(w)]) == w
  {
    assert [Word(w)][1..] == [] && Render([]) == "";
  }

  lemma RenderMark(c: char)
    ensures Render([Mark(c)]) == [c]
  {
    assert [Mark(c)][1..] == [] && Render([]) == "";
  }

  lemma WrittenSpaced(t: Text)
    ensures Written(Spaced(0, t, 1)) == Written(t) + " " && Written(Spaced(1, t, 0)) == " " + Written(t)
    ensures Written(Spaced(0, t, 0)) == Written(t)
  {
    assert Blanks(0) == [] && Blanks(1) == [Mark(' ')];
    RenderMark(' ');
    RenderAppend(Spell(t), [Mark(' ')]);
    RenderAppend([Mark(' ')], Spell(t));
    assert Spell(Spaced(0, t, 1)) == Spell(t) + [Mark(' ')];
    assert Spell(Spaced(1, t, 0)) == [Mark(' ')] + Spell(t);
    assert Spell(Spaced(0, t, 0)) == Spell(t);
  }

  lemma WrittenInfix(c: char, l: Text, r: Text)
    ensures Written(Infix([Mark(c)], l, r)) == Written(l) + [c] + Written(r)
  {
    RenderMark(c);
    RenderAppend([Mark(c)], Spell(r));
    RenderAppend(Spell(l), [Mark(c)] + Spell(r));
  }

  lemma WrittenPrefix(c: char, t: Text)
    ensures Written(Prefix([Mark(c)], t)) == [c] + Written(t)
  {
    RenderMark(c);
    RenderAppend([Mark(c)], Spell(t));
  }

  lemma WrittenCall(fn: string, args: seq<Text>)
    ensures Written(CallOf(fn, 0, args)) == fn + "(" + Render(SpellArgs(args)) + ")"
  {
    var inner := SpellArgs(args);
    RenderWord(fn);
    RenderMark('(');
    RenderMark(')');
    RenderAppend([Mark('(')], inner);
    RenderAppend([Mark('(')] + inner, [Mark(')')]);
    RenderAppend([Word(fn)], Wrapped(inner));
    TightCall(fn, args);
  }

  lemma WrittenTerms(c: real, handle: string, num: Numerals)
    ensures Written(LinearText(c, Ref(handle), num)) == LinearString(c, handle, num)
    ensures Written(SquareText(c, Ref(handle), num)) == SquareString(c, handle, num)
  {
    hide Written, Ref, Signed;
    WrittenNumber(c, num);
    WrittenTimes(NumberText(c, num), Ref(handle));
    WrittenTimes(LinearText(c, Ref(handle), num), Ref(handle));
  }

  lemma WrittenNumber(c: real, num: Numerals)
    ensures Written(NumberText(c, num)) == Signed(c, num.six, "")
  {
    if c < 0.0 { WrittenPrefix('-', Num(-c, num.six(-c))); }
  }

  lemma WrittenTimes(left: Text, id: string)
    ensures Written(TimesText(left, id)) == Written(left) + " * " + id
  {
    WrittenInfix('*', Spaced(0, left, 1), Spaced(1, Id(id), 0));
    WrittenSpaced(left);
    WrittenSpaced(Id(id));
    RenderWord(id);
    assert Written(Id(id)) == id;
    hide Written;
  }

  lemma {:induction false} WrittenChain(terms: seq<Text>)
    requires terms != []
    ensures Written(ChainText(terms)) == Joined(AllWritten(terms))
  {
    hide Written;
    if |terms| > 1 {
      var front, last := terms[..|terms| - 1], terms[|terms| - 1];
      WrittenChain(front);
      WrittenInfix('+', Spaced(0, ChainText(front), 1), Spaced(1, last, 0));
      WrittenSpaced(ChainText(front));
      WrittenSpaced(last);
      assert AllWritten(terms)[..|terms| - 1] == AllWritten(front);
    }
  }

  lemma WrittenInner(terms: seq<Text>, c: real, num: Numerals)
    ensures Written(InnerText(terms, c, num)) == InnerString(AllWritten(terms), c, num)
  {
    var last := Num(Magnitude(c), num.four(Magnitude(c)));
    assert Written(last) == Render(num.four(Magnitude(c)));
    hide Written;
    var sign := if c < 0.0 then '-' else '+';
    if terms == [] {
      WrittenPrefix(sign, last);
      WrittenSpaced(Prefix([Mark(sign)], last));
    } else {
      WrittenChain(terms);
      WrittenInfix(sign, Spaced(0, ChainText(terms), 1), last);
      WrittenSpaced(ChainText(terms));
    }
  }

  lemma WrittenFormula(inner: Text)
    ensures Written(ClampedText("greatest", inner)) == FormulaString(Written(inner))
  {
    var zero, spaced := Num(0.0, [Word("0")]), Spaced(1, inner, 0);
    var call := CallOf("greatest", 0, [zero, spaced]);
    RenderWord("0");
    assert Written(zero) == "0";
    WrittenSpaced(inner);
    hide Spell, Render;
    WrittenTwo(zero, spaced);
    WrittenCall("greatest", [zero, spaced]);
    WrittenOne(call);
    WrittenCall("round", [call]);
    hide Written, FormulaString;
    FormulaParts(Written(inner));
  }

  lemma Regroup(a: string, b: string, c: string, d: string, e: string, f: string, x: string)
    ensures a + b + (c + b + (d + e + (f + x)) + ")") + ")" == (a + b + c + b + d + e + f) + x + (")" + ")")
  {
  }

  lemma FormulaParts(x: string)
    ensures "round" + "(" + ("greatest" + "(" + ("0" + "," + (" " + x)) + ")") + ")" == FormulaString(x)
  {
    Regroup("round", "(", "greatest", "0", ",", " ", x);
    assert "round" + "(" + "greatest" + "(" + "0" + "," + " " == "round(greatest(0, ";
    assert ")" + ")" == "))";
  }

  lemma WrittenOne(t: Text)
    ensures Render(SpellArgs([t])) == Written(t)
  {
  }

  lemma WrittenTwo(t: Text, u: Text)
    ensures Render(SpellArgs([t, u])) == Written(t) + "," + Written(u)
  {
    assert [t, u][1..] == [u];
    RenderMark(',');
    RenderAppend([Mark(',')], Spell(u));
    RenderAppend(Spell(t), [Mark(',')] + Spell(u));
  }

  lemma AllWrittenSnoc(terms: seq<Text>, t: Text)
    ensures AllWritten(terms + [t]) == AllWritten(terms) + [Written(t)]
  {
    hide Written;
  }

  /** All terms with the first i squares. */
  function TermsUpTo(coefs: seq<real>, mask: seq<bool>, ids: seq<string>, i: nat, num: Numerals): seq<Text>
    requires i <= |ids| == |mask| && |coefs| == 1 + |ids| + Count(mask, |mask|)
  {
    LinearTexts(coefs, ids, |ids|, num) + SquareTexts(coefs, mask, ids, i, num)
  }

  lemma LinearStep(coefs: seq<real>, handles: seq<string>, i: nat, num: Numerals)
    requires i < |handles| < |coefs|
    ensures AllWritten(LinearTexts(coefs, RefsOf(handles), i + 1, num))
            == AllWritten(LinearTexts(coefs, RefsOf(handles), i, num)) + [LinearString(coefs[1 + i], handles[i], num)]
  {
    hide Ref, LinearText, LinearString, Written, AllWritten;
    WrittenTerms(coefs[1 + i], handles[i], num);
    AllWrittenSnoc(LinearTexts(coefs, RefsOf(handles), i, num), LinearText(coefs[1 + i], Ref(handles[i]), num));
  }

  lemma SquareStep(coefs: seq<real>, mask: seq<bool>, handles: seq<string>, i: nat, num: Numerals)
    requires i < |handles| == |mask| && |coefs| == 1 + |handles| + Count(mask, |mask|)
    ensures Count(mask, i + 1) <= Count(mask, |mask|)
    ensures Count(mask, i + 1) == Count(mask, i) + if mask[i] then 1 else 0
    ensures AllWritten(TermsUpTo(coefs, mask, RefsOf(handles), i + 1, num))
            == AllWritten(TermsUpTo(coefs, mask, RefsOf(handles), i, num))
             + if mask[i] then [SquareString(coefs[1 + |handles| + Count(mask, i)], handles[i], num)] else []
  {
    CountMonotone(mask, i + 1, |mask|);
    if mask[i] {
      hide Ref, SquareText, SquareString, LinearTexts, Written, AllWritten;
      var c, ids := coefs[1 + |handles| + Count(mask, i)], RefsOf(handles);
      WrittenTerms(c, handles[i], num);
      AllWrittenSnoc(TermsUpTo(coefs, mask, ids, i, num), SquareText(c, Ref(handles[i]), num));
      assert TermsUpTo(coefs, mask, ids, i + 1, num) == TermsUpTo(coefs, mask, ids, i, num) + [SquareText(c, ids[i], num)];
    }
  }

  lemma LoopEnds(coefs: seq<real>, mask: seq<bool>, ids: seq<string>, num: Numerals)
    requires |ids| == |mask| && |coefs| == 1 + |ids| + Count(mask, |mask|)
    ensures AllWritten(LinearTexts(coefs, ids, 0, num)) == [] && Count(mask, 0) == 0
    ensures AllWritten(TermsUpTo(coefs, mask, ids, 0, num)) == AllWritten(LinearTexts(coefs, ids, |ids|, num))
    ensures Written(FormulaText(coefs, mask, ids, "greatest", num))
            == FormulaString(InnerString(AllWritten(TermsUpTo(coefs, mask, ids, |ids|, num)), coefs[0], num))
  {
    assert TermsUpTo(coefs, mask, ids, 0, num) == LinearTexts(coefs, ids, |ids|, num) + [];
    hide Written, InnerText, ClampedText, FormulaString, InnerString;
    WrittenInner(TermTexts(coefs, mask, ids, num), coefs[0], num);
    WrittenFormula(InnerText(TermTexts(coefs, mask, ids, num), coefs[0], num));
  }

  /** The term loops of the report, with the running index over squared coefficients. */
  method BuildExpression(coefs: seq<real>, mask: seq<bool>, handles: seq<string>, num: Numerals) returns (expr: string)
    requires |handles| == |mask| && |coefs| == 1 + |handles| + Count(mask, |mask|)
    ensures expr == Written(FormulaText(coefs, mask, RefsOf(handles), "greatest", num))
  {
    hide *;
    var n := |handles|;
    LoopEnds(coefs, mask, RefsOf(handles), num);
    var terms: seq<string> := [];
    var i := 0;
    while i < n
      invariant 0 <= i <= n && terms == AllWritten(LinearTexts(coefs, RefsOf(handles), i, num))
    {
      LinearStep(coefs, handles, i, num);
      terms := terms + [LinearString(coefs[1 + i], handles[i], num)];
      i := i + 1;
    }
    var sqIdx := 1 + n;
    i := 0;
    while i < n
      invariant 0 <= i <= n && sqIdx == 1 + n + Count(mask, i)
      invariant terms == AllWritten(TermsUpTo(coefs, mask, RefsOf(handles), i, num))
    {
      SquareStep(coefs, mask, handles, i, num);
      if mask[i] {
        terms := terms + [SquareString(coefs[sqIdx], handles[i], num)];
        sqIdx := sqIdx + 1;
      }
      i := i + 1;
    }
    expr := FormulaString(InnerString(terms, coefs[0], num));
  }

  // ---------------------------------------------------------------- it computes the model

  function ValuesAt(ids: seq<string>, values: map<string, real>): (x: seq<real>)
    requires forall i :: 0 <= i < |ids| ==> ids[i] in values
    ensures |x| == |ids|
  {
    seq(|ids|, i requires 0 <= i < |ids| => values[ids[i]])
  }

  lemma Symbols()
    ensures BinOpOf([Mark('+')]) == Add && BinOpOf([Mark('-')]) == Sub && BinOpOf([Mark('*')]) == Mul
    ensures UnOpOf([Mark('+')]) == Plus && UnOpOf([Mark('-')]) == Minus
  {
    assert [Mark('-')][0] != [Mark('+')][0] && [Mark('*')][0] != [Mark('+')][0] && [Mark('*')][0] != [Mark('-')][0];
  }

  lemma InfixTree(c: char, l: Text, before: nat, r: Text, after: nat)
    ensures Tree(Infix([Mark(c)], Spaced(0, l, before), Spaced(after, r, 0))) == Bin(BinOpOf([Mark(c)]), Tree(l), Tree(r))
    ensures Tree(Infix([Mark(c)], Spaced(0, l, before), r)) == Bin(BinOpOf([Mark(c)]), Tree(l), Tree(r))
  {
    assert Tree(Spaced(0, l, before)) == Tree(l) && Tree(Spaced(after, r, 0)) == Tree(r);
  }

  lemma TermTrees(c: real, id: string, num: Numerals)
    ensures Tree(LinearText(c, id, num)) == Bin(Mul, Tree(NumberText(c, num)), Name(id))
    ensures Tree(SquareText(c, id, num)) == Bin(Mul, Tree(LinearText(c, id, num)), Name(id))
  {
    Symbols();
    assert Tree(Id(id)) == Name(id);
    hide Tree, NumberText, BinOpOf;
    InfixTree('*', NumberText(c, num), 1, Id(id), 1);
    InfixTree('*', LinearText(c, id, num), 1, Id(id), 1);
  }

  lemma NumberMeans(c: real, num: Numerals, values: map<string, real>, power: Power)
    ensures Eval(Tree(NumberText(c, num)), values, AuthorFn, power) == Ok(c)
  {
    Symbols();
    if c < 0.0 { assert Tree(Num(-c, num.six(-c))) == Const(-c); }
  }

  lemma TermsMean(c: real, id: string, num: Numerals, values: map<string, real>, power: Power)
    requires id in values
    ensures var x := values[id];
            && Eval(Tree(LinearText(c, id, num)), values, AuthorFn, power) == Ok(Times(x, c))
            && Eval(Tree(SquareText(c, id, num)), values, AuthorFn, power) == Ok(Times(Times(x, x), c))
  {
    NumberMeans(c, num, values, power);
    var x := values[id];
    var lin := Tree(LinearText(c, id, num));
    TermTrees(c, id, num);
    hide Tree, LinearText, SquareText;
    assert Eval(Name(id), values, AuthorFn, power) == Ok(x);
    assert Eval(lin, values, AuthorFn, power) == Ok(c * x);
    assert Eval(Bin(Mul, lin, Name(id)), values, AuthorFn, power) == Ok(c * x * x);
    assert c * x * x == Times(Times(x, x), c);
  }

  /** The terms evaluate to the given numbers. */
  ghost predicate Means(terms: seq<Text>, nums: seq<real>, values: map<string, real>, power: Power) {
    |terms| == |nums| && forall i :: 0 <= i < |terms| ==> Eval(Tree(terms[i]), values, AuthorFn, power) == Ok(nums[i])
  }

  function Total(nums: seq<real>): real {
    if nums == [] then 0.0 else Total(nums[..|nums| - 1]) + nums[|nums| - 1]
  }

  lemma {:induction false} ChainMeans(terms: seq<Text>, nums: seq<real>, values: map<string, real>, power: Power)
    requires terms != [] && Means(terms, nums, values, power)
    ensures Eval(Tree(ChainText(terms)), values, AuthorFn, power) == Ok(Total(nums))
  {
    var n := |terms|;
    if n == 1 {
      assert nums[..0] == [];
    } else {
      ChainMeans(terms[..n - 1], nums[..n - 1], values, power);
      Symbols();
      InfixTree('+', ChainText(terms[..n - 1]), 1, terms[n - 1], 1);
    }
  }

  lemma InterceptMeans(terms: seq<Text>, nums: seq<real>, c: real, num: Numerals, values: map<string, real>, power: Power)
    requires Means(terms, nums, values, power)
    ensures Eval(Tree(InnerText(terms, c, num)), values, AuthorFn, power) == Ok(Total(nums) + c)
  {
    Symbols();
    var last := Num(Magnitude(c), num.four(Magnitude(c)));
    assert Tree(last) == Const(Magnitude(c));
    if terms != [] {
      ChainMeans(terms, nums, values, power);
      InfixTree(if c < 0.0 then '-' else '+', ChainText(terms), 1, last, 0);
    } else {
      assert Tree(Prefix(SignText(c), last)) == Unary(UnOpOf(SignText(c)), Const(Magnitude(c)));
    }
  }

  function Products(a: seq<real>, b: seq<real>): (p: seq<real>)
    requires |a| == |b|
    ensures |p| == |a|
  {
    seq(|a|, i requires 0 <= i < |a| => Times(a[i], b[i]))
  }

  lemma {:induction false} TotalProducts(a: seq<real>, b: seq<real>)
    requires |a| == |b|
    ensures Total(Products(a, b)) == Dot(a, b)
  {
    hide Times;
    if a != [] {
      var n := |a|;
      TotalProducts(a[..n - 1], b[..n - 1]);
      var p, q := Products(a, b)[..n - 1], Products(a[..n - 1], b[..n - 1]);
      forall i | 0 <= i < n - 1 ensures p[i] == q[i] {
        assert p[i] == Times(a[i], b[i]) && q[i] == Times(a[..n - 1][i], b[..n - 1][i]);
      }
      assert p == q;
    }
  }

  lemma {:induction false} LinearMeans(coefs: seq<real>, ids: seq<string>, n: nat, num: Numerals, values: map<string, real>, power: Power)
    requires n <= |ids| < |coefs| && forall i :: 0 <= i < |ids| ==> ids[i] in values
    ensures Means(LinearTexts(coefs, ids, n, num), Products(ValuesAt(ids, values)[..n], coefs[1..1 + n]), values, power)
  {
    hide Times;
    if n > 0 {
      LinearMeans(coefs, ids, n - 1, num, values, power);
      TermsMean(coefs[n], ids[n - 1], num, values, power);
      var x := ValuesAt(ids, values);
      assert x[..n] == x[..n - 1] + [x[n - 1]] && coefs[1..1 + n] == coefs[1..n] + [coefs[n]];
      MeansSnoc(LinearTexts(coefs, ids, n - 1, num), LinearText(coefs[n], ids[n - 1], num),
                x[..n - 1], coefs[1..n], x[n - 1], coefs[n], values, power);
    }
  }

  lemma {:induction false} SquareMeans(coefs: seq<real>, mask: seq<bool>, ids: seq<string>, n: nat, num: Numerals, values: map<string, real>, power: Power)
    requires n <= |ids| == |mask| && |coefs| == 1 + |ids| + Count(mask, |mask|)
    requires forall i :: 0 <= i < |ids| ==> ids[i] in values
    ensures Count(mask, n) <= Count(mask, |mask|)
    ensures Means(SquareTexts(coefs, mask, ids, n, num),
                  Products(Squares(ValuesAt(ids, values), mask, n), coefs[1 + |ids|..][..Count(mask, n)]), values, power)
  {
    hide Times;
    CountMonotone(mask, n, |mask|);
    if n > 0 {
      SquareMeans(coefs, mask, ids, n - 1, num, values, power);
      CountMonotone(mask, n - 1, |mask|);
      if mask[n - 1] {
        hide Means, Eval, Products;
        var x, tail, c := ValuesAt(ids, values), coefs[1 + |ids|..], Count(mask, n - 1);
        TermsMean(tail[c], ids[n - 1], num, values, power);
        assert tail[..c + 1] == tail[..c] + [tail[c]];
        MeansSnoc(SquareTexts(coefs, mask, ids, n - 1, num), SquareText(tail[c], ids[n - 1], num),
                  Squares(x, mask, n - 1), tail[..c], Times(x[n - 1], x[n - 1]), tail[c], values, power);
      }
    }
  }

  lemma MeansSnoc(terms: seq<Text>, term: Text, a: seq<real>, b: seq<real>, u: real, v: real, values: map<string, real>, power: Power)
    requires |a| == |b| && Means(terms, Products(a, b), values, power)
    requires Eval(Tree(term), values, AuthorFn, power) == Ok(Times(u, v))
    ensures Means(terms + [term], Products(a + [u], b + [v]), values, power)
  {
    hide Times;
    ProductsJoin(a, b, [u], [v]);
    assert Products([u], [v]) == [Times(u, v)];
  }

  lemma ProductsJoin(a: seq<real>, b: seq<real>, c: seq<real>, d: seq<real>)
    requires |a| == |b| && |c| == |d|
    ensures Products(a + c, b + d) == Products(a, b) + Products(c, d)
  {
    hide Times;
    var p, q := Products(a + c, b + d), Products(a, b) + Products(c, d);
    forall i | 0 <= i < |p| ensures p[i] == q[i] {
      assert p[i] == Times((a + c)[i], (b + d)[i]);
    }
  }

  /** The linear and the squared terms together are the model without its intercept. */
  lemma TermsAreModel(coefs: seq<real>, mask: seq<bool>, ids: seq<string>, num: Numerals, values: map<string, real>, power: Power)
    returns (nums: seq<real>)
    requires |ids| == |mask| && |coefs| == 1 + |ids| + Count(mask, |mask|)
    requires forall i :: 0 <= i < |ids| ==> ids[i] in values
    ensures Means(TermTexts(coefs, mask, ids, num), nums, values, power)
    ensures Total(nums) + coefs[0] == Dot(DesignRow(ValuesAt(ids, values), mask), coefs)
  {
    var n, x := |ids|, ValuesAt(ids, values);
    LinearMeans(coefs, ids, n, num, values, power);
    SquareMeans(coefs, mask, ids, n, num, values, power);
    hide Eval, LinearTexts, SquareTexts, Products, Dot, Times, Means, Count;
    var sq := Squares(x, mask, n);
    var a, b := coefs[1..1 + n], coefs[1 + n..];
    assert x[..n] == x && b[..Count(mask, n)] == b;
    nums := Products(x, a) + Products(sq, b);
    MeansJoin(LinearTexts(coefs, ids, n, num), Products(x, a),
              SquareTexts(coefs, mask, ids, n, num), Products(sq, b), values, power);
    assert coefs == [coefs[0]] + a + b;
    ModelSum(x, a, sq, b, coefs[0]);
  }

  lemma {:induction false} ModelSum(x: seq<real>, a: seq<real>, sq: seq<real>, b: seq<real>, c: real)
    requires |x| == |a| && |sq| == |b|
    ensures Total(Products(x, a) + Products(sq, b)) + c == Dot([1.0] + x + sq, [c] + a + b)
  {
    ProductsJoin(x, a, sq, b);
    TotalProducts(x + sq, a + b);
    DotLead(x + sq, a + b, c);
    assert [1.0] + (x + sq) == [1.0] + x + sq && [c] + (a + b) == [c] + a + b;
  }

  lemma {:induction false} DotLead(p: seq<real>, q: seq<real>, c: real)
    requires |p| == |q|
    ensures Dot([1.0] + p, [c] + q) == c + Dot(p, q)
  {
    DotCons([1.0] + p, [c] + q);
    assert ([1.0] + p)[1..] == p && ([c] + q)[1..] == q;
    TimesOne(c);
  }

  lemma TimesOne(c: real)
    ensures Times(1.0, c) == c
  {
  }

  lemma MeansJoin(t: seq<Text>, a: seq<real>, u: seq<Text>, b: seq<real>, values: map<string, real>, power: Power)
    requires Means(t, a, values, power) && Means(u, b, values, power)
    ensures Means(t + u, a + b, values, power)
  {
  }

  /** Main result: for any predictors and any mask, the generated expression evaluates
      to the prediction design_row . coefs, clamped at zero and rounded. */
  lemma {:induction false} FormulaIsModel(coefs: seq<real>, mask: seq<bool>, ids: seq<string>, num: Numerals, values: map<string, real>, power: Power)
    requires |ids| == |mask| && |coefs| == 1 + |ids| + Count(mask, |mask|)
    requires forall i :: 0 <= i < |ids| ==> ids[i] in values
    ensures var yHat := Dot(DesignRow(ValuesAt(ids, values), mask), coefs);
            Eval(Tree(FormulaText(coefs, mask, ids, "greatest", num)), values, AuthorFn, power)
            == Ok(RoundHalfEven(MaxReal(0.0, yHat)) as real)
  {
    hide *;
    FormulaIs(coefs, mask, ids, "greatest", num);
    var nums := TermsAreModel(coefs, mask, ids, num, values, power);
    var inner := InnerText(TermTexts(coefs, mask, ids, num), coefs[0], num);
    InterceptMeans(TermTexts(coefs, mask, ids, num), nums, coefs[0], num, values, power);
    ClampMeans(inner, Dot(DesignRow(ValuesAt(ids, values), mask), coefs), values, power);
  }

  lemma FormulaIs(coefs: seq<real>, mask: seq<bool>, ids: seq<string>, clamp: string, num: Numerals)
    requires |ids| == |mask| && |coefs| == 1 + |ids| + Count(mask, |mask|)
    ensures FormulaText(coefs, mask, ids, clamp, num)
            == ClampedText(clamp, InnerText(TermTexts(coefs, mask, ids, num), coefs[0], num))
  {
  }

  lemma ClampMeans(inner: Text, y: real, values: map<string, real>, power: Power)
    requires Eval(Tree(inner), values, AuthorFn, power) == Ok(y)
    ensures Eval(Tree(ClampedText("greatest", inner)), values, AuthorFn, power) == Ok(RoundHalfEven(MaxReal(0.0, y)) as real)
  {
    ClampedTree("greatest", inner);
    hide Tree, RoundHalfEven;
    var zero, e := Const(0.0), Tree(inner);
    OneArg(e, y, values, power);
    TwoArgs(zero, 0.0, e, y, values, power);
    MaxOfTwo(y);
    var top := Call("greatest", [zero, e]);
    assert Eval(top, values, AuthorFn, power) == Ok(MaxReal(0.0, y));
    OneArg(top, MaxReal(0.0, y), values, power);
  }

  lemma OneArg(e: Expr, y: real, values: map<string, real>, power: Power)
    requires Eval(e, values, AuthorFn, power) == Ok(y)
    ensures EvalArgs([e], values, AuthorFn, power) == Oks([y])
  {
    assert [e][1..] == [] && [y] + [] == [y];
  }

  lemma TwoArgs(d: Expr, x: real, e: Expr, y: real, values: map<string, real>, power: Power)
    requires Eval(d, values, AuthorFn, power) == Ok(x) && Eval(e, values, AuthorFn, power) == Ok(y)
    ensures EvalArgs([d, e], values, AuthorFn, power) == Oks([x, y])
  {
    hide Eval;
    OneArg(e, y, values, power);
    assert [d, e][1..] == [e] && [x] + [y] == [x, y];
  }

  lemma MaxOfTwo(y: real)
    ensures FoldMax([0.0, y]) == MaxReal(0.0, y)
  {
    assert [0.0, y][0] in [0.0, y] && [0.0, y][1] in [0.0, y];
  }

  lemma ClampedTree(clamp: string, inner: Text)
    ensures Tree(ClampedText(clamp, inner)) == Call("round", [Call(clamp, [Const(0.0), Tree(inner)])])
  {
    var zero, spaced := Num(0.0, [Word("0")]), Spaced(1, inner, 0);
    var args := [zero, spaced];
    assert Tree(zero) == Const(0.0) && Tree(spaced) == Tree(inner);
    TwoTrees(zero, spaced);
    var top := CallOf(clamp, 0, args);
    assert Tree(top) == Call(clamp, Trees(args));
    OneTree(top);
  }

  lemma OneTree(t: Text)
    ensures Trees([t]) == [Tree(t)]
  {
    assert [t][1..] == [];
  }

  lemma TwoTrees(t: Text, u: Text)
    ensures Trees([t, u]) == [Tree(t), Tree(u)]
  {
    hide Tree;
    assert [t, u][1..] == [u];
    OneTree(u);
  }
}
