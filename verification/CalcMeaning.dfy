/** What an expression means, as a relation between the expression and its result that
    does not compute anything: each operation is described by what its result is to its
    operands, and the evaluator is shown to return exactly that (calculator.py, _safe_eval). */
module CalcMeaning {
  import opened Common
  import opened Rounding
  import opened CalcText
  import opened CalcExpr

  // ---------------------------------------------------------------- the operations

  predicate Numbers(op: BinOp, x: real, y: real, power: Power, r: Result) {
    match op
    case Add => r.Ok? && r.v - y == x
    case Sub => r.Ok? && r.v + y == x
    case Mul => r.Ok? && (y == 0.0 ==> r.v == 0.0) && (y != 0.0 ==> r.v / y == x)
    case Div => if y == 0.0 then r == Err(ZeroDivisionError) else r.Ok? && r.v * y == x
    case Pow =>
      if y < -32.0 || y > 32.0 then r == Err(ValueError)
      else if power(x, y).None? then r == Err(PowError) else r.Ok? && power(x, y) == Some(r.v)
    case OtherBin => r == Err(ValueError)
  }

  /** v is the whole number n with the fraction cut off. */
  predicate CutOff(v: real, n: int) {
    if v >= 0.0 then 0.0 <= n as real <= v < n as real + 1.0 else n as real - 1.0 < v <= n as real <= 0.0
  }

  /** The unit of the n-th decimal place, before the point for negative n. */
  function Place(n: int): (u: real)
    ensures u > 0.0
    decreases if n < 0 then -n else n
  {
    if n == 0 then 1.0 else if n > 0 then Place(n - 1) / 10.0 else Place(n + 1) * 10.0
  }

  ghost predicate Largest(vs: seq<real>, v: real) {
    v in vs && forall w :: w in vs ==> w <= v
  }

  ghost predicate Least(vs: seq<real>, v: real) {
    v in vs && forall w :: w in vs ==> v <= w
  }

  /** A function by its name: `alias` also admits SQL's two names. */
  predicate Known(fn: string, alias: bool) {
    fn == "max" || fn == "min" || fn == "round" || (alias && (fn == "greatest" || fn == "least"))
  }

  ghost predicate Returns(fn: string, vs: seq<real>, r: Result) {
    if fn == "round" then
      if |vs| == 1 then r.Ok? && RoundsTo(vs[0], 1.0, r.v)
      else if |vs| == 2 then r.Ok? && exists n: int :: CutOff(vs[1], n) && RoundsTo(vs[0], Place(n), r.v)
      else r == Err(TypeError)
    else if |vs| < 2 then r == Err(TypeError)
    else if fn == "max" || fn == "greatest" then r.Ok? && Largest(vs, r.v)
    else r.Ok? && Least(vs, r.v)
  }

  // ---------------------------------------------------------------- expressions

  /** The expression has the result r. Names and references are what `names` says; the first
      error from the left is the result, an unknown operator or function before all else. */
  ghost predicate Gives(e: Expr, names: map<string, real>, alias: bool, power: Power, r: Result)
    decreases e, 2
  {
    match e
    case Const(c) => r == Ok(c)
    case Name(id) => if id in names then r == Ok(names[id]) else r == Err(ValueError)
    case Bin(op, left, right) =>
      if op == OtherBin then r == Err(ValueError) else
      BothOk(op, left, right, names, alias, power, r)
      || (r.Err? && Gives(left, names, alias, power, r))
      || (r.Err? && HasValue(left, names, alias, power) && Gives(right, names, alias, power, r))
    case Unary(op, arg) =>
      if op == OtherUn then r == Err(ValueError) else
      (exists x :: Gives(arg, names, alias, power, Ok(x)) && r.Ok? && (if op == Plus then r.v == x else r.v + x == 0.0))
      || (r.Err? && Gives(arg, names, alias, power, r))
    case Call(fn, args) =>
      if !Known(fn, alias) then r == Err(ValueError) else
      (exists vs: seq<real> :: AllGive(args, names, alias, power, vs) && Returns(fn, vs, r))
      || (r.Err? && exists i: nat :: i < |args| && FirstBad(args, names, alias, power, i, r.e))
    case Other => r == Err(ValueError)
  }

  /** The operands are numbers, and r is what the operation makes of them. */
  ghost predicate BothOk(op: BinOp, left: Expr, right: Expr, names: map<string, real>, alias: bool, power: Power, r: Result)
    decreases Bin(op, left, right), 1
  {
    exists x, y :: Gives(left, names, alias, power, Ok(x)) && Gives(right, names, alias, power, Ok(y)) && Numbers(op, x, y, power, r)
  }

  ghost predicate AllGive(args: seq<Expr>, names: map<string, real>, alias: bool, power: Power, vs: seq<real>)
    decreases args
  {
    |vs| == |args| && forall i :: 0 <= i < |args| ==> Gives(args[i], names, alias, power, Ok(vs[i]))
  }

  ghost predicate FirstBad(args: seq<Expr>, names: map<string, real>, alias: bool, power: Power, i: nat, err: Error)
    requires i < |args|
    decreases args
  {
    Gives(args[i], names, alias, power, Err(err)) && forall j :: 0 <= j < i ==> HasValue(args[j], names, alias, power)
  }

  ghost predicate HasValue(e: Expr, names: map<string, real>, alias: bool, power: Power)
    decreases e, 3
  {
    exists x :: Gives(e, names, alias, power, Ok(x))
  }

  function Fns(alias: bool): string -> Option<Fn> {
    if alias then AuthorFn else SafeFn
  }

  // ---------------------------------------------------------------- the operations are computed

  lemma ProductMeans(x: real, y: real, v: real)
    ensures ((y == 0.0 ==> v == 0.0) && (y != 0.0 ==> v / y == x)) <==> v == x * y
  {
    if y != 0.0 { assert v / y * y == v && (x * y) / y == x; }
  }

  lemma QuotientMeans(x: real, y: real, v: real)
    requires y != 0.0
    ensures v * y == x <==> v == x / y
  {
    assert x / y * y == x && (v * y) / y == v;
  }

  lemma NumbersIff(op: BinOp, x: real, y: real, power: Power, r: Result)
    ensures Numbers(op, x, y, power, r) <==> ApplyBin(op, x, y, power) == r
  {
    if r.Ok? {
      ProductMeans(x, y, r.v);
      if y != 0.0 { QuotientMeans(x, y, r.v); }
    }
  }

  lemma CutOffIff(v: real, n: int)
    ensures CutOff(v, n) <==> n == Truncate(v)
  {
    var f, g := v.Floor, (-v).Floor;
  }

  lemma CancelTens(a: real, b: real)
    requires b > 0.0
    ensures a / 10.0 * (10.0 * b) == a * b
  {
  }

  lemma {:induction false} PlaceIsTen(n: nat)
    ensures Place(n) * Pow10(n) == 1.0 && Place(0 - n) == Pow10(n)
  {
    if n > 0 {
      PlaceIsTen(n - 1);
      CancelTens(Place(n - 1), Pow10(n - 1));
    }
  }

  lemma DividedBack(x: real, a: real)
    requires a > 0.0
    ensures Product(Quotient(x, a), a) == x
  {
  }

  lemma RoundDigitsIff(x: real, n: int, v: real)
    ensures RoundsTo(x, Place(n), v) <==> v == RoundDigits(x, n)
  {
    hide RoundHalfEven, RoundsTo, Product, Quotient;
    if n >= 0 {
      PlaceIsTen(n);
      ScaledRounding(x, Pow10(n), Place(n), v);
    } else {
      PlaceIsTen(-n);
      DividedBack(x, Pow10(-n));
      RoundsToIff(x, Quotient(x, Pow10(-n)), Place(n), v);
    }
  }

  lemma ReturnsIff(fn: string, vs: seq<real>, r: Result, alias: bool)
    requires Known(fn, alias)
    ensures Fns(alias)(fn).Some?
    ensures Returns(fn, vs, r) <==> Apply(Fns(alias)(fn).value, vs) == r
  {
    hide RoundsTo, RoundDigits, RoundHalfEven, CutOff, Truncate;
    if fn == "round" && r.Ok? {
      if |vs| == 1 { WholeIff(vs[0], r.v); }
      if |vs| == 2 {
        forall n: int ensures CutOff(vs[1], n) <==> n == Truncate(vs[1]) { CutOffIff(vs[1], n); }
        RoundDigitsIff(vs[0], Truncate(vs[1]), r.v);
      }
    }
  }

  lemma KnownIff(fn: string, alias: bool)
    ensures Known(fn, alias) <==> Fns(alias)(fn).Some?
  {
  }

  // ---------------------------------------------------------------- the evaluator returns the meaning

  /** Every result of the arguments, or the first error. */
  lemma {:induction false} ArgsAre(args: seq<Expr>, names: map<string, real>, fns: string -> Option<Fn>, power: Power)
    ensures var vs := EvalArgs(args, names, fns, power);
            && (vs.Oks? ==> |vs.vs| == |args| && forall i :: 0 <= i < |args| ==> Eval(args[i], names, fns, power) == Ok(vs.vs[i]))
            && (vs.Errs? ==> exists i :: 0 <= i < |args| && FirstError(args, names, fns, power, i, vs.e))
  {
    hide Eval;
    if args != [] {
      var rest := args[1..];
      ArgsAre(rest, names, fns, power);
      var v := Eval(args[0], names, fns, power);
      if v.Err? {
        assert FirstError(args, names, fns, power, 0, v.e);
      } else {
        var vs := EvalArgs(rest, names, fns, power);
        if vs.Errs? {
          var i :| 0 <= i < |rest| && FirstError(rest, names, fns, power, i, vs.e);
          assert FirstError(args, names, fns, power, i + 1, vs.e);
        }
      }
    }
  }

  predicate FirstError(args: seq<Expr>, names: map<string, real>, fns: string -> Option<Fn>, power: Power, i: nat, err: Error)
    requires i < |args|
  {
    Eval(args[i], names, fns, power) == Err(err) && forall j :: 0 <= j < i ==> Eval(args[j], names, fns, power).Ok?
  }

  lemma {:induction false} ArgsError(args: seq<Expr>, names: map<string, real>, fns: string -> Option<Fn>, power: Power, i: nat, err: Error)
    requires i < |args| && FirstError(args, names, fns, power, i, err)
    ensures EvalArgs(args, names, fns, power) == Errs(err)
  {
    hide Eval;
    if i > 0 {
      assert FirstError(args[1..], names, fns, power, i - 1, err);
      ArgsError(args[1..], names, fns, power, i - 1, err);
    }
  }

  lemma {:induction false} ArgsOk(args: seq<Expr>, names: map<string, real>, fns: string -> Option<Fn>, power: Power, vs: seq<real>)
    requires |vs| == |args| && forall i :: 0 <= i < |args| ==> Eval(args[i], names, fns, power) == Ok(vs[i])
    ensures EvalArgs(args, names, fns, power) == Oks(vs)
  {
    hide Eval;
    if args != [] {
      ArgsOk(args[1..], names, fns, power, vs[1..]);
      assert vs == [vs[0]] + vs[1..];
    }
  }

  /** Main result: the evaluator returns r if and only if the expression has the result r. */
  lemma {:induction false} EvalIff(e: Expr, names: map<string, real>, alias: bool, power: Power, r: Result)
    ensures Gives(e, names, alias, power, r) <==> Eval(e, names, Fns(alias), power) == r
    decreases e
  {
    match e
    case Const(_) =>
    case Name(_) =>
    case Bin(op, left, right) => BinIff(op, left, right, names, alias, power, r);
    case Unary(op, arg) => UnaryIff(op, arg, names, alias, power, r);
    case Call(fn, args) => CallIff(fn, args, names, alias, power, r);
    case Other =>
  }

  lemma BinGives(op: BinOp, left: Expr, right: Expr, names: map<string, real>, alias: bool, power: Power, r: Result,
                 x: Result, y: Result)
    requires op != OtherBin
    requires forall q: Result :: Gives(left, names, alias, power, q) <==> q == x
    requires forall q: Result :: Gives(right, names, alias, power, q) <==> q == y
    ensures Gives(Bin(op, left, right), names, alias, power, r) <==>
            if x.Err? then r == x else if y.Err? then r == y else Numbers(op, x.v, y.v, power, r)
  {
    BothValues(op, left, right, names, alias, power, r, x, y);
    LeftValue(left, names, alias, power, x);
    hide Numbers, HasValue, BothOk;
  }

  lemma OperandsOf(op: BinOp, left: Expr, right: Expr, names: map<string, real>, alias: bool, power: Power, r: Result)
    returns (x: real, y: real)
    requires BothOk(op, left, right, names, alias, power, r)
    ensures Gives(left, names, alias, power, Ok(x)) && Gives(right, names, alias, power, Ok(y)) && Numbers(op, x, y, power, r)
  {
    hide Numbers, Gives;
    x, y :| Gives(left, names, alias, power, Ok(x)) && Gives(right, names, alias, power, Ok(y)) && Numbers(op, x, y, power, r);
  }

  lemma OperandsGive(op: BinOp, left: Expr, right: Expr, names: map<string, real>, alias: bool, power: Power, r: Result,
                     x: real, y: real)
    requires Gives(left, names, alias, power, Ok(x)) && Gives(right, names, alias, power, Ok(y)) && Numbers(op, x, y, power, r)
    ensures BothOk(op, left, right, names, alias, power, r)
  {
    hide Numbers, Gives;
  }

  lemma BothValues(op: BinOp, left: Expr, right: Expr, names: map<string, real>, alias: bool, power: Power, r: Result,
                   x: Result, y: Result)
    requires forall q: Result :: Gives(left, names, alias, power, q) <==> q == x
    requires forall q: Result :: Gives(right, names, alias, power, q) <==> q == y
    ensures BothOk(op, left, right, names, alias, power, r) <==> x.Ok? && y.Ok? && Numbers(op, x.v, y.v, power, r)
  {
    hide *;
    if BothOk(op, left, right, names, alias, power, r) {
      var a, b := OperandsOf(op, left, right, names, alias, power, r);
      assert x == Ok(a) && y == Ok(b);
    }
    if x.Ok? && y.Ok? && Numbers(op, x.v, y.v, power, r) {
      OperandsGive(op, left, right, names, alias, power, r, x.v, y.v);
    }
  }

  lemma LeftValue(e: Expr, names: map<string, real>, alias: bool, power: Power, x: Result)
    requires forall q: Result :: Gives(e, names, alias, power, q) <==> q == x
    ensures HasValue(e, names, alias, power) <==> x.Ok?
  {
    if x.Ok? { assert Gives(e, names, alias, power, Ok(x.v)); }
  }

  lemma BinIff(op: BinOp, left: Expr, right: Expr, names: map<string, real>, alias: bool, power: Power, r: Result)
    ensures Gives(Bin(op, left, right), names, alias, power, r) <==> Eval(Bin(op, left, right), names, Fns(alias), power) == r
    decreases Bin(op, left, right), 0
  {
    if op != OtherBin {
      forall q: Result ensures Gives(left, names, alias, power, q) <==> Eval(left, names, Fns(alias), power) == q {
        EvalIff(left, names, alias, power, q);
      }
      forall q: Result ensures Gives(right, names, alias, power, q) <==> Eval(right, names, Fns(alias), power) == q {
        EvalIff(right, names, alias, power, q);
      }
      hide Numbers, ApplyBin, Fns, Gives;
      var x, y := Eval(left, names, Fns(alias), power), Eval(right, names, Fns(alias), power);
      BinGives(op, left, right, names, alias, power, r, x, y);
      if x.Ok? && y.Ok? { NumbersIff(op, x.v, y.v, power, r); }
    }
  }

  lemma UnaryIff(op: UnOp, arg: Expr, names: map<string, real>, alias: bool, power: Power, r: Result)
    ensures Gives(Unary(op, arg), names, alias, power, r) <==> Eval(Unary(op, arg), names, Fns(alias), power) == r
    decreases Unary(op, arg), 0
  {
    forall q: Result ensures Gives(arg, names, alias, power, q) <==> Eval(arg, names, Fns(alias), power) == q {
      EvalIff(arg, names, alias, power, q);
    }
  }

  /** Arguments give at most one list of numbers, and none if one of them is an error. */
  lemma AllGiveOnly(args: seq<Expr>, names: map<string, real>, alias: bool, power: Power, vs: seq<real>)
    requires forall i, q: Result :: 0 <= i < |args| && Gives(args[i], names, alias, power, q) ==> q == Eval(args[i], names, Fns(alias), power)
    requires AllGive(args, names, alias, power, vs)
    ensures EvalArgs(args, names, Fns(alias), power) == Oks(vs)
  {
    hide Eval, EvalArgs, Fns;
    forall i | 0 <= i < |args| ensures Eval(args[i], names, Fns(alias), power) == Ok(vs[i]) {
      assert Gives(args[i], names, alias, power, Ok(vs[i]));
    }
    ArgsOk(args, names, Fns(alias), power, vs);
  }

  lemma FirstBadOnly(args: seq<Expr>, names: map<string, real>, alias: bool, power: Power, i: nat, err: Error)
    requires forall i, q: Result :: 0 <= i < |args| && Gives(args[i], names, alias, power, q) ==> q == Eval(args[i], names, Fns(alias), power)
    requires i < |args| && FirstBad(args, names, alias, power, i, err)
    ensures EvalArgs(args, names, Fns(alias), power) == Errs(err)
  {
    hide Eval, EvalArgs, Fns;
    forall j | 0 <= j < i ensures Eval(args[j], names, Fns(alias), power).Ok? {
      var x :| Gives(args[j], names, alias, power, Ok(x));
    }
    assert Eval(args[i], names, Fns(alias), power) == Err(err);
    ArgsError(args, names, Fns(alias), power, i, err);
  }

  /** And they do give what they evaluate to. */
  lemma ArgsGive(args: seq<Expr>, names: map<string, real>, alias: bool, power: Power)
    requires forall i :: 0 <= i < |args| ==> Gives(args[i], names, alias, power, Eval(args[i], names, Fns(alias), power))
    ensures var vs := EvalArgs(args, names, Fns(alias), power);
            && (vs.Oks? ==> AllGive(args, names, alias, power, vs.vs))
            && (vs.Errs? ==> exists i: nat :: i < |args| && FirstBad(args, names, alias, power, i, vs.e))
  {
    hide Eval, EvalArgs, Fns;
    ArgsAre(args, names, Fns(alias), power);
    var vs := EvalArgs(args, names, Fns(alias), power);
    if vs.Oks? {
      forall i | 0 <= i < |args| ensures Gives(args[i], names, alias, power, Ok(vs.vs[i])) {
        assert Eval(args[i], names, Fns(alias), power) == Ok(vs.vs[i]);
      }
    } else {
      var i :| 0 <= i < |args| && FirstError(args, names, Fns(alias), power, i, vs.e);
      assert Gives(args[i], names, alias, power, Err(vs.e));
      forall j: int | 0 <= j < i ensures HasValue(args[j], names, alias, power) {
        assert Eval(args[j], names, Fns(alias), power) == Ok(Eval(args[j], names, Fns(alias), power).v);
        assert Gives(args[j], names, alias, power, Ok(Eval(args[j], names, Fns(alias), power).v));
      }
      IsFirstBad(args, names, alias, power, i, vs.e);
    }
  }

  lemma IsFirstBad(args: seq<Expr>, names: map<string, real>, alias: bool, power: Power, i: nat, err: Error)
    requires i < |args| && Gives(args[i], names, alias, power, Err(err))
    requires forall j :: 0 <= j < i ==> HasValue(args[j], names, alias, power)
    ensures FirstBad(args, names, alias, power, i, err)
  {
  }

  /** What a known call gives, from what its arguments evaluate to. */
  lemma CallGives(fn: string, args: seq<Expr>, names: map<string, real>, alias: bool, power: Power, r: Result)
    requires Known(fn, alias)
    requires forall i, q: Result :: 0 <= i < |args| ==>
               (Gives(args[i], names, alias, power, q) <==> Eval(args[i], names, Fns(alias), power) == q)
    ensures var vs := EvalArgs(args, names, Fns(alias), power);
            Gives(Call(fn, args), names, alias, power, r) <==> if vs.Oks? then Returns(fn, vs.vs, r) else r == Err(vs.e)
  {
    ArgsGive(args, names, alias, power);
    hide Returns, Fns, Known, Eval, EvalArgs, AllGive, FirstBad;
    if ws: seq<real> :| AllGive(args, names, alias, power, ws) && Returns(fn, ws, r) {
      AllGiveOnly(args, names, alias, power, ws);
    }
    if r.Err? {
      if i: nat :| i < |args| && FirstBad(args, names, alias, power, i, r.e) {
        FirstBadOnly(args, names, alias, power, i, r.e);
      }
    }
  }

  lemma CallIff(fn: string, args: seq<Expr>, names: map<string, real>, alias: bool, power: Power, r: Result)
    ensures Gives(Call(fn, args), names, alias, power, r) <==> Eval(Call(fn, args), names, Fns(alias), power) == r
    decreases Call(fn, args), 0
  {
    KnownIff(fn, alias);
    if Known(fn, alias) {
      forall i, q: Result | 0 <= i < |args|
        ensures Gives(args[i], names, alias, power, q) <==> Eval(args[i], names, Fns(alias), power) == q
      {
        EvalIff(args[i], names, alias, power, q);
      }
      CallGives(fn, args, names, alias, power, r);
      var vs := EvalArgs(args, names, Fns(alias), power);
      if vs.Oks? { ReturnsIff(fn, vs.vs, r, alias); }
      hide Returns, Apply, Fns, Known, EvalArgs, Gives;
    }
  }

  // ---------------------------------------------------------------- as written

  predicate Marks(ts: seq<Token>) {
    forall i :: 0 <= i < |ts| ==> ts[i].Mark?
  }

  lemma {:induction false} RenderMarks(ts: seq<Token>)
    requires Marks(ts)
    ensures |Render(ts)| == |ts| && forall i :: 0 <= i < |ts| ==> Render(ts)[i] == ts[i].c
  {
    if ts != [] { RenderMarks(ts[1..]); }
  }

  lemma SpelledAs(symbol: seq<Token>, marks: seq<Token>)
    requires Marks(symbol)
    requires Marks(marks)
    ensures symbol == marks <==> Render(symbol) == Render(marks)
  {
    RenderMarks(symbol);
    RenderMarks(marks);
    if Render(symbol) == Render(marks) {
      forall i | 0 <= i < |symbol| ensures symbol[i] == marks[i] {
        assert symbol[i].c == Render(symbol)[i] == Render(marks)[i] == marks[i].c;
      }
    }
  }

  lemma OneMark(symbol: seq<Token>, c: char)
    requires Marks(symbol)
    ensures symbol == [Mark(c)] <==> Render(symbol) == [c]
  {
    RenderMarks([Mark(c)]);
    assert Render([Mark(c)]) == [c];
    hide Render;
    SpelledAs(symbol, [Mark(c)]);
  }

  lemma TwoStars(symbol: seq<Token>)
    requires Marks(symbol)
    ensures symbol == [Mark('*'), Mark('*')] <==> Render(symbol) == "**"
  {
    RenderMarks([Mark('*'), Mark('*')]);
    assert Render([Mark('*'), Mark('*')]) == "**";
    hide Render;
    SpelledAs(symbol, [Mark('*'), Mark('*')]);
  }

  /** The whitelist of operators is exactly these symbols; a word such as `and` is none. */
  lemma SymbolsMean(symbol: seq<Token>)
    ensures BinOpOf(symbol) == Add <==> Marks(symbol) && Render(symbol) == "+"
    ensures BinOpOf(symbol) == Sub <==> Marks(symbol) && Render(symbol) == "-"
    ensures BinOpOf(symbol) == Mul <==> Marks(symbol) && Render(symbol) == "*"
    ensures BinOpOf(symbol) == Div <==> Marks(symbol) && Render(symbol) == "/"
    ensures BinOpOf(symbol) == Pow <==> Marks(symbol) && Render(symbol) == "**"
    ensures UnOpOf(symbol) == Plus <==> Marks(symbol) && Render(symbol) == "+"
    ensures UnOpOf(symbol) == Minus <==> Marks(symbol) && Render(symbol) == "-"
  {
    hide Render;
    if Marks(symbol) {
      OneMark(symbol, '+');
      OneMark(symbol, '-');
      OneMark(symbol, '*');
      OneMark(symbol, '/');
      TwoStars(symbol);
    }
  }

  // ---------------------------------------------------------------- grouping

  /** How tightly the operators bind: sums, products, powers. */
  function Binding(op: BinOp): nat
    requires op != OtherBin
  {
    match op
    case Add => 1 case Sub => 1 case Mul => 2 case Div => 2 case Pow => 3
  }

  predicate Atom(t: Text) {
    Grammatical(t) && Level(t) == 5
  }

  /** Of a x b y c exactly one grouping is read: to the left, unless y binds tighter than x
      or both are powers. */
  lemma OneGrouping(x: seq<Token>, y: seq<Token>, a: Text, b: Text, c: Text)
    requires BinOpOf(x) != OtherBin && BinOpOf(y) != OtherBin && Atom(a) && Atom(b) && Atom(c)
    ensures Grammatical(Infix(y, Infix(x, a, b), c)) <==>
            Binding(BinOpOf(y)) <= Binding(BinOpOf(x)) && !(BinOpOf(x) == Pow && BinOpOf(y) == Pow)
    ensures Grammatical(Infix(x, a, Infix(y, b, c))) <==> !Grammatical(Infix(y, Infix(x, a, b), c))
  {
    hide BinOpOf;
  }

  /** A sign takes the power on its right, but no product or sum, and signs may follow signs. */
  lemma SignGrouping(sign: seq<Token>, x: seq<Token>, a: Text, b: Text)
    requires UnOpOf(sign) != OtherUn && BinOpOf(x) != OtherBin && Atom(a) && Atom(b)
    ensures Grammatical(Prefix(sign, Infix(x, a, b))) <==> BinOpOf(x) == Pow
    ensures Grammatical(Infix(x, Prefix(sign, a), b)) <==> BinOpOf(x) != Pow
    ensures Grammatical(Infix(x, a, Prefix(sign, b))) && Grammatical(Prefix(sign, Prefix(sign, a)))
  {
    hide BinOpOf, UnOpOf;
  }

  /** What is grammatical has grammatical parts, whitelisted operators, and nothing odd. */
  lemma GrammaticalParts(t: Text)
    requires Grammatical(t)
    ensures match t
            case Infix(symbol, left, right) => BinOpOf(symbol) != OtherBin && Grammatical(left) && Grammatical(right)
            case Prefix(symbol, operand) => UnOpOf(symbol) != OtherUn && Grammatical(operand)
            case CallOf(_, _, args) => forall a :: a in args ==> Grammatical(a)
            case Odd(_) => false
            case Spaced(_, inner, _) => Grammatical(inner)
            case Paren(inner) => Grammatical(inner)
            case _ => true
  {
  }

  /** The renamed expression has a result over the placeholders exactly when the author's
      has it over the references, with SQL's names for max and min understood. */
  lemma RenamedGives(t: Text, keys: seq<string>, values: map<string, real>, power: Power, r: Result)
    requires RefsOk(keys, values) && Writable(t, keys)
    ensures Gives(Tree(RenamedText(t, Names(keys))), ValuesOf(keys, values), false, power, r) <==> Gives(Tree(t), values, true, power, r)
  {
    hide Gives, Eval, Tree, RenamedText, Names, ValuesOf, Writable, HasColons, RefChars;
    RenamedMeansSame(t, keys, values, power);
    PlainMeaning(Tree(RenamedText(t, Names(keys))), ValuesOf(keys, values), power, r);
    AuthorsMeaning(Tree(t), values, power, r);
  }

  lemma PlainMeaning(e: Expr, values: map<string, real>, power: Power, r: Result)
    ensures Gives(e, values, false, power, r) <==> Eval(e, values, SafeFn, power) == r
  {
    EvalIff(e, values, false, power, r);
  }

  lemma AuthorsMeaning(e: Expr, values: map<string, real>, power: Power, r: Result)
    ensures Gives(e, values, true, power, r) <==> Eval(e, values, AuthorFn, power) == r
  {
    EvalIff(e, values, true, power, r);
  }
}
