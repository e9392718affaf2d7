/** The whitelisted evaluator of calc expressions (calculator.py, _safe_eval) over
    exact reals, and why the text rewriting before it preserves meaning. */
module CalcExpr {
  import opened Common
  import opened Rounding
  import opened CalcText

  datatype BinOp = Add | Sub | Mul | Div | Pow | OtherBin
  datatype UnOp = Plus | Minus | OtherUn

  /** The syntax tree. A name may be a reference: before rewriting, a reference is one
      word. Constructs outside the whitelist are all alike to the evaluator. */
  datatype Expr =
    | Const(value: real)
    | Name(id: string)
    | Bin(op: BinOp, left: Expr, right: Expr)
    | Unary(uop: UnOp, arg: Expr)
    | Call(fn: string, args: seq<Expr>)
    | Other

  datatype Error = ValueError | ZeroDivisionError | TypeError | PowError
  datatype Result = Ok(v: real) | Err(e: Error)
  datatype Results = Oks(vs: seq<real>) | Errs(e: Error)

  /** Python's float power is not a real function; it is a parameter, None when it
      raises or leaves the reals. */
  type Power = (real, real) -> Option<real>

  datatype Fn = FMax | FMin | FRound

  /** _SAFE_FUNCS. */
  function SafeFn(name: string): Option<Fn> {
    if name == "max" then Some(FMax) else if name == "min" then Some(FMin)
    else if name == "round" then Some(FRound) else None
  }

  /** The functions an author may write: also SQL's greatest and least. */
  function AuthorFn(name: string): Option<Fn> {
    if name == "greatest" then Some(FMax) else if name == "least" then Some(FMin) else SafeFn(name)
  }

  function FoldMax(vs: seq<real>): (m: real)
    requires vs != []
    ensures m in vs && forall v :: v in vs ==> v <= m
  {
    if |vs| == 1 then vs[0]
    else
      assert vs == [vs[0]] + vs[1..];
      var m := FoldMax(vs[1..]);
      if vs[0] < m then m else vs[0]
  }

  function FoldMin(vs: seq<real>): (m: real)
    requires vs != []
    ensures m in vs && forall v :: v in vs ==> m <= v
  {
    if |vs| == 1 then vs[0]
    else
      assert vs == [vs[0]] + vs[1..];
      var m := FoldMin(vs[1..]);
      if m < vs[0] then m else vs[0]
  }

  function Pow10(n: nat): (p: real)
    ensures p >= 1.0
  {
    if n == 0 then 1.0 else 10.0 * Pow10(n - 1)
  }

  /** int(x): towards zero. */
  function Truncate(x: real): int {
    if x >= 0.0 then x.Floor else -((-x).Floor)
  }

  function RoundDigits(x: real, n: int): real {
    if n >= 0 then Quotient(RoundHalfEven(Product(x, Pow10(n))) as real, Pow10(n))
    else Product(RoundHalfEven(Quotient(x, Pow10(-n))) as real, Pow10(-n))
  }

  function Apply(f: Fn, vs: seq<real>): Result {
    match f
    case FRound =>
      if |vs| == 1 then Ok(RoundHalfEven(vs[0]) as real)
      else if |vs| == 2 then Ok(RoundDigits(vs[0], Truncate(vs[1])))
      else Err(TypeError)
    case FMax => if |vs| >= 2 then Ok(FoldMax(vs)) else Err(TypeError)
    case FMin => if |vs| >= 2 then Ok(FoldMin(vs)) else Err(TypeError)
  }

  function ApplyBin(op: BinOp, l: real, r: real, power: Power): Result {
    match op
    case Add => Ok(l + r)
    case Sub => Ok(l - r)
    case Mul => Ok(l * r)
    case Div => if r == 0.0 then Err(ZeroDivisionError) else Ok(l / r)
    case Pow =>
      if !(-32.0 <= r <= 32.0) then Err(ValueError)
      else var p := power(l, r); if p.Some? then Ok(p.value) else Err(PowError)
    case OtherBin => Err(ValueError)
  }

  /** Operators are looked up before operands, functions before arguments, and the
      first error from the left is the one raised. `fns` is the table of functions. */
  function Eval(e: Expr, names: map<string, real>, fns: string -> Option<Fn>, power: Power): Result {
    match e
    case Const(c) => Ok(c)
    case Name(id) => if id in names then Ok(names[id]) else Err(ValueError)
    case Bin(op, left, right) =>
      if op.OtherBin? then Err(ValueError) else
      var l := Eval(left, names, fns, power);
      if l.Err? then l else
      var r := Eval(right, names, fns, power);
      if r.Err? then r else ApplyBin(op, l.v, r.v, power)
    case Unary(op, arg) =>
      if op.OtherUn? then Err(ValueError) else
      var a := Eval(arg, names, fns, power);
      if a.Err? then a else Ok(if op == Minus then -a.v else a.v)
    case Call(fn, args) =>
      var f := fns(fn);
      if f.None? then Err(ValueError) else
      var vs := EvalArgs(args, names, fns, power);
      if vs.Errs? then Err(vs.e) else Apply(f.value, vs.vs)
    case Other => Err(ValueError)
  }

  function EvalArgs(args: seq<Expr>, names: map<string, real>, fns: string -> Option<Fn>, power: Power): Results {
    if args == [] then Oks([])
    else
      var v := Eval(args[0], names, fns, power);
      if v.Err? then Errs(v.e) else
      var rest := EvalArgs(args[1..], names, fns, power);
      if rest.Errs? then rest else Oks([v.v] + rest.vs)
  }

  // ---------------------------------------------------------------- spelling

  /** An expression as it is written: the tree with its symbols, numerals, optional
      spaces and optional parentheses. `gap` is the blanks between a call's name and its
      parenthesis. */
  datatype Text =
    | Num(value: real, numeral: seq<Token>)
    | Id(name: string)
    | Infix(symbol: seq<Token>, left: Text, right: Text)
    | Prefix(symbol: seq<Token>, operand: Text)
    | CallOf(fn: string, gap: nat, args: seq<Text>)
    | Odd(spelling: seq<Token>)
    | Spaced(before: nat, inner: Text, after: nat)
    | Paren(inner: Text)

  function BinOpOf(symbol: seq<Token>): BinOp {
    if symbol == [Mark('+')] then Add else if symbol == [Mark('-')] then Sub
    else if symbol == [Mark('*')] then Mul else if symbol == [Mark('/')] then Div
    else if symbol == [Mark('*'), Mark('*')] then Pow else OtherBin
  }

  function UnOpOf(symbol: seq<Token>): UnOp {
    if symbol == [Mark('+')] then Plus else if symbol == [Mark('-')] then Minus else OtherUn
  }

  function Tree(t: Text): Expr {
    match t
    case Num(value, _) => Const(value)
    case Id(name) => Name(name)
    case Infix(symbol, left, right) => Bin(BinOpOf(symbol), Tree(left), Tree(right))
    case Prefix(symbol, operand) => Unary(UnOpOf(symbol), Tree(operand))
    case CallOf(fn, _, args) => Call(fn, Trees(args))
    case Odd(_) => Other
    case Spaced(_, inner, _) => Tree(inner)
    case Paren(inner) => Tree(inner)
  }

  function Trees(args: seq<Text>): (es: seq<Expr>)
    ensures |es| == |args|
  {
    if args == [] then [] else [Tree(args[0])] + Trees(args[1..])
  }

  function Blanks(n: nat): (ts: seq<Token>)
    ensures |ts| == n && forall i :: 0 <= i < n ==> ts[i] == Mark(' ')
  {
    seq(n, _ => Mark(' '))
  }

  function Wrapped(ts: seq<Token>): seq<Token> {
    [Mark('(')] + ts + [Mark(')')]
  }

  function Spell(t: Text): seq<Token> {
    match t
    case Num(_, numeral) => numeral
    case Id(name) => [Word(name)]
    case Infix(symbol, left, right) => Spell(left) + (symbol + Spell(right))
    case Prefix(symbol, operand) => symbol + Spell(operand)
    case CallOf(fn, gap, args) => [Word(fn)] + (Blanks(gap) + Wrapped(SpellArgs(args)))
    case Odd(spelling) => spelling
    case Spaced(before, inner, after) => Blanks(before) + (Spell(inner) + Blanks(after))
    case Paren(inner) => Wrapped(Spell(inner))
  }

  function SpellArgs(args: seq<Text>): seq<Token> {
    if args == [] then []
    else if |args| == 1 then Spell(args[0])
    else Spell(args[0]) + ([Mark(',')] + SpellArgs(args[1..]))
  }

  lemma TightCall(fn: string, args: seq<Text>)
    ensures Spell(CallOf(fn, 0, args)) == [Word(fn)] + Wrapped(SpellArgs(args))
  {
    assert Blanks(0) + Wrapped(SpellArgs(args)) == Wrapped(SpellArgs(args));
  }

  /** A number: words start with a digit and nothing is called. */
  predicate Numeral(ts: seq<Token>) {
    forall i :: 0 <= i < |ts| ==>
      match ts[i] case Word(w) => w != "" && '0' <= w[0] <= '9' && (forall k :: 0 <= k < |w| ==> w[k] != ':') case Mark(c) => c != '('
  }

  /** Numbers are numerals, and symbols keep a name on their left from an opening
      parenthesis on their right (a word as a symbol brings its own spaces). */
  predicate TextOk(t: Text) {
    match t
    case Num(_, numeral) => Numeral(numeral)
    case Id(_) => true
    case Infix(symbol, left, right) =>
      symbol != [] && symbol[0] != Mark('(') && symbol[|symbol| - 1].Mark? && TextOk(left) && TextOk(right)
    case Prefix(symbol, operand) => symbol != [] && symbol[|symbol| - 1].Mark? && TextOk(operand)
    case CallOf(_, _, args) => forall i :: 0 <= i < |args| ==> TextOk(args[i])
    case Odd(_) => true
    case Spaced(_, inner, _) => TextOk(inner)
    case Paren(inner) => TextOk(inner)
  }

  // ---------------------------------------------------------------- precedence

  /** How tightly the text binds: 1 sums, 2 products, 3 signs, 4 powers, 5 what needs no
      parentheses anywhere. */
  function Level(t: Text): nat {
    match t
    case Infix(symbol, _, _) =>
      (match BinOpOf(symbol)
       case Add => 1 case Sub => 1 case Mul => 2 case Div => 2 case Pow => 4 case OtherBin => 0)
    case Prefix(symbol, _) => if UnOpOf(symbol) == OtherUn then 0 else 3
    case Odd(_) => 0
    case Spaced(_, inner, _) => Level(inner)
    case _ => 5
  }

  /** The whitelisted expressions with all the parentheses they need: sums and products
      group to the left, powers to the right and tighter than a sign on their left. */
  predicate Grammatical(t: Text) {
    match t
    case Num(_, _) => true
    case Id(_) => true
    case Infix(symbol, left, right) =>
      Grammatical(left) && Grammatical(right) &&
      (match BinOpOf(symbol)
       case Add => Level(left) >= 1 && Level(right) >= 2
       case Sub => Level(left) >= 1 && Level(right) >= 2
       case Mul => Level(left) >= 2 && Level(right) >= 3
       case Div => Level(left) >= 2 && Level(right) >= 3
       case Pow => Level(left) >= 5 && Level(right) >= 3
       case OtherBin => false)
    case Prefix(symbol, operand) => UnOpOf(symbol) != OtherUn && Grammatical(operand) && Level(operand) >= 3
    case CallOf(_, _, args) => forall i :: 0 <= i < |args| ==> Grammatical(args[i])
    case Odd(_) => false
    case Spaced(_, inner, _) => Grammatical(inner)
    case Paren(inner) => Grammatical(inner)
  }

  // ---------------------------------------------------------------- renaming

  /** SQL's names for max and min, which the evaluator does not know. */
  predicate Alias(fn: string) { fn == "greatest" || fn == "least" }

  /** The name a call has after the rewriting, which knows greatest and least only with
      their parenthesis right behind. */
  function CalledFn(fn: string, gap: nat, names: map<string, string>): string {
    var named := if fn in names then names[fn] else fn;
    if gap == 0 then SwapFn(named) else named
  }

  /** What the text rewriting is meant to do to a written expression. */
  function RenamedText(t: Text, names: map<string, string>): Text {
    match t
    case Num(_, _) => t
    case Id(name) => Id(if name in names then names[name] else name)
    case Infix(symbol, left, right) => Infix(Rewrite(symbol, false, names), RenamedText(left, names), RenamedText(right, names))
    case Prefix(symbol, operand) => Prefix(Rewrite(symbol, false, names), RenamedText(operand, names))
    case CallOf(fn, gap, args) => CallOf(CalledFn(fn, gap, names), gap, RenamedTexts(args, names))
    case Odd(spelling) => Odd(Rewrite(spelling, false, names))
    case Spaced(before, inner, after) => Spaced(before, RenamedText(inner, names), after)
    case Paren(inner) => Paren(RenamedText(inner, names))
  }

  function RenamedTexts(args: seq<Text>, names: map<string, string>): (r: seq<Text>)
    ensures |r| == |args|
  {
    if args == [] then [] else [RenamedText(args[0], names)] + RenamedTexts(args[1..], names)
  }

  lemma {:induction false} RenamedTextsAt(args: seq<Text>, names: map<string, string>, i: nat)
    requires i < |args|
    ensures RenamedTexts(args, names)[i] == RenamedText(args[i], names)
  {
    if i > 0 { RenamedTextsAt(args[1..], names, i - 1); }
  }

  lemma SymbolKept(symbol: seq<Token>, names: map<string, string>)
    ensures BinOpOf(Rewrite(symbol, false, names)) == BinOpOf(symbol)
    ensures UnOpOf(Rewrite(symbol, false, names)) == UnOpOf(symbol)
  {
    hide SwapFn;
    var r := Rewrite(symbol, false, names);
    assert forall i :: 0 <= i < |symbol| ==> (symbol[i].Mark? ==> r[i] == symbol[i]) && (symbol[i].Word? ==> r[i].Word?);
    hide Rewrite, RewriteToken;
    if i :| 0 <= i < |symbol| && symbol[i].Word? {
      assert r[i].Word?;
    } else {
      assert r == symbol;
    }
  }

  /** Renaming disturbs no grouping: it needs no new parentheses. */
  lemma {:induction false} RenamedGrammatical(t: Text, names: map<string, string>)
    ensures Level(RenamedText(t, names)) == Level(t) && (Grammatical(RenamedText(t, names)) <==> Grammatical(t))
  {
    hide Rewrite, BinOpOf, UnOpOf, CalledFn;
    match t
    case Num(_, _) =>
    case Id(_) =>
    case Infix(symbol, left, right) =>
      SymbolKept(symbol, names);
      RenamedGrammatical(left, names);
      RenamedGrammatical(right, names);
    case Prefix(symbol, operand) =>
      SymbolKept(symbol, names);
      RenamedGrammatical(operand, names);
    case CallOf(_, _, args) =>
      forall i | 0 <= i < |args| ensures Grammatical(RenamedTexts(args, names)[i]) <==> Grammatical(args[i]) {
        RenamedTextsAt(args, names, i);
        RenamedGrammatical(args[i], names);
      }
    case Odd(_) =>
    case Spaced(_, inner, _) => RenamedGrammatical(inner, names);
    case Paren(inner) => RenamedGrammatical(inner, names);
  }

  lemma MarkKept(t: Token, call: bool, names: map<string, string>)
    ensures t.Mark? ==> RewriteToken(t, call, names) == t
  {
  }

  lemma RewriteAt(ts: seq<Token>, i: nat, names: map<string, string>)
    requires i < |ts|
    ensures Rewrite(ts, false, names)[i] == RewriteToken(ts[i], BeforeParen(ts, i), names)
  {
    hide RewriteToken;
    ParenMeans(ts, i);
  }

  lemma SameAt(s: seq<Token>, i: nat, ts: seq<Token>, j: nat, names: map<string, string>)
    requires i < |s| && j < |ts| && s[i] == ts[j] && (s[i].Mark? || BeforeParen(s, i) == BeforeParen(ts, j))
    ensures Rewrite(s, false, names)[i] == Rewrite(ts, false, names)[j]
  {
    hide RewriteToken, Rewrite, BeforeParen;
    RewriteAt(s, i, names);
    RewriteAt(ts, j, names);
    MarkKept(s[i], BeforeParen(s, i), names);
    MarkKept(s[i], BeforeParen(ts, j), names);
  }

  /** Rewriting works piece by piece unless a name meets the parenthesis of its call. */
  lemma RewriteAppend(x: seq<Token>, y: seq<Token>, names: map<string, string>)
    requires x == [] || x[|x| - 1].Mark? || y == [] || y[0] != Mark('(')
    ensures Rewrite(x + y, false, names) == Rewrite(x, false, names) + Rewrite(y, false, names)
  {
    hide RewriteToken, Rewrite;
    var s := x + y;
    var a, b, r := Rewrite(s, false, names), Rewrite(x, false, names), Rewrite(y, false, names);
    forall i | 0 <= i < |x| ensures a[i] == b[i] { SameAt(s, i, x, i, names); }
    forall j | 0 <= j < |y| ensures a[|x| + j] == r[j] { SameAt(s, |x| + j, y, j, names); }
    assert a[..|x|] == b && a[|x|..] == r;
  }

  lemma RewriteMarks(ts: seq<Token>, names: map<string, string>)
    requires forall i :: 0 <= i < |ts| ==> ts[i].Mark?
    ensures Rewrite(ts, false, names) == ts
  {
  }

  lemma RewriteWrapped(ts: seq<Token>, names: map<string, string>)
    ensures Rewrite(Wrapped(ts), false, names) == Wrapped(Rewrite(ts, false, names))
  {
    hide Rewrite;
    var open, close := [Mark('(')], [Mark(')')];
    RewriteMarks(open, names);
    RewriteMarks(close, names);
    RewriteAppend(open + ts, close, names);
    RewriteAppend(open, ts, names);
  }

  lemma RewriteCall(fn: string, ts: seq<Token>, names: map<string, string>)
    ensures Rewrite([Word(fn)] + Wrapped(ts), false, names)
            == [RewriteToken(Word(fn), true, names)] + Wrapped(Rewrite(ts, false, names))
  {
    RewriteWrapped(ts, names);
    var w := Wrapped(ts);
    var a, b := Rewrite([Word(fn)] + w, false, names), Rewrite(w, false, names);
    assert w[0] == Mark('(');
    hide Wrapped;
    forall i | 1 <= i < |a| ensures a[i] == b[i - 1] {
      assert ([Word(fn)] + w)[i] == w[i - 1];
    }
    assert a == [a[0]] + b;
  }

  lemma RewriteCallOf(fn: string, gap: nat, ts: seq<Token>, names: map<string, string>)
    ensures Rewrite([Word(fn)] + (Blanks(gap) + Wrapped(ts)), false, names)
            == [Word(CalledFn(fn, gap, names))] + (Blanks(gap) + Wrapped(Rewrite(ts, false, names)))
  {
    if gap == 0 {
      assert forall us: seq<Token> :: Blanks(0) + us == us;
      RewriteCall(fn, ts, names);
    } else {
      RewriteId(fn, names);
      RewriteWrapped(ts, names);
      RewriteMarks(Blanks(gap), names);
      hide Rewrite, Wrapped;
      RewriteAppend(Blanks(gap), Wrapped(ts), names);
      RewriteAppend([Word(fn)], Blanks(gap) + Wrapped(ts), names);
    }
  }

  lemma RewriteNumeral(ts: seq<Token>, names: map<string, string>)
    requires Numeral(ts) && forall k :: k in names ==> HasColons(k)
    ensures Rewrite(ts, false, names) == ts
  {
    var r := Rewrite(ts, false, names);
    forall i | 0 <= i < |ts| ensures r[i] == ts[i] {
      if ts[i].Word? {
        assert !HasColons(ts[i].text) by { NoColonsIn(ts[i].text); }
        if i + 1 < |ts| && ts[i + 1].Mark? { assert ts[i + 1].c != '('; }
      }
    }
  }

  /** Rewriting a written expression writes the renamed one. */
  lemma {:induction false} RewriteSpell(t: Text, names: map<string, string>)
    requires TextOk(t) && forall k :: k in names ==> HasColons(k)
    ensures Rewrite(Spell(t), false, names) == Spell(RenamedText(t, names))
  {
    hide Wrapped, Rewrite, Numeral, HasColons, CalledFn;
    match t
    case Num(_, numeral) => RewriteNumeral(numeral, names);
    case Id(name) => RewriteId(name, names);
    case Infix(symbol, left, right) =>
      RewriteSpell(left, names);
      RewriteSpell(right, names);
      RewriteAppend(symbol, Spell(right), names);
      RewriteAppend(Spell(left), symbol + Spell(right), names);
    case Prefix(symbol, operand) =>
      RewriteSpell(operand, names);
      RewriteAppend(symbol, Spell(operand), names);
    case CallOf(fn, gap, args) =>
      RewriteSpellArgs(args, names);
      RewriteCallOf(fn, gap, SpellArgs(args), names);
    case Odd(_) =>
    case Spaced(before, inner, after) =>
      RewriteSpell(inner, names);
      RewriteMarks(Blanks(before), names);
      RewriteMarks(Blanks(after), names);
      RewriteAppend(Spell(inner), Blanks(after), names);
      RewriteAppend(Blanks(before), Spell(inner) + Blanks(after), names);
    case Paren(inner) =>
      RewriteSpell(inner, names);
      RewriteWrapped(Spell(inner), names);
  }

  lemma RewriteId(name: string, names: map<string, string>)
    ensures Rewrite([Word(name)], false, names) == [Word(if name in names then names[name] else name)]
  {
  }

  lemma {:induction false} RewriteSpellArgs(args: seq<Text>, names: map<string, string>)
    requires (forall i :: 0 <= i < |args| ==> TextOk(args[i])) && forall k :: k in names ==> HasColons(k)
    ensures Rewrite(SpellArgs(args), false, names) == SpellArgs(RenamedTexts(args, names))
  {
    hide Rewrite, HasColons;
    if args == [] {
      RewriteMarks([], names);
    } else {
      RewriteSpell(args[0], names);
      RewriteSpellArgs(args[1..], names);
      assert RenamedTexts(args, names)[1..] == RenamedTexts(args[1..], names);
      if |args| > 1 {
        var comma, rest := [Mark(',')], SpellArgs(args[1..]);
        RewriteMarks(comma, names);
        RewriteAppend(comma, rest, names);
        RewriteAppend(Spell(args[0]), comma + rest, names);
      }
    }
  }

  // ---------------------------------------------------------------- what the author must keep to

  ghost predicate WordOk(w: string, keys: seq<string>) {
    w != "" && RefChars(w) && (HasColons(w) ==> w in keys)
  }

  ghost predicate WordsOk(ts: seq<Token>, keys: seq<string>) {
    forall i :: 0 <= i < |ts| && ts[i].Word? ==> WordOk(ts[i].text, keys)
  }

  /** The name is one of the placeholders the rewriting hands out. */
  ghost predicate PlaceholderName(id: string, n: nat) {
    exists i: nat :: i < n && Placeholder(i) == id
  }

  /** No name is spelled like a placeholder. */
  ghost predicate NoPlaceholders(e: Expr, n: nat) {
    match e
    case Const(_) => true
    case Name(id) => !PlaceholderName(id, n)
    case Bin(_, left, right) => NoPlaceholders(left, n) && NoPlaceholders(right, n)
    case Unary(_, arg) => NoPlaceholders(arg, n)
    case Call(_, args) => forall i :: 0 <= i < |args| ==> NoPlaceholders(args[i], n)
    case Other => true
  }

  /** Every call of greatest or least has its parenthesis right behind the name. */
  ghost predicate CallsTight(t: Text) {
    match t
    case Num(_, _) => true
    case Id(_) => true
    case Infix(_, left, right) => CallsTight(left) && CallsTight(right)
    case Prefix(_, operand) => CallsTight(operand)
    case CallOf(fn, gap, args) => (Alias(fn) ==> gap == 0) && forall i :: 0 <= i < |args| ==> CallsTight(args[i])
    case Odd(_) => true
    case Spaced(_, inner, _) => CallsTight(inner)
    case Paren(inner) => CallsTight(inner)
  }

  /** Names and functions are words, double-colon words are references, no name is spelled
      like a placeholder, and calls are tight. */
  ghost predicate Writable(t: Text, keys: seq<string>) {
    match t
    case Num(_, _) => true
    case Id(name) => WordOk(name, keys) && !PlaceholderName(name, |keys|)
    case Infix(_, left, right) => Writable(left, keys) && Writable(right, keys)
    case Prefix(_, operand) => Writable(operand, keys)
    case CallOf(fn, gap, args) =>
      WordOk(fn, keys) && (Alias(fn) ==> gap == 0) && forall i :: 0 <= i < |args| ==> Writable(args[i], keys)
    case Odd(_) => true
    case Spaced(_, inner, _) => Writable(inner, keys)
    case Paren(inner) => Writable(inner, keys)
  }

  lemma WordsOkParts(a: seq<Token>, b: seq<Token>, keys: seq<string>)
    requires WordsOk(a + b, keys)
    ensures WordsOk(a, keys) && WordsOk(b, keys)
  {
    hide WordOk;
    forall i | 0 <= i < |a| && a[i].Word? ensures WordOk(a[i].text, keys) { assert (a + b)[i] == a[i]; }
    forall i | 0 <= i < |b| && b[i].Word? ensures WordOk(b[i].text, keys) { assert (a + b)[|a| + i] == b[i]; }
  }

  lemma WordsOkWrapped(ts: seq<Token>, keys: seq<string>)
    requires WordsOk(Wrapped(ts), keys)
    ensures WordsOk(ts, keys)
  {
    hide WordsOk;
    WordsOkParts([Mark('(')] + ts, [Mark(')')], keys);
    WordsOkParts([Mark('(')], ts, keys);
  }

  /** What holds of the words of a text holds of its names. */
  lemma {:induction false} WordsMakeWritable(t: Text, keys: seq<string>)
    requires WordsOk(Spell(t), keys) && NoPlaceholders(Tree(t), |keys|) && CallsTight(t)
    ensures Writable(t, keys)
  {
    hide WordsOk, WordOk, Wrapped, BinOpOf, UnOpOf;
    match t
    case Num(_, _) =>
    case Id(name) => OneWordOk(name, keys);
    case Infix(symbol, left, right) =>
      WordsOkParts(Spell(left), symbol + Spell(right), keys);
      WordsOkParts(symbol, Spell(right), keys);
      WordsMakeWritable(left, keys);
      WordsMakeWritable(right, keys);
    case Prefix(symbol, operand) =>
      WordsOkParts(symbol, Spell(operand), keys);
      WordsMakeWritable(operand, keys);
    case CallOf(fn, gap, args) =>
      WordsOkParts([Word(fn)], Blanks(gap) + Wrapped(SpellArgs(args)), keys);
      WordsOkParts(Blanks(gap), Wrapped(SpellArgs(args)), keys);
      OneWordOk(fn, keys);
      WordsOkWrapped(SpellArgs(args), keys);
      WordsMakeArgsWritable(args, keys);
    case Odd(_) =>
    case Spaced(before, inner, after) =>
      WordsOkParts(Blanks(before), Spell(inner) + Blanks(after), keys);
      WordsOkParts(Spell(inner), Blanks(after), keys);
      WordsMakeWritable(inner, keys);
    case Paren(inner) =>
      WordsOkWrapped(Spell(inner), keys);
      WordsMakeWritable(inner, keys);
  }

  lemma OneWordOk(w: string, keys: seq<string>)
    requires WordsOk([Word(w)], keys)
    ensures WordOk(w, keys)
  {
    assert [Word(w)][0].text == w;
  }

  lemma {:induction false} WordsMakeArgsWritable(args: seq<Text>, keys: seq<string>)
    requires WordsOk(SpellArgs(args), keys) && forall i :: 0 <= i < |args| ==> NoPlaceholders(Trees(args)[i], |keys|)
    requires forall i :: 0 <= i < |args| ==> CallsTight(args[i])
    ensures forall i :: 0 <= i < |args| ==> Writable(args[i], keys)
  {
    hide WordsOk;
    if args != [] {
      var rest := args[1..];
      assert Trees(args)[0] == Tree(args[0]) && Trees(args)[1..] == Trees(rest);
      if |args| > 1 {
        WordsOkParts(Spell(args[0]), [Mark(',')] + SpellArgs(rest), keys);
        WordsOkParts([Mark(',')], SpellArgs(rest), keys);
        forall i | 0 <= i < |rest| ensures NoPlaceholders(Trees(rest)[i], |keys|) {
          assert Trees(rest)[i] == Trees(args)[i + 1];
        }
        WordsMakeArgsWritable(rest, keys);
        forall i | 1 <= i < |args| ensures Writable(args[i], keys) {
          assert rest[i - 1] == args[i];
        }
      }
      WordsMakeWritable(args[0], keys);
    }
  }

  // ---------------------------------------------------------------- meaning

  /** The references of one calculation and their values, as _resolve_refs collects them. */
  ghost predicate RefsOk(keys: seq<string>, values: map<string, real>) {
    NoDup(keys) && values.Keys == Elems(keys) && forall k :: k in keys ==> RefChars(k) && HasColons(k)
  }

  function ValuesOf(keys: seq<string>, values: map<string, real>): map<string, real>
    requires forall k :: k in keys ==> k in values
  {
    PlaceholderValues(LongestFirst(keys), |LongestFirst(keys)|, values)
  }

  lemma OrderFacts(keys: seq<string>)
    requires NoDup(keys)
    ensures NoDup(LongestFirst(keys)) && |LongestFirst(keys)| == |keys|
  {
    LongestFirstSorts(keys);
    NoDupSameElems(keys, LongestFirst(keys));
    assert |multiset(keys)| == |multiset(LongestFirst(keys))|;
  }

  /** A reference and its placeholder have the same value. */
  lemma RefValue(keys: seq<string>, values: map<string, real>, id: string) returns (i: nat)
    requires RefsOk(keys, values) && id in keys
    ensures id in Names(keys) && Names(keys)[id] == Placeholder(i)
    ensures Placeholder(i) in ValuesOf(keys, values) && ValuesOf(keys, values)[Placeholder(i)] == values[id]
  {
    OrderFacts(keys);
    var order := LongestFirst(keys);
    assert id in order[..|order|];
    i := NamingIndex(order, |order|, id);
    PlaceholderValueAt(order, |order|, i, values);
  }

  lemma NotARef(keys: seq<string>, values: map<string, real>, id: string)
    requires RefsOk(keys, values) && id !in keys
    ensures id !in Names(keys)
    ensures !PlaceholderName(id, |keys|) ==> id !in ValuesOf(keys, values)
  {
    OrderFacts(keys);
    var order := LongestFirst(keys);
    assert order[..|order|] == order;
  }

  lemma NoColonsIn(s: string)
    requires forall i :: 0 <= i < |s| ==> s[i] != ':'
    ensures !HasColons(s)
  {
  }

  lemma LastChar(s: string, w: string)
    requires w != "" && EndsWith(s, w)
    ensures s[|s| - 1] == w[|w| - 1]
  {
    assert s[|s| - |w|..][|w| - 1] == s[|s| - 1];
  }

  /** After the renaming a call reaches the same function, or none as before, exactly
      unless it is a call of greatest or least with blanks before its parenthesis. */
  lemma CallReachesIff(keys: seq<string>, values: map<string, real>, fn: string, gap: nat)
    requires RefsOk(keys, values) && WordOk(fn, keys)
    ensures SafeFn(CalledFn(fn, gap, Names(keys))) == AuthorFn(fn) <==> (Alias(fn) ==> gap == 0)
  {
    hide SwapFn, Names, ValuesOf, Placeholder, HasColons;
    if fn in keys {
      var i := RefValue(keys, values, fn);
      PlaceholderCallsNothing(i);
      ColonsCallNothing(fn);
    } else {
      NotARef(keys, values, fn);
      SwapReaches(fn);
    }
  }

  lemma ColonsCallNothing(fn: string)
    requires HasColons(fn)
    ensures AuthorFn(fn) == None
  {
    NoColonsIn("greatest");
    NoColonsIn("least");
    NoColonsIn("max");
    NoColonsIn("min");
    NoColonsIn("round");
  }

  lemma PlaceholderCallsNothing(i: nat)
    ensures SafeFn(SwapFn(Placeholder(i))) == SafeFn(Placeholder(i)) == None
  {
    var p := Placeholder(i);
    assert p[|p| - 1] == p[2..][|p| - 3] && p[0] == p[..2][0];
    if EndsWith(p, "greatest") { LastChar(p, "greatest"); }
    if EndsWith(p, "least") { LastChar(p, "least"); }
    assert p[0] == '_' && "max"[0] == 'm' && "min"[0] == 'm' && "round"[0] == 'r';
  }

  lemma SwapReaches(fn: string)
    ensures SafeFn(SwapFn(fn)) == AuthorFn(fn)
  {
    var a := Swap(fn, "greatest", "max");
    if EndsWith(fn, "greatest") {
      var p := fn[..|fn| - 8];
      assert fn == p + "greatest" && a == p + "max";
      assert a[|a| - 1] == "max"[2];
      if EndsWith(a, "least") { LastChar(a, "least"); }
      SuffixOnly(p, "max");
      assert p == "" ==> fn == "greatest";
    } else if EndsWith(fn, "least") {
      var p := fn[..|fn| - 5];
      assert fn == p + "least" && SwapFn(fn) == p + "min";
      SuffixOnly(p, "min");
      assert p == "" ==> fn == "least";
      assert fn != "greatest";
    } else {
      assert EndsWith("greatest", "greatest") && EndsWith("least", "least");
    }
    assert !EndsWith("max", "greatest") && !EndsWith("round", "greatest");
  }

  /** A longer name that only ends in a known one is not known. */
  lemma SuffixOnly(p: string, w: string)
    requires w == "max" || w == "min"
    ensures SafeFn(p + w) == (if p == "" then SafeFn(w) else None)
  {
    var s := p + w;
    if p != "" {
      assert s[|s| - 1] == w[|w| - 1] && s[|s| - 2] == w[|w| - 2];
      if |s| == 5 { assert "round"[4] == 'd'; }
    } else {
      assert s == w;
    }
  }

  /** Evaluating the renamed expression under the placeholder values is evaluating the
      author's with references read directly, errors included. */
  lemma {:induction false} RenamedMeansSame(t: Text, keys: seq<string>, values: map<string, real>, power: Power)
    requires RefsOk(keys, values) && Writable(t, keys)
    ensures Eval(Tree(RenamedText(t, Names(keys))), ValuesOf(keys, values), SafeFn, power) == Eval(Tree(t), values, AuthorFn, power)
  {
    hide Names, ValuesOf, Rewrite, CalledFn, SafeFn, AuthorFn, Apply, ApplyBin, Placeholder, BinOpOf, UnOpOf;
    match t
    case Num(_, _) =>
    case Id(name) =>
      if name in keys {
        var i := RefValue(keys, values, name);
      } else {
        NotARef(keys, values, name);
      }
    case Infix(symbol, left, right) =>
      SymbolKept(symbol, Names(keys));
      RenamedMeansSame(left, keys, values, power);
      RenamedMeansSame(right, keys, values, power);
    case Prefix(symbol, operand) =>
      SymbolKept(symbol, Names(keys));
      RenamedMeansSame(operand, keys, values, power);
    case CallOf(fn, gap, args) =>
      CallReachesIff(keys, values, fn, gap);
      RenamedArgsMeanSame(args, keys, values, power);
    case Odd(_) =>
    case Spaced(_, inner, _) => RenamedMeansSame(inner, keys, values, power);
    case Paren(inner) => RenamedMeansSame(inner, keys, values, power);
  }

  lemma {:induction false} RenamedArgsMeanSame(args: seq<Text>, keys: seq<string>, values: map<string, real>, power: Power)
    requires RefsOk(keys, values) && forall i :: 0 <= i < |args| ==> Writable(args[i], keys)
    ensures EvalArgs(Trees(RenamedTexts(args, Names(keys))), ValuesOf(keys, values), SafeFn, power)
            == EvalArgs(Trees(args), values, AuthorFn, power)
  {
    if args != [] {
      RenamedMeansSame(args[0], keys, values, power);
      RenamedArgsMeanSame(args[1..], keys, values, power);
      assert RenamedTexts(args, Names(keys))[1..] == RenamedTexts(args[1..], Names(keys));
      assert Trees(args)[1..] == Trees(args[1..]);
    }
  }

  /** A call of greatest or least that has a value for its author keeps it exactly without
      blanks before the parenthesis; with blanks it is an unsupported function. */
  lemma AliasUnderstoodIff(fn: string, gap: nat, args: seq<Text>, keys: seq<string>, values: map<string, real>, power: Power)
    requires RefsOk(keys, values) && Alias(fn) && forall i :: 0 <= i < |args| ==> Writable(args[i], keys)
    requires Eval(Tree(CallOf(fn, gap, args)), values, AuthorFn, power).Ok?
    ensures var t := CallOf(fn, gap, args);
            Eval(Tree(RenamedText(t, Names(keys))), ValuesOf(keys, values), SafeFn, power)
            == if gap == 0 then Eval(Tree(t), values, AuthorFn, power) else Err(ValueError)
  {
    var t := CallOf(fn, gap, args);
    NoColonsIn("greatest");
    NoColonsIn("least");
    hide Names, ValuesOf, Rewrite, Apply, Placeholder, HasColons;
    if gap == 0 {
      RenamedMeansSame(t, keys, values, power);
    } else {
      NotARef(keys, values, fn);
    }
  }

  lemma TwoArguments(x: Text, y: Text, names: map<string, string>)
    ensures SpellArgs([x, y]) == Spell(x) + ([Mark(',')] + Spell(y)) && Trees([x, y]) == [Tree(x), Tree(y)]
    ensures RenamedTexts([x, y], names) == [RenamedText(x, names), RenamedText(y, names)]
  {
    assert [x, y][1..] == [y] && [y][1..] == [];
    assert SpellArgs([y]) == Spell(y) && Trees([y]) == [Tree(y)] && RenamedTexts([y], names) == [RenamedText(y, names)];
  }

  lemma RenderCons(t: Token, ts: seq<Token>)
    ensures Render([t] + ts) == (match t case Word(text) => text case Mark(c) => [c]) + Render(ts)
  {
    assert ([t] + ts)[1..] == ts;
  }

  lemma GreatestSpelled()
    ensures var args := [Word("1"), Mark(','), Word("2")];
            Render([Word("greatest")] + ([Mark(' ')] + Wrapped(args))) == "greatest (1,2)"
  {
    var end := [Mark(')')] + [];
    RenderCons(Mark(')'), []);
    RenderCons(Word("2"), end);
    RenderCons(Mark(','), [Word("2")] + end);
    RenderCons(Word("1"), [Mark(',')] + ([Word("2")] + end));
    var inner := [Word("1")] + ([Mark(',')] + ([Word("2")] + end));
    RenderCons(Mark('('), inner);
    RenderCons(Mark(' '), [Mark('(')] + inner);
    RenderCons(Word("greatest"), [Mark(' ')] + ([Mark('(')] + inner));
    assert Wrapped([Word("1"), Mark(','), Word("2")]) == [Mark('(')] + inner;
  }

  /** For instance "greatest (1,2)": two to its author, unsupported after the rewriting,
      which leaves it as it is. */
  lemma SpacedGreatestFails(power: Power) returns (t: Text)
    ensures Render(Spell(t)) == "greatest (1,2)" && TextOk(t) && RenamedText(t, map[]) == t
    ensures Eval(Tree(t), map[], AuthorFn, power) == Ok(2.0)
    ensures Eval(Tree(RenamedText(t, map[])), map[], SafeFn, power) == Err(ValueError)
  {
    var one, two := Num(1.0, [Word("1")]), Num(2.0, [Word("2")]);
    t := CallOf("greatest", 1, [one, two]);
    TwoArguments(one, two, map[]);
    TwoOfThem(power);
    GreatestSpelled();
    hide Render, Eval, SpellArgs, Trees, RenamedTexts, Wrapped;
    assert SpellArgs([one, two]) == [Word("1"), Mark(','), Word("2")];
    assert Blanks(1) == [Mark(' ')];
  }

  lemma TwoOfThem(power: Power)
    ensures var e := Call("greatest", [Const(1.0), Const(2.0)]);
            Eval(e, map[], AuthorFn, power) == Ok(2.0) && Eval(e, map[], SafeFn, power) == Err(ValueError)
  {
    var args := [Const(1.0), Const(2.0)];
    assert args[1..] == [Const(2.0)] && [Const(2.0)][1..] == [];
    assert EvalArgs([Const(2.0)], map[], AuthorFn, power) == Oks([2.0]);
    assert EvalArgs(args, map[], AuthorFn, power) == Oks([1.0, 2.0]);
    assert [1.0, 2.0][1..] == [2.0] && FoldMax([2.0]) == 2.0;
    assert Apply(FMax, [1.0, 2.0]) == Ok(2.0);
  }

  lemma NamesHaveColons(keys: seq<string>)
    requires NoDup(keys) && forall k :: k in keys ==> HasColons(k)
    ensures forall k :: k in Names(keys) ==> HasColons(k)
  {
    hide HasColons;
    OrderFacts(keys);
    var order := LongestFirst(keys);
    assert order[..|order|] == order;
  }

  lemma CoveredWords(s: string, keys: seq<string>)
    requires RefsCovered(keys, Tokens(s))
    ensures WordsOk(Tokens(s), keys)
  {
    var ts := Tokens(s);
    forall i | 0 <= i < |ts| && ts[i].Word? ensures WordOk(ts[i].text, keys) { assert TokenOk(ts[i]); }
  }

  /** Main result: however an expression is written (`t` is any reading of the text s,
      with whatever spaces and parentheses), the rewritten text is the renamed expression
      written the same way, with the same grouping. If calls of greatest and least are
      tight, its tree evaluates under the placeholder values to what the author's means
      with references read directly. */
  lemma {:induction false} RewritingPreservesMeaning(s: string, t: Text, keys: seq<string>, values: map<string, real>, power: Power)
    requires RefsOk(keys, values) && RefsCovered(keys, Tokens(s))
    requires Spell(t) == Tokens(s) && TextOk(t) && NoPlaceholders(Tree(t), |keys|)
    ensures forall k :: k in keys ==> k != ""
    ensures RewriteText(s, keys) == Render(Spell(RenamedText(t, Names(keys))))
    ensures Grammatical(RenamedText(t, Names(keys))) <==> Grammatical(t)
    ensures CallsTight(t) ==>
            Eval(Tree(RenamedText(t, Names(keys))), ValuesOf(keys, values), SafeFn, power)
            == Eval(Tree(t), values, AuthorFn, power)
  {
    assert forall k :: k in keys ==> k != "" by {
      forall k | k in keys ensures k != "" { ColonsNonEmpty(k); }
    }
    hide Spell, Tree, Eval, Grammatical, RenamedText, Rewrite, HasColons, TextOk, NoPlaceholders, CallsTight;
    TextRewriteIsTokenwise(s, keys);
    NamesHaveColons(keys);
    RewriteSpell(t, Names(keys));
    RenamedGrammatical(t, Names(keys));
    CoveredWords(s, keys);
    if CallsTight(t) {
      WordsMakeWritable(t, keys);
      RenamedMeansSame(t, keys, values, power);
    }
  }

  /** The condition on names is exact: a name that is no reference keeps its meaning under
      all values if and only if it is not one of the placeholders handed out. */
  lemma NameKeptIff(id: string, keys: seq<string>, power: Power)
    requires NoDup(keys) && (forall k :: k in keys ==> RefChars(k) && HasColons(k)) && id !in keys
    ensures !PlaceholderName(id, |keys|) <==>
            forall values :: RefsOk(keys, values) ==>
              Eval(Tree(RenamedText(Id(id), Names(keys))), ValuesOf(keys, values), SafeFn, power) == Eval(Name(id), values, AuthorFn, power)
  {
    hide HasColons, RefChars, ValuesOf, Names;
    if !PlaceholderName(id, |keys|) {
      forall values | RefsOk(keys, values)
        ensures Eval(Tree(RenamedText(Id(id), Names(keys))), ValuesOf(keys, values), SafeFn, power) == Eval(Name(id), values, AuthorFn, power)
      {
        NotARef(keys, values, id);
      }
    } else {
      var values := map k | k in keys :: 0.0;
      assert RefsOk(keys, values);
      NotARef(keys, values, id);
      PlaceholderHasValue(id, keys, values);
      assert Eval(Name(id), values, AuthorFn, power) == Err(ValueError);
    }
  }

  lemma PlaceholderHasValue(id: string, keys: seq<string>, values: map<string, real>)
    requires RefsOk(keys, values) && PlaceholderName(id, |keys|)
    ensures id in ValuesOf(keys, values)
  {
    var i: nat :| i < |keys| && Placeholder(i) == id;
    OrderFacts(keys);
    PlaceholderValueAt(LongestFirst(keys), |LongestFirst(keys)|, i, values);
  }

  /** For instance an author's own `_v0`: it is undefined, but after the rewriting it
      silently reads the first reference. */
  lemma PlaceholderNameLeaks(key: string, value: real, power: Power)
    requires RefChars(key) && HasColons(key)
    ensures var t, values := Id(Placeholder(0)), map[key := value];
            && Eval(Tree(t), values, AuthorFn, power) == Err(ValueError)
            && Eval(Tree(RenamedText(t, Names([key]))), ValuesOf([key], values), SafeFn, power) == Ok(value)
  {
    var keys, values := [key], map[key := value];
    var i := RefValue(keys, values, key);
    PlaceholderFacts(0);
    assert LongestFirst(keys) == [key] by { assert LongestFirst([]) == []; }
    PlaceholderValueAt([key], 1, 0, values);
    assert Placeholder(0) !in keys;
    NotARef(keys, values, Placeholder(0));
  }
}
