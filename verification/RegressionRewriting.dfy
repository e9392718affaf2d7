/** The generated formula through the calculator: its text is one the rewriting leaves in
    meaning, and a source that carries it stores the model's prediction. */
module RegressionRewriting {
  import opened Common
  import opened Observations
  import opened Rounding
  import opened CalcOrder
  import opened CalcText
  import opened CalcExpr
  import opened CalcPass
  import CalcReading
  import opened RegressionFormula

  // ---------------------------------------------------------------- a text the author could have typed

  /** Numbers are written as numerals: digits, points, an exponent with its sign. */
  ghost predicate WritesNumerals(num: Numerals) {
    forall c: real :: c >= 0.0 ==> Numerically(num.six(c)) && Numerically(num.four(c))
  }

  predicate Numerically(ts: seq<Token>) {
    WellFormed(ts) && Numeral(ts)
  }

  /** The written expression is one the author could have typed: numerals, references,
      Python's grouping, and no name the rewriting could mistake. */
  ghost predicate Sound(t: Text, keys: seq<string>) {
    Clean(Spell(t), keys) && TextOk(t) && NoPlaceholders(Tree(t), |keys|) && Grammatical(t) && CallsTight(t)
  }

  /** Well-formed tokens whose double-colon words are references. */
  ghost predicate Clean(ts: seq<Token>, keys: seq<string>) {
    WellFormed(ts) && forall i :: 0 <= i < |ts| && ts[i].Word? && HasColons(ts[i].text) ==> ts[i].text in keys
  }

  lemma CleanAppend(a: seq<Token>, b: seq<Token>, keys: seq<string>)
    requires Clean(a, keys) && Clean(b, keys)
    requires a == [] || b == [] || a[|a| - 1].Mark? || b[0].Mark?
    ensures Clean(a + b, keys)
  {
    hide HasColons, TokenOk;
    var s := a + b;
    forall i | 0 <= i < |s|
      ensures TokenOk(s[i]) && (i + 1 < |s| ==> s[i].Mark? || s[i + 1].Mark?)
      ensures s[i].Word? && HasColons(s[i].text) ==> s[i].text in keys
    {
      if i < |a| { assert s[i] == a[i]; } else { assert s[i] == b[i - |a|]; }
      if i + 1 < |a| { assert s[i + 1] == a[i + 1]; }
      if i >= |a| && i + 1 < |s| { assert s[i + 1] == b[i + 1 - |a|]; }
    }
  }

  lemma CleanNumeral(ts: seq<Token>, keys: seq<string>)
    requires Numerically(ts)
    ensures Clean(ts, keys)
  {
    forall i | 0 <= i < |ts| && ts[i].Word? ensures !HasColons(ts[i].text) { NoColonsIn(ts[i].text); }
  }

  lemma CleanMark(c: char, keys: seq<string>)
    requires !IsRefChar(c)
    ensures Clean([Mark(c)], keys)
  {
  }

  lemma CleanInfix(c: char, l: Text, r: Text, keys: seq<string>)
    requires Clean(Spell(l), keys) && Clean(Spell(r), keys) && !IsRefChar(c)
    ensures Clean(Spell(Infix([Mark(c)], l, r)), keys)
  {
    hide Clean;
    CleanMark(c, keys);
    CleanAppend([Mark(c)], Spell(r), keys);
    CleanAppend(Spell(l), [Mark(c)] + Spell(r), keys);
  }

  lemma CleanPrefix(c: char, t: Text, keys: seq<string>)
    requires Clean(Spell(t), keys) && !IsRefChar(c)
    ensures Clean(Spell(Prefix([Mark(c)], t)), keys)
  {
    hide Clean;
    CleanMark(c, keys);
    CleanAppend([Mark(c)], Spell(t), keys);
  }

  lemma CleanSpaced(t: Text, keys: seq<string>)
    requires Clean(Spell(t), keys)
    ensures Clean(Spell(Spaced(0, t, 1)), keys) && Clean(Spell(Spaced(1, t, 0)), keys)
  {
    hide Clean;
    assert Blanks(0) == [] && Blanks(1) == [Mark(' ')];
    CleanMark(' ', keys);
    CleanAppend(Spell(t), [Mark(' ')], keys);
    CleanAppend([Mark(' ')], Spell(t), keys);
    assert Spell(Spaced(0, t, 1)) == Spell(t) + [Mark(' ')];
    assert Spell(Spaced(1, t, 0)) == [Mark(' ')] + Spell(t);
  }

  /** Terms are sound and bind at least as tightly as products. */
  lemma SoundTerms(c: real, id: string, num: Numerals, keys: seq<string>)
    requires WritesNumerals(num) && RefChars(id) && HasColons(id) && id in keys
    ensures Sound(LinearText(c, id, num), keys) && Level(LinearText(c, id, num)) == 2
    ensures Sound(SquareText(c, id, num), keys) && Level(SquareText(c, id, num)) == 2
  {
    hide Sound, WritesNumerals, RefChars, HasColons;
    SoundNumber(c, num, keys);
    SoundTimes(NumberText(c, num), id, keys);
    SoundTimes(LinearText(c, id, num), id, keys);
  }

  lemma SoundNumber(c: real, num: Numerals, keys: seq<string>)
    requires WritesNumerals(num)
    ensures Sound(NumberText(c, num), keys) && Level(NumberText(c, num)) >= 3
  {
    hide Clean, Numeral;
    assert Numerically(num.six(Magnitude(c)));
    CleanNumeral(num.six(Magnitude(c)), keys);
    Symbols();
    if c < 0.0 {
      var k := Num(-c, num.six(-c));
      CleanPrefix('-', k, keys);
      assert Tree(k) == Const(-c) && Level(k) == 5 && TextOk(k) && Grammatical(k) && CallsTight(k);
      var t := NumberText(c, num);
      assert Tree(t) == Unary(Minus, Const(-c)) && NoPlaceholders(Tree(t), |keys|);
      assert TextOk(t) && Grammatical(t) && CallsTight(t) && Level(t) == 3;
    }
  }

  lemma SoundTimes(left: Text, id: string, keys: seq<string>)
    requires Sound(left, keys) && Level(left) >= 2 && RefChars(id) && HasColons(id) && id in keys
    ensures Sound(TimesText(left, id), keys) && Level(TimesText(left, id)) == 2
  {
    ColonsNonEmpty(id);
    assert Clean([Word(id)], keys);
    NotAPlaceholder(id, |keys|);
    Symbols();
    InfixTree('*', left, 1, Id(id), 1);
    var l, r := Spaced(0, left, 1), Spaced(1, Id(id), 0);
    assert Tree(Id(id)) == Name(id) && Level(r) == Level(Id(id)) == 5 && Level(l) == Level(left);
    assert TextOk(l) && TextOk(r) && Grammatical(l) && CallsTight(l) && Grammatical(r) && CallsTight(r);
    hide Clean, RefChars, HasColons, PlaceholderName;
    CleanSpaced(left, keys);
    CleanSpaced(Id(id), keys);
    CleanInfix('*', Spaced(0, left, 1), Spaced(1, Id(id), 0), keys);
    var t := TimesText(left, id);
    assert TextOk(t) && Level(t) == 2 && Grammatical(t) && CallsTight(t);
    assert NoPlaceholders(Name(id), |keys|) && NoPlaceholders(Tree(t), |keys|);
  }

  lemma NotAPlaceholder(id: string, n: nat)
    requires HasColons(id)
    ensures !PlaceholderName(id, n)
  {
    hide HasColons;
    forall i: nat | i < n ensures Placeholder(i) != id { PlaceholderFacts(i); }
  }

  /** All terms of a list are sound. */
  ghost predicate SoundProducts(terms: seq<Text>, keys: seq<string>) {
    forall i :: 0 <= i < |terms| ==> Sound(terms[i], keys) && Level(terms[i]) == 2
  }

  lemma {:induction false} SoundLinear(coefs: seq<real>, ids: seq<string>, k: nat, num: Numerals, keys: seq<string>)
    requires k <= |ids| < |coefs| && WritesNumerals(num) && forall i :: 0 <= i < |ids| ==> RefChars(ids[i]) && HasColons(ids[i]) && ids[i] in keys
    ensures SoundProducts(LinearTexts(coefs, ids, k, num), keys)
  {
    hide Sound, WritesNumerals, LinearText, RefChars, HasColons;
    if k > 0 {
      SoundLinear(coefs, ids, k - 1, num, keys);
      SoundTerms(coefs[k], ids[k - 1], num, keys);
    }
  }

  lemma {:induction false} SoundSquares(coefs: seq<real>, mask: seq<bool>, ids: seq<string>, k: nat, num: Numerals, keys: seq<string>)
    requires k <= |ids| == |mask| && |coefs| == 1 + |ids| + Count(mask, |mask|)
    requires WritesNumerals(num) && forall i :: 0 <= i < |ids| ==> RefChars(ids[i]) && HasColons(ids[i]) && ids[i] in keys
    ensures SoundProducts(SquareTexts(coefs, mask, ids, k, num), keys)
  {
    hide Sound, WritesNumerals, SquareText, RefChars, HasColons;
    if k > 0 {
      SoundSquares(coefs, mask, ids, k - 1, num, keys);
      CountMonotone(mask, k - 1, |mask|);
      if mask[k - 1] { SoundTerms(coefs[1 + |ids| + Count(mask, k - 1)], ids[k - 1], num, keys); }
    }
  }

  lemma {:induction false} SoundChain(terms: seq<Text>, keys: seq<string>)
    requires terms != [] && SoundProducts(terms, keys)
    ensures Sound(ChainText(terms), keys) && Level(ChainText(terms)) >= 1
  {
    if |terms| > 1 {
      var front, last := terms[..|terms| - 1], terms[|terms| - 1];
      SoundChain(front, keys);
      assert Sound(last, keys) && Level(last) == 2;
      Symbols();
      InfixTree('+', ChainText(front), 1, last, 1);
      var l, r := Spaced(0, ChainText(front), 1), Spaced(1, last, 0);
      assert Level(l) == Level(ChainText(front)) && Level(r) == Level(last);
      assert TextOk(l) && TextOk(r) && Grammatical(l) && CallsTight(l) && Grammatical(r) && CallsTight(r);
      hide Clean, SoundProducts;
      CleanSpaced(ChainText(front), keys);
      CleanSpaced(last, keys);
      CleanInfix('+', Spaced(0, ChainText(front), 1), Spaced(1, last, 0), keys);
    }
  }

  lemma SoundLast(c: real, num: Numerals, keys: seq<string>) returns (last: Text)
    requires WritesNumerals(num)
    ensures last == Num(Magnitude(c), num.four(Magnitude(c))) && Tree(last) == Const(Magnitude(c)) && Level(last) == 5
    ensures TextOk(last) && Grammatical(last) && CallsTight(last) && Clean(Spell(last), keys)
  {
    last := Num(Magnitude(c), num.four(Magnitude(c)));
    assert Numerically(num.four(Magnitude(c)));
    CleanNumeral(num.four(Magnitude(c)), keys);
  }

  lemma SoundIntercept(c: real, num: Numerals, keys: seq<string>)
    requires WritesNumerals(num)
    ensures Sound(InnerText([], c, num), keys)
  {
    var last := SoundLast(c, num, keys);
    var sign := if c < 0.0 then '-' else '+';
    Symbols();
    hide Clean, Numeral, WritesNumerals;
    var signed := Prefix([Mark(sign)], last);
    assert TextOk(signed) && Grammatical(signed) && CallsTight(signed);
    assert Tree(signed) == Unary(UnOpOf([Mark(sign)]), Const(Magnitude(c)));
    CleanPrefix(sign, last, keys);
    CleanSpaced(Prefix([Mark(sign)], last), keys);
    var t := InnerText([], c, num);
    assert Tree(t) == Tree(signed) && NoPlaceholders(Tree(t), |keys|);
    assert TextOk(t) && Grammatical(t) && CallsTight(t);
  }

  lemma SoundInner(terms: seq<Text>, c: real, num: Numerals, keys: seq<string>)
    requires SoundProducts(terms, keys) && WritesNumerals(num)
    ensures Sound(InnerText(terms, c, num), keys)
  {
    if terms == [] {
      SoundIntercept(c, num, keys);
    } else {
      var last := SoundLast(c, num, keys);
      var sign := if c < 0.0 then '-' else '+';
      Symbols();
      hide Clean, Numeral, SoundProducts, WritesNumerals;
      SoundChain(terms, keys);
      InfixTree(sign, ChainText(terms), 1, last, 0);
      var l := Spaced(0, ChainText(terms), 1);
      assert TextOk(l) && Grammatical(l) && CallsTight(l) && Level(l) == Level(ChainText(terms));
      CleanSpaced(ChainText(terms), keys);
      CleanInfix(sign, Spaced(0, ChainText(terms), 1), last, keys);
      var t := InnerText(terms, c, num);
      assert NoPlaceholders(Const(Magnitude(c)), |keys|) && NoPlaceholders(Tree(t), |keys|);
      assert TextOk(t) && Grammatical(t) && CallsTight(t);
    }
  }

  lemma CleanCall(fn: string, args: seq<Text>, keys: seq<string>)
    requires Clean(SpellArgs(args), keys) && RefChars(fn) && !HasColons(fn) && fn != ""
    ensures Clean(Spell(CallOf(fn, 0, args)), keys)
  {
    assert Clean([Word(fn)], keys);
    hide Clean;
    var inner := SpellArgs(args);
    CleanMark('(', keys);
    CleanMark(')', keys);
    CleanAppend([Mark('(')], inner, keys);
    CleanAppend([Mark('(')] + inner, [Mark(')')], keys);
    CleanAppend([Word(fn)], Wrapped(inner), keys);
    TightCall(fn, args);
  }

  lemma SoundClamped(clamp: string, inner: Text, keys: seq<string>)
    requires Sound(inner, keys) && RefChars(clamp) && !HasColons(clamp) && clamp != ""
    ensures Sound(ClampedText(clamp, inner), keys)
  {
    var zero, spaced := Num(0.0, [Word("0")]), Spaced(1, inner, 0);
    var args := [zero, spaced];
    var call := CallOf(clamp, 0, args);
    ClampedTree(clamp, inner);
    assert Numerically([Word("0")]);
    CleanNumeral([Word("0")], keys);
    NoColonsIn("round");
    hide Clean, Numeral, PlaceholderName, Tree;
    assert args[1..] == [spaced];
    CleanSpaced(inner, keys);
    CleanMark(',', keys);
    CleanAppend([Mark(',')], Spell(spaced), keys);
    CleanAppend(Spell(zero), [Mark(',')] + Spell(spaced), keys);
    CleanCall(clamp, args, keys);
    assert SpellArgs([call]) == Spell(call);
    CleanCall("round", [call], keys);
    assert TextOk(spaced) && TextOk(zero);
    assert forall i :: 0 <= i < |args| ==> TextOk(args[i]) && Grammatical(args[i]) && CallsTight(args[i]);
    assert TextOk(call) && Grammatical(call) && CallsTight(call);
    var t := ClampedText(clamp, inner);
    assert TextOk(t) && Grammatical(t) && CallsTight(t);
    NestedCall(clamp, Tree(inner), |keys|);
  }

  lemma NestedCall(clamp: string, e: Expr, n: nat)
    requires NoPlaceholders(e, n)
    ensures NoPlaceholders(Call("round", [Call(clamp, [Const(0.0), e])]), n)
  {
    var args := [Const(0.0), e];
    assert forall i :: 0 <= i < |args| ==> NoPlaceholders(args[i], n);
    assert NoPlaceholders(Call(clamp, args), n);
  }

  lemma SoundFormula(coefs: seq<real>, mask: seq<bool>, ids: seq<string>, num: Numerals, keys: seq<string>)
    requires |ids| == |mask| && |coefs| == 1 + |ids| + Count(mask, |mask|)
    requires WritesNumerals(num) && forall i :: 0 <= i < |ids| ==> RefChars(ids[i]) && HasColons(ids[i]) && ids[i] in keys
    ensures Sound(FormulaText(coefs, mask, ids, "greatest", num), keys)
  {
    hide Sound, WritesNumerals, HasColons, LinearTexts, SquareTexts, InnerText, ClampedText;
    SoundLinear(coefs, ids, |ids|, num, keys);
    SoundSquares(coefs, mask, ids, |ids|, num, keys);
    SoundInner(TermTexts(coefs, mask, ids, num), coefs[0], num, keys);
    NoColonsIn("greatest");
    SoundClamped("greatest", InnerText(TermTexts(coefs, mask, ids, num), coefs[0], num), keys);
  }

  // ---------------------------------------------------------------- the rewritten formula

  lemma MarkSymbol(c: char, names: map<string, string>)
    ensures Rewrite([Mark(c)], false, names) == [Mark(c)]
  {
  }

  function Replacing(ids: seq<string>, names: map<string, string>): (r: seq<string>)
    requires forall i :: 0 <= i < |ids| ==> ids[i] in names
    ensures |r| == |ids| && forall i :: 0 <= i < |r| ==> r[i] == names[ids[i]]
  {
    seq(|ids|, i requires 0 <= i < |ids| => names[ids[i]])
  }

  lemma RenamedTerms(c: real, id: string, num: Numerals, names: map<string, string>)
    requires id in names
    ensures RenamedText(LinearText(c, id, num), names) == LinearText(c, names[id], num)
    ensures RenamedText(SquareText(c, id, num), names) == SquareText(c, names[id], num)
  {
    hide Rewrite;
    var number := NumberText(c, num);
    MarkSymbol('-', names);
    if c < 0.0 { assert RenamedText(Num(-c, num.six(-c)), names) == Num(-c, num.six(-c)); }
    assert RenamedText(number, names) == number;
    RenamedTimes(number, id, names);
    RenamedTimes(LinearText(c, id, num), id, names);
  }

  lemma RenamedTimes(left: Text, id: string, names: map<string, string>)
    requires id in names
    ensures RenamedText(TimesText(left, id), names) == TimesText(RenamedText(left, names), names[id])
  {
    hide Rewrite;
    MarkSymbol('*', names);
    var l, r := Spaced(0, left, 1), Spaced(1, Id(id), 0);
    assert RenamedText(l, names) == Spaced(0, RenamedText(left, names), 1);
    assert RenamedText(r, names) == Spaced(1, RenamedText(Id(id), names), 0);
  }

  lemma {:induction false} RenamedLinear(coefs: seq<real>, ids: seq<string>, k: nat, num: Numerals, names: map<string, string>)
    requires k <= |ids| < |coefs| && forall i :: 0 <= i < |ids| ==> ids[i] in names
    ensures forall i :: 0 <= i < k ==>
              RenamedText(LinearTexts(coefs, ids, k, num)[i], names) == LinearTexts(coefs, Replacing(ids, names), k, num)[i]
  {
    hide RenamedText, LinearText;
    if k > 0 {
      RenamedLinear(coefs, ids, k - 1, num, names);
      RenamedTerms(coefs[k], ids[k - 1], num, names);
    }
  }

  lemma {:induction false} RenamedSquares(coefs: seq<real>, mask: seq<bool>, ids: seq<string>, k: nat, num: Numerals, names: map<string, string>)
    requires k <= |ids| == |mask| && |coefs| == 1 + |ids| + Count(mask, |mask|)
    requires forall i :: 0 <= i < |ids| ==> ids[i] in names
    ensures forall i :: 0 <= i < Count(mask, k) ==>
              RenamedText(SquareTexts(coefs, mask, ids, k, num)[i], names)
              == SquareTexts(coefs, mask, Replacing(ids, names), k, num)[i]
  {
    hide RenamedText, SquareText;
    if k > 0 {
      RenamedSquares(coefs, mask, ids, k - 1, num, names);
      CountMonotone(mask, k - 1, |mask|);
      if mask[k - 1] { RenamedTerms(coefs[1 + |ids| + Count(mask, k - 1)], ids[k - 1], num, names); }
    }
  }

  lemma {:induction false} RenamedChain(a: seq<Text>, b: seq<Text>, names: map<string, string>)
    requires a != [] && |a| == |b| && forall i :: 0 <= i < |a| ==> RenamedText(a[i], names) == b[i]
    ensures RenamedText(ChainText(a), names) == ChainText(b)
  {
    hide Rewrite;
    if |a| > 1 {
      RenamedChain(a[..|a| - 1], b[..|b| - 1], names);
      MarkSymbol('+', names);
    }
  }

  lemma RenamedInner(a: seq<Text>, b: seq<Text>, c: real, num: Numerals, names: map<string, string>)
    requires |a| == |b| && forall i :: 0 <= i < |a| ==> RenamedText(a[i], names) == b[i]
    ensures RenamedText(InnerText(a, c, num), names) == InnerText(b, c, num)
  {
    hide Rewrite;
    MarkSymbol('-', names);
    MarkSymbol('+', names);
    var last := Num(Magnitude(c), num.four(Magnitude(c)));
    assert RenamedText(last, names) == last;
    if a != [] {
      RenamedChain(a, b, names);
      assert RenamedText(Spaced(0, ChainText(a), 1), names) == Spaced(0, ChainText(b), 1);
    } else {
      assert RenamedText(Prefix(SignText(c), last), names) == Prefix(SignText(c), last);
    }
  }

  lemma FunctionNames(names: map<string, string>)
    requires forall k :: k in names ==> HasColons(k)
    ensures "round" !in names && "greatest" !in names && SwapFn("round") == "round" && SwapFn("greatest") == "max"
  {
    NoColonsIn("round");
    NoColonsIn("greatest");
    assert "round"[|"round"| - 5..] == "round" && "greatest"[0..] == "greatest";
    assert EndsWith("greatest", "greatest") && !EndsWith("max", "least");
    assert "greatest"[..0] + "max" == "max";
  }

  lemma ClampedIs(clamp: string, inner: Text)
    ensures ClampedText(clamp, inner)
            == CallOf("round", 0, [CallOf(clamp, 0, [Num(0.0, [Word("0")]), Spaced(1, inner, 0)])])
  {
  }

  lemma RenamedParts(numeral: seq<Token>, inner: Text, names: map<string, string>)
    ensures RenamedText(Num(0.0, numeral), names) == Num(0.0, numeral)
    ensures RenamedText(Spaced(1, inner, 0), names) == Spaced(1, RenamedText(inner, names), 0)
  {
    hide Rewrite, CalledFn;
  }

  lemma RenamedClamped(inner: Text, names: map<string, string>)
    requires forall k :: k in names ==> HasColons(k)
    ensures RenamedText(ClampedText("greatest", inner), names) == ClampedText("max", RenamedText(inner, names))
  {
    hide *;
    FunctionNames(names);
    var zero, spaced := Num(0.0, [Word("0")]), Spaced(1, inner, 0);
    RenamedParts([Word("0")], inner, names);
    TwoArguments(zero, spaced, names);
    var call := CallOf("greatest", 0, [zero, spaced]);
    RenamedCall("greatest", [zero, spaced], names);
    OneRenamed(call, names);
    RenamedCall("round", [call], names);
    ClampedIs("greatest", inner);
    ClampedIs("max", RenamedText(inner, names));
  }

  lemma RenamedCall(fn: string, args: seq<Text>, names: map<string, string>)
    requires fn !in names
    ensures RenamedText(CallOf(fn, 0, args), names) == CallOf(SwapFn(fn), 0, RenamedTexts(args, names))
  {
  }

  lemma OneRenamed(t: Text, names: map<string, string>)
    ensures RenamedTexts([t], names) == [RenamedText(t, names)]
  {
    assert [t][1..] == [];
  }

  /** The rewritten formula is the same formula over the placeholders, with max. */
  lemma RenamedFormula(coefs: seq<real>, mask: seq<bool>, ids: seq<string>, num: Numerals, names: map<string, string>)
    requires |ids| == |mask| && |coefs| == 1 + |ids| + Count(mask, |mask|)
    requires (forall i :: 0 <= i < |ids| ==> ids[i] in names) && forall k :: k in names ==> HasColons(k)
    ensures RenamedText(FormulaText(coefs, mask, ids, "greatest", num), names)
            == FormulaText(coefs, mask, Replacing(ids, names), "max", num)
  {
    hide RenamedText, LinearTexts, SquareTexts, InnerText, ClampedText, HasColons;
    RenamedLinear(coefs, ids, |ids|, num, names);
    RenamedSquares(coefs, mask, ids, |ids|, num, names);
    var a, b := TermTexts(coefs, mask, ids, num), TermTexts(coefs, mask, Replacing(ids, names), num);
    RenamedInner(a, b, coefs[0], num, names);
    RenamedClamped(InnerText(a, coefs[0], num), names);
  }

  lemma {:induction false} SoundMeans(t: Text, keys: seq<string>)
    requires Sound(t, keys) && NoDup(keys) && forall k :: k in keys ==> RefChars(k) && HasColons(k)
    ensures Tokens(Written(t)) == Spell(t) && RefsCovered(keys, Tokens(Written(t)))
    ensures TextOk(t) && NoPlaceholders(Tree(t), |keys|) && Grammatical(t) && CallsTight(t)
  {
    TokensUnique(Spell(t));
  }

  /** Through the calculator: the report's string is rewritten to the same formula over the
      placeholders, with max for greatest, and that one evaluates to the prediction. */
  lemma FormulaThroughCalculator(coefs: seq<real>, mask: seq<bool>, handles: seq<string>, num: Numerals,
                                 keys: seq<string>, values: map<string, real>, power: Power)
    requires |handles| == |mask| && |coefs| == 1 + |handles| + Count(mask, |mask|) && WritesNumerals(num)
    requires RefsOk(keys, values) && forall i :: 0 <= i < |handles| ==> RefChars(handles[i]) && Ref(handles[i]) in keys
    ensures forall k :: k in keys ==> k != ""
    ensures forall i :: 0 <= i < |handles| ==> RefsOf(handles)[i] in values && RefsOf(handles)[i] in Names(keys)
    ensures var ids := RefsOf(handles);
            var rewritten := FormulaText(coefs, mask, Replacing(ids, Names(keys)), "max", num);
            var yHat := Dot(DesignRow(ValuesAt(ids, values), mask), coefs);
            && RenamedText(FormulaText(coefs, mask, ids, "greatest", num), Names(keys)) == rewritten
            && RewriteText(Written(FormulaText(coefs, mask, ids, "greatest", num)), keys) == Written(rewritten)
            && Grammatical(rewritten)
            && Eval(Tree(rewritten), ValuesOf(keys, values), SafeFn, power) == Ok(RoundHalfEven(MaxReal(0.0, yHat)) as real)
  {
    var ids := RefsOf(handles);
    forall i | 0 <= i < |ids| ensures ids[i] in values && ids[i] in Names(keys) {
      assert ids[i] in keys && ids[i] in Elems(keys);
      var k := RefValue(keys, values, ids[i]);
    }
    hide Sound, FormulaText, Eval, Tree, Grammatical, RenamedText, Names, ValuesOf, HasColons, RefsCovered, Render, Spell;
    var t := FormulaText(coefs, mask, ids, "greatest", num);
    SoundFormula(coefs, mask, ids, num, keys);
    SoundMeans(t, keys);
    RewritingPreservesMeaning(Written(t), t, keys, values, power);
    NamesHaveColons(keys);
    RenamedFormula(coefs, mask, ids, num, Names(keys));
    FormulaIsModel(coefs, mask, ids, num, values, power);
  }

  // ---------------------------------------------------------------- as a calculated source

  /** The report's time expression: the references, one space apart. */
  function TimeText(handles: seq<string>): string {
    if handles == [] then "" else if |handles| == 1 then Ref(handles[0])
    else Ref(handles[0]) + " " + TimeText(handles[1..])
  }

  lemma {:induction false} WordsSplit(a: string, rest: string, word: string)
    requires Spaceless(a) && word + a != ""
    ensures Words(a + " " + rest, word) == [word + a] + Words(rest, "")
  {
    var s := a + " " + rest;
    if a == "" {
      assert s[0] == ' ' && s[1..] == rest && word + a == word;
    } else {
      assert s[0] == a[0] && s[1..] == a[1..] + " " + rest;
      WordsSplit(a[1..], rest, word + [a[0]]);
      assert word + a == (word + [a[0]]) + a[1..];
    }
  }

  /** It names exactly the references of the formula. */
  lemma {:induction false} TimeTextRefs(handles: seq<string>)
    requires forall i :: 0 <= i < |handles| ==> Spaceless(handles[i])
    ensures Refs(TimeText(handles)) == RefsOf(handles)
  {
    if handles != [] {
      var ref := Ref(handles[0]);
      assert Spaceless(ref);
      if |handles| == 1 {
        OneWord(ref, "");
        assert "" + ref == ref;
      } else {
        TimeTextRefs(handles[1..]);
        WordsSplit(ref, TimeText(handles[1..]), "");
        assert "" + ref == ref;
        assert RefsOf(handles) == [ref] + RefsOf(handles[1..]);
      }
    }
  }

  /** A reference of the formula names the flow of its gauge. */
  lemma RefNamesFlow(env: Env, handle: string, id: int, t: DataType)
    requires Colonless(handle)
    ensures ReadKey(env, Ref(handle)) == Some((id, t)) <==>
            handle in env.nameToGauge && env.nameToGauge[handle] == id && id != 0 && t == Flow
  {
    assert Ref(handle) == handle + "::" + "flow";
    assert Colonless("flow");
    hide ReadKey, Ref, Colonless;
    CalcReading.ReadKeyIff(env, "", handle, "flow", "", id, t);
  }

  lemma FormulaKeys(env: Env, gauges: map<(int, DataType), Latest>, handles: seq<string>)
    requires ResolveAll(env, gauges, RefsOf(handles)).Some?
    requires forall i :: 0 <= i < |handles| ==> RefChars(handles[i]) && Spaceless(handles[i])
    ensures var r := ResolveAll(env, gauges, RefsOf(handles)).value;
            RefsOk(r.keys, r.values) && forall i :: 0 <= i < |handles| ==> Ref(handles[i]) in r.keys
  {
    var ids := RefsOf(handles);
    var r := ResolveAll(env, gauges, ids).value;
    forall i | 0 <= i < |ids| ensures RefChars(ids[i]) { assert ids[i] == Ref(handles[i]); }
    forall i | 0 <= i < |handles| ensures Ref(handles[i]) in r.keys { assert ids[i] in ids && ids[i] in Elems(r.keys); }
    hide ResolveAll, RefsOk;
    ResolvedRefsOk(env, gauges, ids);
  }

  /** A source with the report's two expressions stores the model's prediction from the
      latest values of its references, if the parser reads the rewritten formula as it is
      grouped. */
  lemma FormulaOutcome(env: Env, gauges: map<(int, DataType), Latest>, s: Source,
                       coefs: seq<real>, mask: seq<bool>, handles: seq<string>, num: Numerals, r: Resolved, rewritten: Text)
    requires |handles| == |mask| && |coefs| == 1 + |handles| + Count(mask, |mask|) && WritesNumerals(num) && handles != []
    requires forall i :: 0 <= i < |handles| ==> RefChars(handles[i]) && Spaceless(handles[i])
    requires s.timeExpression == TimeText(handles)
    requires s.expression == Written(FormulaText(coefs, mask, RefsOf(handles), "greatest", num))
    requires ResolveAll(env, gauges, RefsOf(handles)) == Some(r)
    requires rewritten == RenamedText(FormulaText(coefs, mask, RefsOf(handles), "greatest", num), Names(r.keys))
    requires env.parse(Written(rewritten)) == Some(Tree(rewritten))
    ensures forall i :: 0 <= i < |handles| ==> RefsOf(handles)[i] in r.values
    ensures var yHat := Dot(DesignRow(ValuesAt(RefsOf(handles), r.values), mask), coefs);
            Outcome(env, gauges, s) == RowFor(env, s, RoundHalfEven(MaxReal(0.0, yHat)) as real, r.times)
  {
    hide *;
    FormulaKeys(env, gauges, handles);
    TimeTextRefs(handles);
    FormulaThroughCalculator(coefs, mask, handles, num, r.keys, r.values, env.power);
    OutcomeUnfolds(env, gauges, s, r);
  }
}
