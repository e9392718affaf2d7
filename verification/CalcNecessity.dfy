/** The conditions under which a pass of the calculator settles the store are exact: where
    one fails there are expressions and a store that a second pass changes. */
module CalcNecessity {
  import opened Common
  import opened Observations
  import opened CalcOrder
  import opened CalcText
  import opened CalcExpr
  import opened CalcPass
  import opened CalcFixpoint

  // ---------------------------------------------------------------- the statement

  /** Every reference of the source names a known gauge and type. */
  ghost predicate WellRead(env: Env, s: Source) {
    Refs(s.timeExpression) != [] && forall ref :: ref in Refs(s.timeExpression) ==> ReadKey(env, ref).Some?
  }

  /** One calculated source per entry; the two link tables agree; all references resolve to
      a gauge and a type. */
  ghost predicate Setting(env: Env, order: seq<Source>) {
    && Distinct(env, order)
    && (forall i :: 0 <= i < |order| && GaugeOf(env, order[i]) != 0 ==> (GaugeOf(env, order[i]), order[i].id) in env.linked)
    && (forall i :: 0 <= i < |order| ==> WellRead(env, order[i]))
  }

  /** The same sources with other expressions. */
  function WithTexts(order: seq<Source>, texts: seq<string>): (o: seq<Source>)
    requires |texts| == |order|
    ensures |o| == |order|
  {
    seq(|order|, i requires 0 <= i < |order| => order[i].(expression := texts[i]))
  }

  ghost predicate Idle(env: Env, db: Db, order: seq<Source>) {
    Pass(env, Pass(env, db, order, |order|), order, |order|) == Pass(env, db, order, |order|)
  }

  /** Whatever the sources compute, from whatever rows and caches, which need not match, a
      second pass changes nothing. */
  ghost predicate AlwaysSettles(env: Env, order: seq<Source>) {
    forall texts: seq<string>, db: Db :: |texts| == |order| ==> Idle(env, db, WithTexts(order, texts))
  }

  const ONE := Const(1.0)

  /** The tree that adds one to the m-th placeholder. */
  function PlusOne(m: nat): Expr {
    Bin(Add, Name(Placeholder(m)), ONE)
  }

  /** The parser reads three kinds of text as Python does: nothing, "1" and "_vN + 1". */
  ghost predicate ReadsAsPython(parse: string -> Option<Expr>) {
    && parse("") == None && parse("1") == Some(ONE)
    && forall m: nat :: parse(Placeholder(m) + " + 1") == Some(PlusOne(m))
  }

  // ---------------------------------------------------------------- sources that run and sources that do not

  ghost predicate Quiet(env: Env, s: Source) {
    s.expression == "" && env.parse("") == None
  }

  /** A text of at most one character is left as it is. */
  lemma {:induction false} ShortReplaced(s: string, order: seq<string>, n: nat)
    requires |s| <= 1 && n <= |order| && forall k :: k in order ==> |k| >= 2
    ensures Replaced(s, order, n) == s
  {
    if n > 0 {
      ShortReplaced(s, order, n - 1);
      assert order[n - 1] in order;
    }
  }

  lemma ShortRewrite(s: string, keys: seq<string>)
    requires |s| <= 1 && forall k :: k in keys ==> |k| >= 2
    ensures RewriteText(s, keys) == s
  {
    ShortReplaced(s, LongestFirst(keys), |LongestFirst(keys)|);
  }

  lemma {:induction false} KeysLong(env: Env, gauges: map<(int, DataType), Latest>, refs: seq<string>)
    requires ResolveAll(env, gauges, refs).Some?
    ensures forall k :: k in ResolveAll(env, gauges, refs).value.keys ==> |k| >= 2
  {
    ResolvedReads(env, gauges, refs);
    var keys := ResolveAll(env, gauges, refs).value.keys;
    forall k | k in keys ensures |k| >= 2 {
      assert k in Elems(keys) && k in refs;
      assert Readable(env, gauges, k);
      ReadHasColons(env, k);
    }
  }

  lemma QuietTurn(env: Env, db: Db, s: Source)
    requires Quiet(env, s)
    ensures Process(env, db, s) == db
  {
    if ResolveAll(env, db.gauges, Refs(s.timeExpression)).Some? {
      KeysLong(env, db.gauges, Refs(s.timeExpression));
      ShortRewrite("", ResolveAll(env, db.gauges, Refs(s.timeExpression)).value.keys);
    }
  }

  lemma {:induction false} QuietTurns(env: Env, db: Db, order: seq<Source>, a: nat, b: nat)
    requires a <= b <= |order| && forall k :: a <= k < b ==> Quiet(env, order[k])
    ensures Pass(env, db, order, b) == Pass(env, db, order, a)
    decreases b
  {
    hide Process, Quiet;
    if a < b {
      QuietTurns(env, db, order, a, b - 1);
      QuietTurn(env, Pass(env, db, order, b - 1), order[b - 1]);
    }
  }

  lemma OneRuns(env: Env, db: Db, order: seq<Source>, i: nat)
    requires i < |order| && forall k :: 0 <= k < |order| && k != i ==> Quiet(env, order[k])
    ensures Pass(env, db, order, |order|) == Process(env, db, order[i])
  {
    hide Process, Quiet;
    QuietTurns(env, db, order, 0, i);
    QuietTurns(env, db, order, i + 1, |order|);
  }

  lemma TwoRun(env: Env, db: Db, order: seq<Source>, i: nat, j: nat)
    requires i < j < |order| && forall k :: 0 <= k < |order| && k != i && k != j ==> Quiet(env, order[k])
    ensures Pass(env, db, order, |order|) == Process(env, Process(env, db, order[i]), order[j])
  {
    hide Process, Quiet;
    QuietTurns(env, db, order, 0, i);
    QuietTurns(env, db, order, i + 1, j);
    QuietTurns(env, db, order, j + 1, |order|);
  }

  /** The tree's value when the references are those the source resolves. */
  ghost predicate EvalsTo(env: Env, gauges: map<(int, DataType), Latest>, s: Source, tree: Expr, v: real) {
    var r := ResolveAll(env, gauges, Refs(s.timeExpression));
    r.Some? && (forall k :: k in r.value.keys ==> k in r.value.values)
    && Eval(tree, ValuesOf(r.value.keys, r.value.values), SafeFn, env.power) == Ok(v)
  }

  /** All entries read are there, the earliest of them at `stamp`. */
  ghost predicate ReadsFrom(env: Env, gauges: map<(int, DataType), Latest>, s: Source, stamp: int) {
    && (forall key :: key in ReadSet(env, s) ==> key in gauges && gauges[key].at >= stamp)
    && exists key :: key in ReadSet(env, s) && key in gauges && gauges[key].at == stamp
  }

  lemma Resolves(env: Env, gauges: map<(int, DataType), Latest>, s: Source, stamp: int)
    requires WellRead(env, s) && ReadsFrom(env, gauges, s, stamp)
    ensures var r := ResolveAll(env, gauges, Refs(s.timeExpression));
            r.Some? && r.value.times != [] && Earliest(r.value.times) == stamp
  {
    var refs := Refs(s.timeExpression);
    ResolvedReads(env, gauges, refs);
    hide Refs, ReadKey, ResolveAll;
    forall ref | ref in refs ensures Readable(env, gauges, ref) {
      assert ReadKey(env, ref).value in ReadSet(env, s);
    }
    var r := ResolveAll(env, gauges, refs).value;
    forall i | 0 <= i < |r.times| ensures r.times[i] >= stamp {
      assert HoldsRead(env, gauges, refs, r, i) && ReadKey(env, refs[i]).value in ReadSet(env, s);
    }
    var key :| key in ReadSet(env, s) && key in gauges && gauges[key].at == stamp;
    var ref :| ref in refs && ReadKey(env, ref) == Some(key);
    var m :| 0 <= m < |refs| && refs[m] == ref;
    assert HoldsRead(env, gauges, refs, r, m);
    assert r.times[m] in r.times;
    var e :| 0 <= e < |r.times| && r.times[e] == Earliest(r.times);
  }

  /** The tree of the source's rewritten text. */
  ghost predicate ParsesTo(env: Env, gauges: map<(int, DataType), Latest>, s: Source, tree: Expr) {
    var r := ResolveAll(env, gauges, Refs(s.timeExpression));
    r.Some? && (forall k :: k in r.value.keys ==> k != "") && env.parse(RewriteText(s.expression, r.value.keys)) == Some(tree)
  }

  /** What a running source stores. */
  lemma ActiveOutcome(env: Env, gauges: map<(int, DataType), Latest>, s: Source, tree: Expr, v: real, stamp: int)
    requires WellRead(env, s) && ReadsFrom(env, gauges, s, stamp) && stamp <= env.now && v >= 0.0
    requires ParsesTo(env, gauges, s, tree) && EvalsTo(env, gauges, s, tree, v)
    ensures Outcome(env, gauges, s) == Some((Key(s.id, s.dtype, stamp), v))
  {
    Resolves(env, gauges, s, stamp);
    var r := ResolveAll(env, gauges, Refs(s.timeExpression)).value;
    hide Refs, ResolveAll, Eval, ValuesOf, Earliest, RewriteText, ReadsFrom, WellRead, Outcome;
    OutcomeUnfolds(env, gauges, s, r);
  }

  lemma ConstParses(env: Env, gauges: map<(int, DataType), Latest>, s: Source)
    requires s.expression == "1" && env.parse("1") == Some(ONE) && ResolveAll(env, gauges, Refs(s.timeExpression)).Some?
    ensures ParsesTo(env, gauges, s, ONE)
  {
    KeysLong(env, gauges, Refs(s.timeExpression));
    hide ResolveAll, Refs, RewriteText;
    ShortRewrite("1", ResolveAll(env, gauges, Refs(s.timeExpression)).value.keys);
  }

  lemma ConstOutcome(env: Env, gauges: map<(int, DataType), Latest>, s: Source, stamp: int)
    requires WellRead(env, s) && ReadsFrom(env, gauges, s, stamp) && stamp <= env.now
    requires s.expression == "1" && env.parse("1") == Some(ONE)
    ensures Outcome(env, gauges, s) == Some((Key(s.id, s.dtype, stamp), 1.0))
  {
    Resolves(env, gauges, s, stamp);
    var r := ResolveAll(env, gauges, Refs(s.timeExpression)).value;
    assert forall k :: k in r.keys ==> k in Elems(r.keys);
    assert EvalsTo(env, gauges, s, ONE, 1.0) by { hide ValuesOf, ResolveAll, Refs; }
    ConstParses(env, gauges, s);
    ActiveOutcome(env, gauges, s, ONE, 1.0, stamp);
  }

  // ---------------------------------------------------------------- a source that reads what it writes

  lemma {:induction false} SameKeys(env: Env, a: map<(int, DataType), Latest>, b: map<(int, DataType), Latest>, refs: seq<string>)
    requires ResolveAll(env, a, refs).Some? && ResolveAll(env, b, refs).Some?
    ensures ResolveAll(env, a, refs).value.keys == ResolveAll(env, b, refs).value.keys
  {
    hide ReadKey;
    if refs != [] { SameKeys(env, a, b, refs[..|refs| - 1]); }
  }

  lemma PlusOneValue(keys: seq<string>, values: map<string, real>, m: nat, power: Power)
    requires (forall k :: k in keys ==> k in values) && m < |LongestFirst(keys)|
    ensures LongestFirst(keys)[m] in keys
    ensures Eval(PlusOne(m), ValuesOf(keys, values), SafeFn, power) == Ok(values[LongestFirst(keys)[m]] + 1.0)
  {
    var order := LongestFirst(keys);
    assert order[m] in order;
    PlaceholderValueAt(order, |order|, m, values);
    var vals, v := ValuesOf(keys, values), values[order[m]];
    assert Placeholder(m) in vals && vals[Placeholder(m)] == v;
    hide ValuesOf, Placeholder, LongestFirst;
    assert Eval(Name(Placeholder(m)), vals, SafeFn, power) == Ok(v);
    assert Eval(ONE, vals, SafeFn, power) == Ok(1.0);
  }

  lemma ValueRead(env: Env, gauges: map<(int, DataType), Latest>, refs: seq<string>, ref: string)
    requires ResolveAll(env, gauges, refs).Some? && ref in refs
    ensures Readable(env, gauges, ref)
    ensures var r := ResolveAll(env, gauges, refs).value;
            && (forall k :: k in r.keys ==> k in r.values)
            && ref in r.values && r.values[ref] == EntryRead(env, gauges, ref).value
  {
    ResolvedReads(env, gauges, refs);
    var r := ResolveAll(env, gauges, refs).value;
    hide ResolveAll, Readable, EntryRead;
    assert forall k :: k in r.keys ==> k in Elems(r.keys);
    var i :| 0 <= i < |refs| && refs[i] == ref;
    assert HoldsRead(env, gauges, refs, r, i);
  }

  lemma {:induction false} AbsentKept(s: string, was: string, now: string)
    requires was != "" && !Contains(s, was)
    ensures ReplaceAll(s, was, now) == s
  {
    if s != "" {
      assert was <= s ==> OccursAt(s, was, 0);
      forall i ensures OccursAt(s[1..], was, i) ==> OccursAt(s, was, i + 1) {
        assert 0 <= i <= |s[1..]| - |was| ==> s[1..][i..i + |was|] == s[i + 1..i + 1 + |was|];
      }
      AbsentKept(s[1..], was, now);
    }
  }

  lemma {:induction false} WordsSpaceless(s: string, word: string)
    requires Spaceless(word)
    ensures forall w :: w in Words(s, word) ==> Spaceless(w)
  {
    if s != "" {
      if IsSpace(s[0]) { WordsSpaceless(s[1..], ""); } else { WordsSpaceless(s[1..], word + [s[0]]); }
    }
  }

  /** References as a time expression yields them. */
  ghost predicate RefWord(k: string) {
    k != "" && Spaceless(k) && HasColons(k)
  }

  const PLUS := " + 1"

  /** No other reference at least as long is part of "ref + 1". */
  lemma NotAround(k: string, ref: string)
    requires RefWord(k) && Spaceless(ref) && |k| >= |ref| && k != ref
    ensures !Contains(ref + PLUS, k)
  {
    var t := ref + PLUS;
    var c :| ColonsAt(k, c);
    forall i ensures !OccursAt(t, k, i) {
      if 0 <= i <= |t| - |k| {
        var part := t[i..i + |k|];
        assert part[c] == t[i + c];
        if i + |k| <= |ref| {
          assert i == 0 && part == ref;
        } else if i <= |ref| {
          assert part[|ref| - i] == t[|ref|] == ' ';
        } else {
          assert t[i + c] == PLUS[i + c - |ref|];
        }
      }
    }
  }

  lemma MissingChar(s: string, part: string, i: nat)
    requires i < |part| && forall j :: 0 <= j < |s| ==> s[j] != part[i]
    ensures !Contains(s, part)
  {
    forall j ensures !OccursAt(s, part, j) {
      if 0 <= j <= |s| - |part| { assert s[j..j + |part|][i] == s[j + i]; }
    }
  }

  /** Nor is any reference part of "_vN + 1" or of " + 1". */
  lemma NotBehind(k: string, m: nat)
    requires RefWord(k)
    ensures !Contains(Placeholder(m) + PLUS, k) && !Contains(PLUS, k)
  {
    var c :| ColonsAt(k, c);
    PlainPlaceholder(m);
    hide Placeholder;
    MissingChar(Placeholder(m) + PLUS, k, c);
    MissingChar(PLUS, k, c);
  }

  lemma PlainPlaceholder(m: nat)
    ensures var t := Placeholder(m) + PLUS; forall i :: 0 <= i < |t| ==> t[i] != ':' && t[i] != '('
  {
    var p := Placeholder(m);
    PlaceholderFacts(m);
    assert p[0] == "_v"[0] && p[1] == "_v"[1];
    assert forall k :: 2 <= k < |p| ==> p[k] == Decimal.Digits(m)[k - 2];
  }

  /** The loop turns "ref + 1" into "_vm + 1" in the step of ref, the m-th. */
  lemma {:induction false} PlusReplaced(ref: string, order: seq<string>, m: nat, n: nat)
    requires m < |order| && n <= |order| && order[m] == ref && Descending(order) && NoDup(order)
    requires forall k :: k in order ==> RefWord(k)
    ensures forall k :: k in order ==> k != ""
    ensures Replaced(ref + PLUS, order, n) == (if n <= m then ref else Placeholder(m)) + PLUS
  {
    if n > 0 {
      hide RefWord, Contains, Placeholder;
      PlusReplaced(ref, order, m, n - 1);
      var k := order[n - 1];
      assert k in order && ref in order;
      assert k != "" && Spaceless(ref) by { RefWordParts(k); RefWordParts(ref); }
      if n - 1 < m {
        NotAround(k, ref);
        AbsentKept(ref + PLUS, k, Placeholder(n - 1));
      } else if n - 1 == m {
        NotBehind(k, m);
        AbsentKept(PLUS, k, Placeholder(m));
        assert (ref + PLUS)[|ref|..] == PLUS && ref <= ref + PLUS;
      } else {
        NotBehind(k, m);
        AbsentKept(Placeholder(m) + PLUS, k, Placeholder(n - 1));
      }
    }
  }

  lemma RefWordParts(k: string)
    requires RefWord(k)
    ensures k != "" && Spaceless(k)
  {
  }

  lemma PlusRewrite(keys: seq<string>, m: nat)
    requires NoDup(keys) && (forall k :: k in keys ==> RefWord(k)) && m < |LongestFirst(keys)|
    ensures forall k :: k in keys ==> k != ""
    ensures RewriteText(LongestFirst(keys)[m] + PLUS, keys) == Placeholder(m) + PLUS
  {
    var order := LongestFirst(keys);
    LongestFirstSorts(keys);
    NoDupSameElems(keys, order);
    assert forall k :: k in order ==> k in Elems(keys);
    PlusReplaced(order[m], order, m, |order|);
    NoParenthesis(m);
    hide Placeholder;
    AbsentKept(Placeholder(m) + PLUS, "greatest(", "max(");
    AbsentKept(Placeholder(m) + PLUS, "least(", "min(");
  }

  lemma NoParenthesis(m: nat)
    ensures !Contains(Placeholder(m) + PLUS, "greatest(") && !Contains(Placeholder(m) + PLUS, "least(")
  {
    PlainPlaceholder(m);
    hide Placeholder;
    MissingChar(Placeholder(m) + PLUS, "greatest(", 8);
    MissingChar(Placeholder(m) + PLUS, "least(", 5);
  }

  /** So a source "ref + 1" parses to its reference plus one. */
  lemma PlusParses(env: Env, gauges: map<(int, DataType), Latest>, s: Source, m: nat, ref: string)
    requires ReadsAsPython(env.parse) && s.expression == ref + PLUS && PlaceholderOf(env, gauges, s, m, ref)
    ensures ParsesTo(env, gauges, s, PlusOne(m))
  {
    var refs := Refs(s.timeExpression);
    var keys := ResolveAll(env, gauges, refs).value.keys;
    ResolvedReads(env, gauges, refs);
    WordsSpaceless(s.timeExpression, "");
    forall k | k in keys ensures RefWord(k) {
      assert k in Elems(keys) && k in refs && Readable(env, gauges, k);
      ReadHasColons(env, k);
      RefsNonEmpty(s.timeExpression);
    }
    hide Refs, ResolveAll, RewriteText, LongestFirst, RefWord, Placeholder;
    PlusRewrite(keys, m);
  }

  /** PlusOne reads the entry behind its reference. */
  lemma PlusOneEvals(env: Env, gauges: map<(int, DataType), Latest>, s: Source, m: nat, ref: string, v: real)
    requires ResolveAll(env, gauges, Refs(s.timeExpression)).Some? && ref in Refs(s.timeExpression)
    requires Readable(env, gauges, ref) && EntryRead(env, gauges, ref).value == v
    requires PlaceholderOf(env, gauges, s, m, ref)
    ensures EvalsTo(env, gauges, s, PlusOne(m), v + 1.0)
  {
    hide Refs, ResolveAll, LongestFirst, Readable, EntryRead, PlusOne, EvalsTo, ValuesOf, Eval;
    ValueRead(env, gauges, Refs(s.timeExpression), ref);
    var r := ResolveAll(env, gauges, Refs(s.timeExpression)).value;
    PlusOneValue(r.keys, r.values, m, env.power);
    EvalsToIs(env, gauges, s, PlusOne(m), v + 1.0, r);
  }

  lemma EvalsToIs(env: Env, gauges: map<(int, DataType), Latest>, s: Source, tree: Expr, v: real, r: Resolved)
    requires ResolveAll(env, gauges, Refs(s.timeExpression)) == Some(r) && forall k :: k in r.keys ==> k in r.values
    requires Eval(tree, ValuesOf(r.keys, r.values), SafeFn, env.power) == Ok(v)
    ensures EvalsTo(env, gauges, s, tree, v)
  {
  }

  /** The reference is the m-th, longest first, of those the source resolves. */
  ghost predicate PlaceholderOf(env: Env, gauges: map<(int, DataType), Latest>, s: Source, m: nat, ref: string) {
    var r := ResolveAll(env, gauges, Refs(s.timeExpression));
    r.Some? && m < |LongestFirst(r.value.keys)| && LongestFirst(r.value.keys)[m] == ref
  }

  /** A lone row in the window is what its entry shows. */
  lemma LoneRow(env: Env, db: Db, u: Source, k: Key, v: real)
    requires db.obs == map[k := v] && Feeds(env, u, u) && k.source == u.id && k.dtype == u.dtype && k.at >= Since(env)
    ensures Shown(env, db, u) == Some(Latest(u.id, k.at, v, None, None))
  {
    IsGaugeRow(env, db.obs, u, k);
    var rows := GaugeRows(env, db.obs, u);
    assert rows == map[k := v] by {
      forall l ensures l in rows ==> l == k { IsGaugeRow(env, db.obs, u, l); }
    }
    hide GaugeRows;
    assert k in rows.Keys;
    assert Newest(rows.Keys) == k;
  }

  /** Where to read own entry: a store with just the entries the source reads, all now and
      all zero. */
  function ZeroStore(env: Env, keys: set<(int, DataType)>): Db {
    Db(map[], map[], map key | key in keys :: Latest(0, env.now, 0.0, None, None))
  }

  /** The store in which the source's own entry stands at v. */
  ghost predicate StandsAt(env: Env, db: Db, s: Source, v: real) {
    && ReadsFrom(env, db.gauges, s, env.now)
    && OwnKey(env, s) in db.gauges && db.gauges[OwnKey(env, s)].value == v
    && db.obs.Keys <= {Key(s.id, s.dtype, env.now)}
  }

  /** One more turn adds one more. */
  lemma DriftTurn(env: Env, db: Db, s: Source, m: nat, ref: string, v: real)
    requires WellRead(env, s) && StandsAt(env, db, s, v) && v >= 0.0 && Feeds(env, s, s)
    requires ref in Refs(s.timeExpression) && ReadKey(env, ref) == Some(OwnKey(env, s))
    requires s.expression == ref + PLUS && ReadsAsPython(env.parse) && PlaceholderOf(env, db.gauges, s, m, ref)
    ensures var next := Process(env, db, s);
            && next.obs == map[Key(s.id, s.dtype, env.now) := v + 1.0]
            && StandsAt(env, next, s, v + 1.0) && PlaceholderOf(env, next.gauges, s, m, ref)
  {
    hide *;
    DriftOutcome(env, db, s, m, ref, v);
    StandsParts(env, db, s, v);
    StoredAlone(env, db, s, v + 1.0);
    var next := Process(env, db, s);
    StillReads(env, db, next, s, ref);
    PlaceholderStays(env, db, next, s, m, ref);
    StandsIs(env, next, s, v + 1.0);
  }

  lemma StandsParts(env: Env, db: Db, s: Source, v: real)
    requires StandsAt(env, db, s, v)
    ensures ReadsFrom(env, db.gauges, s, env.now) && db.obs.Keys <= {Key(s.id, s.dtype, env.now)}
  {
  }

  lemma StandsIs(env: Env, db: Db, s: Source, v: real)
    requires ReadsFrom(env, db.gauges, s, env.now) && db.obs == map[Key(s.id, s.dtype, env.now) := v]
    requires Lookup(db.gauges, OwnKey(env, s)) == Some(Latest(s.id, env.now, v, None, None))
    ensures StandsAt(env, db, s, v)
  {
    hide ReadsFrom;
  }

  lemma OverwriteOnly(obs: map<Key, real>, k: Key, v: real)
    requires obs.Keys <= {k}
    ensures obs[k := v] == map[k := v]
  {
  }

  lemma FedHasGauge(env: Env, s: Source)
    requires Feeds(env, s, s)
    ensures GaugeOf(env, s) != 0 && forall key :: key != OwnKey(env, s) ==> !Writes(env, s, key)
  {
  }

  /** A turn that stores the only row. */
  lemma StoredAlone(env: Env, db: Db, s: Source, v: real)
    requires Outcome(env, db.gauges, s) == Some((Key(s.id, s.dtype, env.now), v)) && Feeds(env, s, s)
    requires db.obs.Keys <= {Key(s.id, s.dtype, env.now)}
    ensures var next := Process(env, db, s);
            && next.obs == map[Key(s.id, s.dtype, env.now) := v]
            && Lookup(next.gauges, OwnKey(env, s)) == Some(Latest(s.id, env.now, v, None, None))
            && forall key :: key != OwnKey(env, s) ==> Lookup(next.gauges, key) == Lookup(db.gauges, key)
  {
    TurnRefreshes(env, db, s);
    TurnLeaves(env, db, s);
    hide Outcome, Process, Shown, Feeds, Rollup, Select;
    var next := Process(env, db, s);
    OverwriteOnly(db.obs, Key(s.id, s.dtype, env.now), v);
    FedHasGauge(env, s);
    LoneRow(env, next, s, Key(s.id, s.dtype, env.now), v);
  }

  lemma DriftOutcome(env: Env, db: Db, s: Source, m: nat, ref: string, v: real)
    requires WellRead(env, s) && StandsAt(env, db, s, v) && v >= 0.0
    requires ref in Refs(s.timeExpression) && ReadKey(env, ref) == Some(OwnKey(env, s))
    requires s.expression == ref + PLUS && ReadsAsPython(env.parse) && PlaceholderOf(env, db.gauges, s, m, ref)
    ensures Outcome(env, db.gauges, s) == Some((Key(s.id, s.dtype, env.now), v + 1.0))
  {
    assert Readable(env, db.gauges, ref) && EntryRead(env, db.gauges, ref).value == v;
    assert ResolveAll(env, db.gauges, Refs(s.timeExpression)).Some?;
    hide Refs, ResolveAll, Outcome, PlusOne, WellRead, Readable, EntryRead, ReadsFrom, PlaceholderOf, EvalsTo, ParsesTo, ReadsAsPython;
    PlusParses(env, db.gauges, s, m, ref);
    PlusOneEvals(env, db.gauges, s, m, ref, v);
    ActiveOutcome(env, db.gauges, s, PlusOne(m), v + 1.0, env.now);
  }

  lemma PlaceholderStays(env: Env, db: Db, next: Db, s: Source, m: nat, ref: string)
    requires WellRead(env, s) && ReadsFrom(env, db.gauges, s, env.now) && ReadsFrom(env, next.gauges, s, env.now)
    requires PlaceholderOf(env, db.gauges, s, m, ref)
    ensures PlaceholderOf(env, next.gauges, s, m, ref)
  {
    hide Refs, ResolveAll, WellRead, ReadsFrom, LongestFirst, Earliest;
    Resolves(env, db.gauges, s, env.now);
    Resolves(env, next.gauges, s, env.now);
    SameKeys(env, db.gauges, next.gauges, Refs(s.timeExpression));
  }

  lemma StillReads(env: Env, db: Db, next: Db, s: Source, ref: string)
    requires ReadsFrom(env, db.gauges, s, env.now)
    requires ref in Refs(s.timeExpression) && ReadKey(env, ref) == Some(OwnKey(env, s))
    requires forall key :: key != OwnKey(env, s) ==> Lookup(next.gauges, key) == Lookup(db.gauges, key)
    requires Lookup(next.gauges, OwnKey(env, s)).Some? && Lookup(next.gauges, OwnKey(env, s)).value.at == env.now
    ensures ReadsFrom(env, next.gauges, s, env.now)
  {
    ReadSetHas(env, s, ref);
    hide ReadSet, Refs;
    forall key | key in ReadSet(env, s) ensures key in next.gauges && next.gauges[key].at >= env.now {
      if key != OwnKey(env, s) { assert Lookup(next.gauges, key) == Lookup(db.gauges, key); }
    }
  }

  lemma ReadSetHas(env: Env, s: Source, ref: string)
    requires ref in Refs(s.timeExpression) && ReadKey(env, ref).Some?
    ensures ReadKey(env, ref).value in ReadSet(env, s)
  {
  }

  /** Texts that let only the sources at the given positions run. */
  function Only(n: nat, i: nat, j: nat, text: string): (texts: seq<string>)
    ensures |texts| == n && forall k :: 0 <= k < n ==> texts[k] == if k == i || k == j then text else ""
  {
    seq(n, k => if k == i || k == j then text else "")
  }

  /** Everything but the expression is as before. */
  lemma SameStructure(env: Env, s: Source, text: string)
    ensures var s2 := s.(expression := text);
            && GaugeOf(env, s2) == GaugeOf(env, s) && OwnKey(env, s2) == OwnKey(env, s)
            && ReadSet(env, s2) == ReadSet(env, s) && (WellRead(env, s2) <==> WellRead(env, s))
  {
  }

  lemma AllQuiet(env: Env, order: seq<Source>, i: nat, j: nat, text: string)
    requires env.parse("") == None
    ensures var order2 := WithTexts(order, Only(|order|, i, j, text));
            && (forall k :: 0 <= k < |order| && k != i && k != j ==> Quiet(env, order2[k]))
            && (i < |order| ==> order2[i] == order[i].(expression := text))
            && (j < |order| ==> order2[j] == order[j].(expression := text))
  {
  }

  lemma NotAlways(env: Env, order: seq<Source>, texts: seq<string>, db: Db)
    requires |texts| == |order| && !Idle(env, db, WithTexts(order, texts))
    ensures !AlwaysSettles(env, order)
  {
    hide Idle, WithTexts;
  }

  lemma SelfReadRuns(env: Env, db: Db, order: seq<Source>, i: nat, m: nat, ref: string)
    requires i < |order| && forall k :: 0 <= k < |order| && k != i ==> Quiet(env, order[k])
    requires WellRead(env, order[i]) && StandsAt(env, db, order[i], 0.0) && Feeds(env, order[i], order[i])
    requires ref in Refs(order[i].timeExpression) && ReadKey(env, ref) == Some(OwnKey(env, order[i]))
    requires order[i].expression == ref + PLUS && ReadsAsPython(env.parse) && PlaceholderOf(env, db.gauges, order[i], m, ref)
    ensures !Idle(env, db, order)
  {
    var s := order[i];
    hide Refs, Process, StandsAt, PlaceholderOf, WellRead, ReadKey, Quiet, ReadsAsPython, Feeds, Pass;
    DriftTurn(env, db, s, m, ref, 0.0);
    var one := Process(env, db, s);
    DriftTurn(env, one, s, m, ref, 1.0);
    OneRuns(env, db, order, i);
    OneRuns(env, one, order, i);
    var k := Key(s.id, s.dtype, env.now);
    assert one.obs[k] == 1.0 && Process(env, one, s).obs[k] == 2.0;
  }

  /** A source that reads what it writes: with an expression that adds one to what it reads,
      each pass stores one more than the pass before. */
  lemma SelfReadUnsettled(env: Env, order: seq<Source>, i: nat)
    requires Setting(env, order) && ReadsAsPython(env.parse) && i < |order|
    requires GaugeOf(env, order[i]) != 0 && OwnKey(env, order[i]) in ReadSet(env, order[i])
    ensures !AlwaysSettles(env, order)
  {
    var s := order[i];
    var ref :| ref in Refs(s.timeExpression) && ReadKey(env, ref) == Some(OwnKey(env, s));
    assert WellRead(env, s) && Feeds(env, s, s);
    var db := ZeroStore(env, ReadSet(env, s));
    assert OwnKey(env, s) in db.gauges;
    hide Refs, ReadSet, WellRead, ReadKey, Distinct, ResolveAll, ReadsFrom, ReadsAsPython;
    ZeroStoreReads(env, s, ref);
    Resolves(env, db.gauges, s, env.now);
    var m := IndexOfRef(env, db.gauges, s, ref);
    SelfReadMoved(env, order, i, db, m, ref);
  }

  lemma SelfReadMoved(env: Env, order: seq<Source>, i: nat, db: Db, m: nat, ref: string)
    requires i < |order| && WellRead(env, order[i]) && Feeds(env, order[i], order[i]) && ReadsAsPython(env.parse)
    requires ref in Refs(order[i].timeExpression) && ReadKey(env, ref) == Some(OwnKey(env, order[i]))
    requires StandsAt(env, db, order[i], 0.0) && PlaceholderOf(env, db.gauges, order[i], m, ref)
    ensures !AlwaysSettles(env, order)
  {
    var s := order[i];
    var texts := Only(|order|, i, i, ref + PLUS);
    AllQuiet(env, order, i, i, ref + PLUS);
    SameStructure(env, s, ref + PLUS);
    StandsStill(env, db, s, 0.0, ref + PLUS);
    hide Refs, ReadSet, WellRead, ReadKey, Idle, ResolveAll, ReadsFrom, StandsAt, Only, WithTexts, Quiet, LongestFirst, ReadsAsPython;
    SelfReadRuns(env, db, WithTexts(order, texts), i, m, ref);
    NotAlways(env, order, texts, db);
  }

  lemma StandsStill(env: Env, db: Db, s: Source, v: real, text: string)
    requires StandsAt(env, db, s, v)
    ensures StandsAt(env, db, s.(expression := text), v)
  {
    SameStructure(env, s, text);
    hide ReadSet;
  }

  lemma ZeroStoreReads(env: Env, s: Source, ref: string)
    requires ref in Refs(s.timeExpression) && ReadKey(env, ref).Some?
    ensures ReadsFrom(env, ZeroStore(env, ReadSet(env, s)).gauges, s, env.now)
  {
    ReadSetHas(env, s, ref);
    hide ReadSet, ReadKey, Refs;
    assert ReadKey(env, ref).value in ZeroStore(env, ReadSet(env, s)).gauges;
  }

  lemma IndexOfRef(env: Env, gauges: map<(int, DataType), Latest>, s: Source, ref: string) returns (m: nat)
    requires ResolveAll(env, gauges, Refs(s.timeExpression)).Some? && ref in Refs(s.timeExpression)
    ensures PlaceholderOf(env, gauges, s, m, ref)
  {
    hide Refs;
    var keys := ResolveAll(env, gauges, Refs(s.timeExpression)).value.keys;
    assert ref in Elems(keys) && ref in keys;
    assert ref in LongestFirst(keys);
    m :| m < |LongestFirst(keys)| && LongestFirst(keys)[m] == ref;
  }

  // ---------------------------------------------------------------- a source that reads what a later one writes

  /** Entries for the given keys, each at its time and of value one. */
  function StoreOf(keys: set<(int, DataType)>, times: ((int, DataType)) -> int, obs: map<Key, real>): Db {
    Db(obs, map[], map key | key in keys :: Latest(0, times(key), 1.0, None, None))
  }

  lemma ReadAheadRuns(env: Env, db: Db, order: seq<Source>, i: nat, j: nat)
    requires i < j < |order| && order[i].id != order[j].id
    requires forall k :: 0 <= k < |order| && k != i && k != j ==> Quiet(env, order[k])
    requires WellRead(env, order[i]) && WellRead(env, order[j]) && Feeds(env, order[j], order[j])
    requires order[i].expression == order[j].expression == "1" && env.parse("1") == Some(ONE)
    requires OwnKey(env, order[j]) in ReadSet(env, order[i]) && OwnKey(env, order[j]) !in db.gauges && db.obs == map[]
    requires forall k :: k in ReadSet(env, order[i]) && k != OwnKey(env, order[j]) ==> k in db.gauges && db.gauges[k].at == env.now
    requires forall k :: k in ReadSet(env, order[j]) ==> k in db.gauges && db.gauges[k].at == env.now
    ensures !Idle(env, db, order)
  {
    var u, s := order[i], order[j];
    hide Process, Outcome, ReadSet, Quiet, WellRead, Refs, Pass, Feeds, Shown;
    MissingEntry(env, db, u, OwnKey(env, s));
    NothingStored(env, db, u);
    SomeRead(env, s);
    ConstOutcome(env, db.gauges, s, env.now);
    StoredAlone(env, db, s, 1.0);
    var one := Process(env, db, s);
    TwoRun(env, db, order, i, j);
    ReadsOneMore(env, db, one, u, OwnKey(env, s));
    ConstOutcome(env, one.gauges, u, env.now);
    TurnRefreshes(env, one, u);
    TurnLeaves(env, Process(env, one, u), s);
    TwoRun(env, one, order, i, j);
    var k := Key(u.id, u.dtype, env.now);
    assert k !in one.obs && k in Process(env, Process(env, one, u), s).obs;
  }

  lemma ReadsOneMore(env: Env, db: Db, one: Db, u: Source, key: (int, DataType))
    requires key in ReadSet(env, u) && Lookup(one.gauges, key).Some? && Lookup(one.gauges, key).value.at == env.now
    requires forall k :: k in ReadSet(env, u) && k != key ==> k in db.gauges && db.gauges[k].at == env.now
    requires forall k :: k != key ==> Lookup(one.gauges, k) == Lookup(db.gauges, k)
    ensures ReadsFrom(env, one.gauges, u, env.now)
  {
    hide ReadSet;
    forall k | k in ReadSet(env, u) ensures k in one.gauges && one.gauges[k].at >= env.now {
      if k != key { assert Lookup(one.gauges, k) == Lookup(db.gauges, k); }
    }
  }

  /** Reading ahead: i waits for the entry j writes after it, so i runs only in the second
      pass. */
  lemma ReadAheadUnsettled(env: Env, order: seq<Source>, i: nat, j: nat)
    requires Setting(env, order) && ReadsAsPython(env.parse) && i < j < |order|
    requires GaugeOf(env, order[j]) != 0 && OwnKey(env, order[j]) in ReadSet(env, order[i])
    requires OwnKey(env, order[j]) !in ReadSet(env, order[j])
    ensures !AlwaysSettles(env, order)
  {
    var texts := Only(|order|, i, j, "1");
    var order2 := WithTexts(order, texts);
    var key := OwnKey(env, order[j]);
    var keys := ReadSet(env, order[i]) + ReadSet(env, order[j]) - {key};
    var db := StoreOf(keys, _ => env.now, map[]);
    AllQuiet(env, order, i, j, "1");
    SameStructure(env, order[i], "1");
    SameStructure(env, order[j], "1");
    hide Refs, ReadSet, WellRead, Idle, Only, WithTexts, Quiet;
    ReadAheadRuns(env, db, order2, i, j);
    NotAlways(env, order, texts, db);
  }

  lemma MissingEntry(env: Env, db: Db, u: Source, key: (int, DataType))
    requires key in ReadSet(env, u) && key !in db.gauges
    ensures Outcome(env, db.gauges, u) == None
  {
    StampIs(env, db.gauges, u);
  }

  lemma NothingStored(env: Env, db: Db, u: Source)
    requires Outcome(env, db.gauges, u) == None
    ensures Process(env, db, u) == db
  {
    hide Outcome;
  }

  lemma SomeRead(env: Env, s: Source)
    requires WellRead(env, s)
    ensures exists key :: key in ReadSet(env, s)
  {
    ReadSetHas(env, s, Refs(s.timeExpression)[0]);
  }

  // ---------------------------------------------------------------- an entry in which a later source shows

  /** Two rows in the window: the newer one is shown, the other one only as the previous
      row six hours back. */
  lemma TwoRows(env: Env, db: Db, u: Source, k: Key, v: real, l: Key, w: real)
    requires db.obs == map[k := v, l := w] && k != l && NotNewer(l, k)
    requires (GaugeOf(env, u), k.source) in env.linked && k.dtype == u.dtype && k.at >= Since(env)
    requires (GaugeOf(env, u), l.source) in env.linked && l.dtype == u.dtype && l.at >= Since(env)
    ensures var shown := Shown(env, db, u);
            && shown.Some? && shown.value.source == k.source && shown.value.at == k.at && shown.value.value == v
            && (shown.value.prev.Some? <==> l.at <= k.at - LOOKBACK)
  {
    var rows := GaugeRows(env, db.obs, u);
    assert rows == map[k := v, l := w] by {
      forall m ensures m in rows <==> m == k || m == l { IsGaugeRow(env, db.obs, u, m); }
      IsGaugeRow(env, db.obs, u, k);
      IsGaugeRow(env, db.obs, u, l);
    }
    hide GaugeRows;
    assert rows.Keys == {k, l};
    assert IsNewest(k, rows.Keys) && OneType(rows.Keys);
    NewestIs(rows.Keys, k);
    var n := Newest(rows.Keys);
    var older := set o | o in rows.Keys && o.at <= n.at - LOOKBACK;
    if l.at <= k.at - LOOKBACK { assert l in older; } else { assert older == {}; }
  }

  /** If u's entry would show something else after s's turn, the second pass changes it. */
  lemma FeedSeen(env: Env, db: Db, order: seq<Source>, i: nat, j: nat, ku: Key, ks: Key)
    requires i < j < |order| && order[i].id != order[j].id
    requires forall k :: 0 <= k < |order| && k != i && k != j ==> Quiet(env, order[k])
    requires GaugeOf(env, order[i]) != 0 && !Writes(env, order[j], OwnKey(env, order[i]))
    requires Outcome(env, db.gauges, order[i]) == Some((ku, 1.0))
    requires var one := Process(env, db, order[i]);
             && Outcome(env, one.gauges, order[j]) == Some((ks, 1.0))
             && var two := Process(env, one, order[j]);
                Outcome(env, two.gauges, order[i]) == Some((ku, 1.0)) && Shown(env, two, order[i]) != Shown(env, one, order[i])
    ensures !Idle(env, db, order)
  {
    var u, s := order[i], order[j];
    var one := Process(env, db, u);
    var two := Process(env, one, s);
    var three := Process(env, two, u);
    var key := OwnKey(env, u);
    hide *;
    TwoRun(env, db, order, i, j);
    TwoRun(env, two, order, i, j);
    EntryAfter(env, db, u);
    EntryAfter(env, two, u);
    EntryStays(env, one, s, key);
    EntryStays(env, three, s, key);
    StoredTwice(env, db, u, s, ku, ks);
    ShownByRows(env, three, two, u);
    assert Lookup(two.gauges, key) != Lookup(Process(env, three, s).gauges, key);
    NotIdle(env, db, order, two);
  }

  lemma NotIdle(env: Env, db: Db, order: seq<Source>, end: Db)
    requires Pass(env, db, order, |order|) == end
    requires exists key :: Lookup(Pass(env, end, order, |order|).gauges, key) != Lookup(end.gauges, key)
    ensures !Idle(env, db, order)
  {
  }

  lemma EntryAfter(env: Env, db: Db, u: Source)
    requires Outcome(env, db.gauges, u).Some? && GaugeOf(env, u) != 0
    ensures Lookup(Process(env, db, u).gauges, OwnKey(env, u)) == Shown(env, Process(env, db, u), u)
  {
    TurnRefreshes(env, db, u);
  }

  lemma EntryStays(env: Env, db: Db, s: Source, key: (int, DataType))
    requires !Writes(env, s, key)
    ensures Lookup(Process(env, db, s).gauges, key) == Lookup(db.gauges, key)
  {
    TurnLeaves(env, db, s);
  }

  lemma StoredTwice(env: Env, db: Db, u: Source, s: Source, ku: Key, ks: Key)
    requires u.id != s.id && Outcome(env, db.gauges, u) == Some((ku, 1.0))
    requires Outcome(env, Process(env, db, u).gauges, s) == Some((ks, 1.0))
    requires Outcome(env, Process(env, Process(env, db, u), s).gauges, u) == Some((ku, 1.0))
    ensures var two := Process(env, Process(env, db, u), s); Process(env, two, u).obs == two.obs
  {
    hide *;
    var one := Process(env, db, u);
    RowsAfter(env, db, u, ku, 1.0);
    RowsAfter(env, one, s, ks, 1.0);
    RowsAfter(env, Process(env, one, s), u, ku, 1.0);
    WrittenTwice(db.obs, ku, ks, 1.0);
  }

  lemma RowsAfter(env: Env, db: Db, u: Source, k: Key, v: real)
    requires Outcome(env, db.gauges, u) == Some((k, v))
    ensures Process(env, db, u).obs == db.obs[k := v] && k.source == u.id
  {
    TurnRefreshes(env, db, u);
  }

  lemma WrittenTwice(obs: map<Key, real>, k: Key, l: Key, v: real)
    ensures obs[k := v][l := v][k := v] == obs[k := v][l := v]
  {
  }

  lemma ShownByRows(env: Env, a: Db, b: Db, u: Source)
    requires a.obs == b.obs
    ensures Shown(env, a, u) == Shown(env, b, u)
  {
  }

  /** u before s in the order, neither reading what it or a later one writes, s feeding the
      entry u refreshes. */
  ghost predicate LateFeed(env: Env, u: Source, s: Source) {
    && u.id != s.id && Feeds(env, u, u) && Feeds(env, s, u) && !Writes(env, s, OwnKey(env, u))
    && WellRead(env, u) && WellRead(env, s)
    && OwnKey(env, u) !in ReadSet(env, u)
    && (GaugeOf(env, s) != 0 ==> OwnKey(env, s) !in ReadSet(env, u) && OwnKey(env, s) !in ReadSet(env, s))
    && u.expression == s.expression == "1" && env.parse("1") == Some(ONE)
  }

  lemma ReadsStay(env: Env, a: Db, b: Db, s: Source, stamp: int)
    requires SameReads(env, s, a, b) && ReadsFrom(env, a.gauges, s, stamp)
    ensures ReadsFrom(env, b.gauges, s, stamp)
  {
    hide ReadSet;
    forall key | key in ReadSet(env, s) ensures key in b.gauges && b.gauges[key].at >= stamp {
      assert Lookup(a.gauges, key) == Lookup(b.gauges, key);
    }
    var key :| key in ReadSet(env, s) && key in a.gauges && a.gauges[key].at == stamp;
    assert Lookup(a.gauges, key) == Lookup(b.gauges, key);
  }

  /** What the two sources do when s finds its reads at `ss` after u's turn. */
  lemma FeedTurns(env: Env, db: Db, u: Source, s: Source, su: int, ss: int)
    requires LateFeed(env, u, s) && su <= env.now && ss <= env.now && ReadsFrom(env, db.gauges, u, su)
    requires ReadsFrom(env, Process(env, db, u).gauges, s, ss)
    ensures var one := Process(env, db, u);
            var two := Process(env, one, s);
            && Outcome(env, db.gauges, u) == Some((Key(u.id, u.dtype, su), 1.0))
            && Outcome(env, one.gauges, s) == Some((Key(s.id, s.dtype, ss), 1.0))
            && Outcome(env, two.gauges, u) == Some((Key(u.id, u.dtype, su), 1.0))
            && one.obs == db.obs[Key(u.id, u.dtype, su) := 1.0] && two.obs == one.obs[Key(s.id, s.dtype, ss) := 1.0]
            && Lookup(one.gauges, OwnKey(env, u)) == Shown(env, one, u)
  {
    var one := Process(env, db, u);
    var two := Process(env, one, s);
    hide Process, Outcome, ReadSet, WellRead, Shown, ReadsFrom;
    ConstOutcome(env, db.gauges, u, su);
    ConstOutcome(env, one.gauges, s, ss);
    TurnRefreshes(env, db, u);
    TurnRefreshes(env, one, s);
    TurnLeaves(env, db, u);
    TurnLeaves(env, one, s);
    assert SameReads(env, u, db, two);
    ReadsStay(env, db, two, u, su);
    ConstOutcome(env, two.gauges, u, su);
  }

  /** Apart from u's entry, what s reads is there from `ss` on, and something at `ss`. */
  ghost predicate ReadyFor(env: Env, db: Db, u: Source, s: Source, ss: int) {
    && (forall key :: key in ReadSet(env, s) && key != OwnKey(env, u) ==> key in db.gauges && db.gauges[key].at >= ss)
    && ((exists key :: key in ReadSet(env, s) && key != OwnKey(env, u) && key in db.gauges && db.gauges[key].at == ss)
        || (ss == env.now && forall key :: key in ReadSet(env, s) && key in db.gauges ==> db.gauges[key].at == env.now))
  }

  /** After u's turn s finds u's entry at the present time and the others as before. */
  lemma ReadsAfter(env: Env, db: Db, u: Source, s: Source, su: int, ss: int)
    requires LateFeed(env, u, s) && su <= env.now && ss <= env.now && ReadsFrom(env, db.gauges, u, su)
    requires Shown(env, Process(env, db, u), u).Some? && Shown(env, Process(env, db, u), u).value.at == env.now
    requires ReadyFor(env, db, u, s, ss)
    ensures ReadsFrom(env, Process(env, db, u).gauges, s, ss)
  {
    var one := Process(env, db, u);
    SomeRead(env, s);
    hide Process, Outcome, ReadSet, WellRead, Shown, ReadyFor;
    ConstOutcome(env, db.gauges, u, su);
    TurnRefreshes(env, db, u);
    TurnLeaves(env, db, u);
    hide ReadsFrom;
    OneReadOnly(env, db, one, u, s, ss);
  }

  lemma OneReadOnly(env: Env, db: Db, one: Db, u: Source, s: Source, ss: int)
    requires ss <= env.now && (exists key :: key in ReadSet(env, s))
    requires Lookup(one.gauges, OwnKey(env, u)).Some? && Lookup(one.gauges, OwnKey(env, u)).value.at == env.now
    requires forall key :: !Writes(env, u, key) ==> Lookup(one.gauges, key) == Lookup(db.gauges, key)
    requires ReadyFor(env, db, u, s, ss)
    ensures ReadsFrom(env, one.gauges, s, ss)
  {
    hide ReadSet;
    forall key | key in ReadSet(env, s) ensures key in one.gauges && one.gauges[key].at >= ss {
      if key != OwnKey(env, u) { assert Lookup(one.gauges, key) == Lookup(db.gauges, key); }
    }
    var low :| low in ReadSet(env, s) &&
               ((low != OwnKey(env, u) && low in db.gauges && db.gauges[low].at == ss)
                || (ss == env.now && forall key :: key in ReadSet(env, s) && key in db.gauges ==> db.gauges[key].at == env.now));
    if low != OwnKey(env, u) { assert Lookup(one.gauges, low) == Lookup(db.gauges, low); }
    assert one.gauges[low].at == ss;
  }

  /** Entries for all that u and s read, `key` at `at` and the others now. */
  function TimedStore(env: Env, u: Source, s: Source, key: (int, DataType), at: int, obs: map<Key, real>): Db {
    StoreOf(ReadSet(env, u) + ReadSet(env, s), k => if k == key then at else env.now, obs)
  }

  lemma TimedEntries(env: Env, u: Source, s: Source, key: (int, DataType), at: int, obs: map<Key, real>)
    ensures var db := TimedStore(env, u, s, key, at, obs);
            && db.obs == obs
            && forall k :: k in ReadSet(env, u) || k in ReadSet(env, s) ==>
                 k in db.gauges && db.gauges[k].at == if k == key then at else env.now
  {
    hide ReadSet;
  }

  lemma TimedReads(env: Env, u: Source, s: Source, key: (int, DataType), at: int, obs: map<Key, real>)
    requires at <= env.now && (exists k :: k in ReadSet(env, u)) && (exists k :: k in ReadSet(env, s))
    ensures var db := TimedStore(env, u, s, key, at, obs);
            && db.obs == obs
            && (key in ReadSet(env, u) ==> ReadsFrom(env, db.gauges, u, at))
            && (key !in ReadSet(env, u) || at == env.now ==> ReadsFrom(env, db.gauges, u, env.now))
            && (key in ReadSet(env, s) && key != OwnKey(env, u) ==> ReadyFor(env, db, u, s, at))
            && (key !in ReadSet(env, s) || at == env.now ==> ReadyFor(env, db, u, s, env.now))
  {
    hide ReadSet, TimedStore, OwnKey, ReadyFor, ReadsFrom;
    TimedEntries(env, u, s, key, at, obs);
    var db := TimedStore(env, u, s, key, at, obs);
    if key in ReadSet(env, u) { AllFrom(env, db.gauges, u, at, key); }
    if key !in ReadSet(env, u) || at == env.now {
      var k :| k in ReadSet(env, u);
      AllFrom(env, db.gauges, u, env.now, k);
    }
    if key in ReadSet(env, s) && key != OwnKey(env, u) { ReadyAt(env, db, u, s, at, key); }
    if key !in ReadSet(env, s) || at == env.now { ReadyNow(env, db, u, s); }
  }

  lemma AllFrom(env: Env, gauges: map<(int, DataType), Latest>, u: Source, stamp: int, key: (int, DataType))
    requires forall k :: k in ReadSet(env, u) ==> k in gauges && gauges[k].at >= stamp
    requires key in ReadSet(env, u) && gauges[key].at == stamp
    ensures ReadsFrom(env, gauges, u, stamp)
  {
  }

  lemma ReadyAt(env: Env, db: Db, u: Source, s: Source, at: int, key: (int, DataType))
    requires forall k :: k in ReadSet(env, s) ==> k in db.gauges && db.gauges[k].at >= at
    requires key in ReadSet(env, s) && key != OwnKey(env, u) && db.gauges[key].at == at
    ensures ReadyFor(env, db, u, s, at)
  {
  }

  lemma ReadyNow(env: Env, db: Db, u: Source, s: Source)
    requires forall k :: k in ReadSet(env, s) ==> k in db.gauges && db.gauges[k].at == env.now
    ensures ReadyFor(env, db, u, s, env.now)
  {
  }

  lemma FirstTurn(env: Env, db: Db, u: Source, s: Source, su: int)
    requires LateFeed(env, u, s) && su <= env.now && ReadsFrom(env, db.gauges, u, su)
    ensures Process(env, db, u).obs == db.obs[Key(u.id, u.dtype, su) := 1.0]
  {
    hide ReadSet, WellRead, Outcome, Process, ReadsFrom;
    ConstOutcome(env, db.gauges, u, su);
    RowsAfter(env, db, u, Key(u.id, u.dtype, su), 1.0);
  }

  lemma LateFeedFacts(env: Env, u: Source, s: Source)
    requires LateFeed(env, u, s)
    ensures u.id != s.id && u.dtype == s.dtype && GaugeOf(env, u) != 0 && !Writes(env, s, OwnKey(env, u)) && Feeds(env, u, u)
    ensures (GaugeOf(env, u), u.id) in env.linked && (GaugeOf(env, u), s.id) in env.linked
    ensures (exists k :: k in ReadSet(env, u)) && (exists k :: k in ReadSet(env, s))
    ensures Since(env) == env.now - 30 * 86400
  {
    SomeRead(env, u);
    SomeRead(env, s);
  }

  lemma TwoWritten(k: Key, v: real, l: Key, w: real, x: real)
    requires k != l
    ensures map[k := v][l := w] == map[k := v, l := w] == map[l := w, k := v]
    ensures map[k := v, l := w][k := x] == map[k := x, l := w]
  {
  }

  /** u reads something s does not: put that a second before all else, and a row of s with
      another value at the present time. */
  lemma FeedThroughTime(env: Env, order: seq<Source>, i: nat, j: nat, key: (int, DataType)) returns (db: Db)
    requires i < j < |order| && LateFeed(env, order[i], order[j])
    requires forall k :: 0 <= k < |order| && k != i && k != j ==> Quiet(env, order[k])
    requires key in ReadSet(env, order[i]) && key !in ReadSet(env, order[j])
    ensures !Idle(env, db, order)
  {
    var u, s := order[i], order[j];
    hide ReadSet, WellRead, Quiet, Idle, Outcome, Process, Shown, ReadsFrom, ReadyFor, LateFeed, Feeds, Writes, TimedStore, GaugeOf, OwnKey, Since;
    LateFeedFacts(env, u, s);
    var ks, ku := Key(s.id, s.dtype, env.now), Key(u.id, u.dtype, env.now - 1);
    db := TimedStore(env, u, s, key, env.now - 1, map[ks := 5.0]);
    TimedReads(env, u, s, key, env.now - 1, map[ks := 5.0]);
    var one := Process(env, db, u);
    var two := Process(env, one, s);
    FirstTurn(env, db, u, s, env.now - 1);
    TwoWritten(ks, 5.0, ku, 1.0, 1.0);
    TwoRows(env, one, u, ks, 5.0, ku, 1.0);
    ReadsAfter(env, db, u, s, env.now - 1, env.now);
    FeedTurns(env, db, u, s, env.now - 1, env.now);
    TwoRows(env, two, u, ks, 1.0, ku, 1.0);
    FeedSeen(env, db, order, i, j, ku, ks);
  }

  /** s reads something u does not, other than u's own entry: put that seven hours back, so
      that the row of s becomes the previous one. */
  lemma FeedThroughTrend(env: Env, order: seq<Source>, i: nat, j: nat, key: (int, DataType)) returns (db: Db)
    requires i < j < |order| && LateFeed(env, order[i], order[j])
    requires forall k :: 0 <= k < |order| && k != i && k != j ==> Quiet(env, order[k])
    requires key in ReadSet(env, order[j]) && key !in ReadSet(env, order[i]) && key != OwnKey(env, order[i])
    ensures !Idle(env, db, order)
  {
    var u, s := order[i], order[j];
    hide ReadSet, WellRead, Quiet, Idle, Outcome, Process, Shown, ReadsFrom, ReadyFor, LateFeed, Feeds, Writes, TimedStore, GaugeOf, OwnKey, Since;
    LateFeedFacts(env, u, s);
    var past := env.now - 7 * 3600;
    var ks, ku := Key(s.id, s.dtype, past), Key(u.id, u.dtype, env.now);
    db := TimedStore(env, u, s, key, past, map[]);
    TimedReads(env, u, s, key, past, map[]);
    var one := Process(env, db, u);
    var two := Process(env, one, s);
    FirstTurn(env, db, u, s, env.now);
    assert one.obs == map[ku := 1.0];
    LoneRow(env, one, u, ku, 1.0);
    ReadsAfter(env, db, u, s, env.now, past);
    FeedTurns(env, db, u, s, env.now, past);
    TwoWritten(ku, 1.0, ks, 1.0, 1.0);
    TwoRows(env, two, u, ku, 1.0, ks, 1.0);
    FeedSeen(env, db, order, i, j, ku, ks);
  }

  /** s has the higher id: with all at the present time its row takes the entry over. */
  lemma FeedThroughId(env: Env, order: seq<Source>, i: nat, j: nat) returns (db: Db)
    requires i < j < |order| && LateFeed(env, order[i], order[j]) && order[j].id > order[i].id
    requires forall k :: 0 <= k < |order| && k != i && k != j ==> Quiet(env, order[k])
    ensures !Idle(env, db, order)
  {
    var u, s := order[i], order[j];
    hide ReadSet, WellRead, Quiet, Idle, Outcome, Process, Shown, ReadsFrom, ReadyFor, LateFeed, Feeds, Writes, TimedStore, GaugeOf, OwnKey, Since;
    LateFeedFacts(env, u, s);
    var ks, ku := Key(s.id, s.dtype, env.now), Key(u.id, u.dtype, env.now);
    db := TimedStore(env, u, s, (0, Flow), env.now, map[]);
    TimedReads(env, u, s, (0, Flow), env.now, map[]);
    var one := Process(env, db, u);
    var two := Process(env, one, s);
    FirstTurn(env, db, u, s, env.now);
    assert one.obs == map[ku := 1.0];
    LoneRow(env, one, u, ku, 1.0);
    ReadsAfter(env, db, u, s, env.now, env.now);
    FeedTurns(env, db, u, s, env.now, env.now);
    TwoWritten(ku, 1.0, ks, 1.0, 1.0);
    TwoRows(env, two, u, ks, 1.0, ku, 1.0);
    FeedSeen(env, db, order, i, j, ku, ks);
  }

  lemma FeedRuns(env: Env, order: seq<Source>, i: nat, j: nat) returns (db: Db)
    requires i < j < |order| && LateFeed(env, order[i], order[j]) && ShowsIn(env, order[j], order[i])
    requires forall k :: 0 <= k < |order| && k != i && k != j ==> Quiet(env, order[k])
    ensures !Idle(env, db, order)
  {
    var u, s := order[i], order[j];
    hide ReadSet, Quiet, Idle;
    if key :| key in ReadSet(env, u) && key !in ReadSet(env, s) {
      db := FeedThroughTime(env, order, i, j, key);
    } else if key :| key in ReadSet(env, s) && key !in ReadSet(env, u) && key != OwnKey(env, u) {
      db := FeedThroughTrend(env, order, i, j, key);
    } else {
      assert ReadSet(env, s) - {OwnKey(env, u)} == ReadSet(env, u);
      db := FeedThroughId(env, order, i, j);
    }
  }

  lemma LateFeedUnsettled(env: Env, order: seq<Source>, i: nat, j: nat)
    requires Setting(env, order) && ReadsAsPython(env.parse)
    requires ReadsSettled(env, order) && i < j < |order| && ShowsIn(env, order[j], order[i])
    ensures !AlwaysSettles(env, order)
  {
    var texts := Only(|order|, i, j, "1");
    var order2 := WithTexts(order, texts);
    AllQuiet(env, order, i, j, "1");
    SameStructure(env, order[i], "1");
    SameStructure(env, order[j], "1");
    hide Refs, ReadSet, WellRead, Idle, Only, WithTexts, Quiet;
    assert LateFeed(env, order2[i], order2[j]);
    assert ShowsIn(env, order2[j], order2[i]);
    var db := FeedRuns(env, order2, i, j);
    NotAlways(env, order, texts, db);
  }

  // ---------------------------------------------------------------- the exact condition

  lemma SettledMoves(env: Env, order: seq<Source>, texts: seq<string>)
    requires |texts| == |order| && Settled(env, order)
    ensures Settled(env, WithTexts(order, texts))
  {
    var order2 := WithTexts(order, texts);
    forall i | 0 <= i < |order|
      ensures GaugeOf(env, order2[i]) == GaugeOf(env, order[i]) && OwnKey(env, order2[i]) == OwnKey(env, order[i])
      ensures ReadSet(env, order2[i]) == ReadSet(env, order[i])
      ensures order2[i].id == order[i].id && order2[i].dtype == order[i].dtype
    {
      SameStructure(env, order[i], texts[i]);
    }
    hide ReadSet, WithTexts;
  }

  /** Main result: with one calculated source per entry, references that resolve and a
      parser that reads constants and sums, a second pass is idle whatever the expressions
      and the store, if and only if no source reads what it or a later one writes and no
      later source shows in an entry. */
  lemma SettlesIff(env: Env, order: seq<Source>)
    requires Setting(env, order) && ReadsAsPython(env.parse)
    ensures AlwaysSettles(env, order) <==> ReadsSettled(env, order) && FeedsSettled(env, order)
  {
    hide ReadsAsPython;
    if ReadsSettled(env, order) && FeedsSettled(env, order) {
      forall texts: seq<string>, db: Db | |texts| == |order| ensures Idle(env, db, WithTexts(order, texts)) {
        hide Settled, WithTexts, Pass;
        assert Settled(env, order) by { SettledIs(env, order); }
        SettledMoves(env, order, texts);
        SamePassIdle(env, db, WithTexts(order, texts), WithTexts(order, texts));
      }
    } else {
      Unsettled(env, order);
    }
  }

  lemma SettledIs(env: Env, order: seq<Source>)
    requires Distinct(env, order) && ReadsSettled(env, order) && FeedsSettled(env, order)
    ensures Settled(env, order)
  {
  }

  lemma Unsettled(env: Env, order: seq<Source>)
    requires Setting(env, order) && ReadsAsPython(env.parse)
    requires !(ReadsSettled(env, order) && FeedsSettled(env, order))
    ensures !AlwaysSettles(env, order)
  {
    hide ReadSet, AlwaysSettles, Setting, ShowsIn, ReadsAsPython;
    if !ReadsSettled(env, order) {
      var i, j :| 0 <= i <= j < |order| && GaugeOf(env, order[j]) != 0 && OwnKey(env, order[j]) in ReadSet(env, order[i]);
      if OwnKey(env, order[j]) in ReadSet(env, order[j]) {
        SelfReadUnsettled(env, order, j);
      } else {
        ReadAheadUnsettled(env, order, i, j);
      }
    } else {
      var i, j :| 0 <= i < j < |order| && ShowsIn(env, order[j], order[i]);
      LateFeedUnsettled(env, order, i, j);
    }
  }
}
