/** Three stores a further pass of the calculator changes: a source that reads its own
    series, a source linked to a second gauge, and a row that leaves the window
    (calculator.py). */
module CalcExamples {
  import opened Common
  import opened Observations
  import opened CalcOrder
  import opened CalcText
  import opened CalcExpr
  import opened CalcPass
  import opened CalcFixpoint

  // ---------------------------------------------------------------- expressions over one reference

  /** name::flow, for a gauge name without colons and spaces. */
  predicate Simple(name: string) {
    name != "" && RefChars(name) && Colonless(name) && Spaceless(name)
  }

  function FlowRef(name: string): string { name + "::" + "flow" }

  lemma FlowRefFacts(name: string)
    requires Simple(name)
    ensures Refs(FlowRef(name)) == [FlowRef(name)] && Pieces(FlowRef(name), "") == [name, "flow"]
    ensures RefChars(FlowRef(name)) && HasColons(FlowRef(name))
  {
    OneRef(name, "flow");
    Split("flow", "");
    var ref := FlowRef(name);
    assert ref[|name|] == ':' && ref[|name| + 1] == ':';
    assert ColonsAt(ref, |name|);
  }

  lemma FlowRead(env: Env, name: string)
    requires Simple(name) && name in env.nameToGauge && env.nameToGauge[name] != 0
    ensures ReadKey(env, FlowRef(name)) == Some((env.nameToGauge[name], Flow))
  {
    FlowRefFacts(name);
  }

  lemma FlowResolves(env: Env, gauges: map<(int, DataType), Latest>, name: string)
    requires Simple(name) && name in env.nameToGauge && env.nameToGauge[name] != 0
    requires (env.nameToGauge[name], Flow) in gauges
    ensures var l := gauges[(env.nameToGauge[name], Flow)];
            ResolveAll(env, gauges, [FlowRef(name)]) == Some(Resolved([FlowRef(name)], map[FlowRef(name) := l.value], [l.at]))
  {
    FlowRead(env, name);
    hide ReadKey, FlowRef;
    var ref := FlowRef(name);
    assert [ref][..0] == [] && [ref][|[ref]| - 1] == ref;
    assert ResolveAll(env, gauges, []) == Some(Resolved([], map[], []));
    var l := gauges[(env.nameToGauge[name], Flow)];
    assert map[][ref := l.value] == map[ref := l.value] && [] + [ref] == [ref] && [] + [l.at] == [l.at];
  }

  lemma OnePlaceholder(ref: string)
    ensures LongestFirst([ref]) == [ref] && Names([ref]) == map[ref := "_v0"]
  {
    assert [ref][..0] == [] && LongestFirst([]) == [];
    assert Decimal.Digits(0) == "0" && Placeholder(0) == "_v" + "0";
    assert "_v" + "0" == "_v0";
    assert Naming([ref], 0) == map[] && Naming([ref], 1) == map[][ref := Placeholder(0)];
  }

  /** "ref" and "ref + 1". */
  function JustText(ref: string): Text { Id(ref) }

  function PlusText(ref: string): Text {
    Infix([Mark('+')], Spaced(0, Id(ref), 1), Spaced(1, Num(1.0, [Word("1")]), 0))
  }

  lemma PlusTokens(ref: string)
    ensures Spell(PlusText(ref)) == [Word(ref), Mark(' '), Mark('+'), Mark(' '), Word("1")]
    ensures Render(Spell(PlusText(ref))) == ref + " + 1"
    ensures Tree(PlusText(ref)) == Bin(Add, Name(ref), Const(1.0))
  {
    assert Blanks(0) == [] && Blanks(1) == [Mark(' ')];
    assert Spell(Spaced(0, Id(ref), 1)) == [Word(ref), Mark(' ')];
    assert Spell(Num(1.0, [Word("1")])) == [Word("1")];
    assert Spell(Spaced(1, Num(1.0, [Word("1")]), 0)) == [Mark(' '), Word("1")];
    assert Tree(Spaced(0, Id(ref), 1)) == Name(ref) && Tree(Spaced(1, Num(1.0, [Word("1")]), 0)) == Const(1.0);
    var ts := [Word(ref), Mark(' '), Mark('+'), Mark(' '), Word("1")];
    hide Spell, Tree;
    assert ts[1..][1..][1..] == [Mark(' '), Word("1")] && ts[1..][1..] == [Mark('+'), Mark(' '), Word("1")];
    assert [Word("1")][1..] == [] && [Mark(' '), Word("1")][1..] == [Word("1")];
    assert Render([Word("1")]) == "1" && Render([Mark(' '), Word("1")]) == " 1";
    assert Render([Mark('+'), Mark(' '), Word("1")]) == "+ 1";
    assert ts[1..] == [Mark(' '), Mark('+'), Mark(' '), Word("1")];
    assert Render(ts[1..]) == " + 1";
  }

  lemma PlusOk(ref: string)
    requires ref != "" && RefChars(ref) && HasColons(ref)
    ensures TextOk(PlusText(ref)) && CallsTight(PlusText(ref)) && NoPlaceholders(Tree(PlusText(ref)), 1)
    ensures Tokens(ref + " + 1") == Spell(PlusText(ref)) && RefsCovered([ref], Tokens(ref + " + 1"))
    ensures RenamedText(PlusText(ref), map[ref := "_v0"]) == PlusText("_v0")
  {
    PlusTokens(ref);
    PlusCovered(ref);
    NoStandIn(ref);
    hide Spell, Render, Tokens, HasColons, RefsCovered, PlaceholderName;
    assert TextOk(Spaced(0, Id(ref), 1)) && TextOk(Spaced(1, Num(1.0, [Word("1")]), 0));
    assert CallsTight(Spaced(0, Id(ref), 1)) && CallsTight(Spaced(1, Num(1.0, [Word("1")]), 0));
    assert NoPlaceholders(Name(ref), 1) && NoPlaceholders(Const(1.0), 1);
    var names := map[ref := "_v0"];
    assert Rewrite([Mark('+')], false, names) == [Mark('+')];
    assert RenamedText(Spaced(0, Id(ref), 1), names) == Spaced(0, Id("_v0"), 1);
    assert RenamedText(Spaced(1, Num(1.0, [Word("1")]), 0), names) == Spaced(1, Num(1.0, [Word("1")]), 0);
  }

  lemma PlusCovered(ref: string)
    requires ref != "" && RefChars(ref) && HasColons(ref)
    ensures var ts := [Word(ref), Mark(' '), Mark('+'), Mark(' '), Word("1")];
            Tokens(Render(ts)) == ts && RefsCovered([ref], ts)
  {
    var ts := [Word(ref), Mark(' '), Mark('+'), Mark(' '), Word("1")];
    NoColonsIn("1");
    assert WellFormed(ts);
    hide Render, Tokens;
    TokensUnique(ts);
  }

  lemma NoStandIn(ref: string)
    requires HasColons(ref)
    ensures !PlaceholderName(ref, 1)
  {
    PlaceholderFacts(0);
  }

  lemma {:induction false} JustOk(ref: string)
    requires ref != "" && RefChars(ref) && HasColons(ref)
    ensures TextOk(JustText(ref)) && CallsTight(JustText(ref)) && NoPlaceholders(Tree(JustText(ref)), 1)
    ensures Tokens(ref) == Spell(JustText(ref)) && RefsCovered([ref], Tokens(ref))
    ensures RenamedText(JustText(ref), map[ref := "_v0"]) == JustText("_v0")
    ensures Render(Spell(JustText("_v0"))) == "_v0"
  {
    var ts := [Word(ref)];
    assert ts[1..] == [] && [Word("_v0")][1..] == [];
    assert Render(ts) == ref + "" == ref;
    TokensUnique(ts);
    PlaceholderFacts(0);
  }

  /** A parser that reads the two rewritten expressions as Python does. */
  ghost predicate ReadsBoth(parse: string -> Option<Expr>) {
    parse("_v0") == Some(Name("_v0")) && parse("_v0 + 1") == Some(Bin(Add, Name("_v0"), Const(1.0)))
  }

  /** What a source over one reference stores. */
  lemma SingleOutcome(env: Env, gauges: map<(int, DataType), Latest>, s: Source, name: string, t: Text, v: real)
    requires Simple(name) && name in env.nameToGauge && env.nameToGauge[name] != 0
    requires (env.nameToGauge[name], Flow) in gauges && s.timeExpression == FlowRef(name)
    requires Tokens(s.expression) == Spell(t) && TextOk(t) && CallsTight(t) && NoPlaceholders(Tree(t), 1)
    requires RefsCovered([FlowRef(name)], Tokens(s.expression))
    requires var moved := RenamedText(t, map[FlowRef(name) := "_v0"]); env.parse(Render(Spell(moved))) == Some(Tree(moved))
    requires Eval(Tree(t), map[FlowRef(name) := gauges[(env.nameToGauge[name], Flow)].value], AuthorFn, env.power) == Ok(v)
    ensures Outcome(env, gauges, s) == RowFor(env, s, v, [gauges[(env.nameToGauge[name], Flow)].at])
  {
    hide *;
    FlowRefFacts(name);
    FlowResolves(env, gauges, name);
    OnePlaceholder(FlowRef(name));
    OutcomeMeans(env, gauges, s, t);
  }

  lemma JustOutcome(env: Env, gauges: map<(int, DataType), Latest>, s: Source, name: string)
    requires Simple(name) && name in env.nameToGauge && env.nameToGauge[name] != 0
    requires (env.nameToGauge[name], Flow) in gauges && ReadsBoth(env.parse)
    requires s.timeExpression == s.expression == FlowRef(name)
    ensures var l := gauges[(env.nameToGauge[name], Flow)]; Outcome(env, gauges, s) == RowFor(env, s, l.value, [l.at])
  {
    var ref, l := FlowRef(name), gauges[(env.nameToGauge[name], Flow)];
    assert Tree(JustText(ref)) == Name(ref) && Tree(JustText("_v0")) == Name("_v0");
    assert Eval(Name(ref), map[ref := l.value], AuthorFn, env.power) == Ok(l.value);
    hide Eval, Tree, Spell, Render, FlowRef, Simple, JustText, Tokens, RenamedText, TextOk, NoPlaceholders, RefsCovered;
    FlowRefFacts(name);
    ColonsNonEmpty(ref);
    JustOk(ref);
    SingleOutcome(env, gauges, s, name, JustText(ref), l.value);
  }

  lemma StandInPlus()
    ensures Render(Spell(PlusText("_v0"))) == "_v0 + 1"
    ensures Tree(PlusText("_v0")) == Bin(Add, Name("_v0"), Const(1.0))
  {
    PlusTokens("_v0");
    hide Render, Spell, PlusText, Tree;
  }

  lemma ReadsPlus(parse: string -> Option<Expr>)
    requires ReadsBoth(parse)
    ensures parse("_v0 + 1") == Some(Bin(Add, Name("_v0"), Const(1.0)))
  {
  }

  lemma PlusEval(ref: string, v: real, power: Power)
    ensures Eval(Bin(Add, Name(ref), Const(1.0)), map[ref := v], AuthorFn, power) == Ok(v + 1.0)
  {
    var values := map[ref := v];
    assert Eval(Name(ref), values, AuthorFn, power) == Ok(v);
    assert Eval(Const(1.0), values, AuthorFn, power) == Ok(1.0);
  }

  lemma PlusOutcome(env: Env, gauges: map<(int, DataType), Latest>, s: Source, name: string)
    requires Simple(name) && name in env.nameToGauge && env.nameToGauge[name] != 0
    requires (env.nameToGauge[name], Flow) in gauges && ReadsBoth(env.parse)
    requires s.timeExpression == FlowRef(name) && s.expression == FlowRef(name) + " + 1"
    ensures var l := gauges[(env.nameToGauge[name], Flow)]; Outcome(env, gauges, s) == RowFor(env, s, l.value + 1.0, [l.at])
  {
    hide *;
    var ref, l := FlowRef(name), gauges[(env.nameToGauge[name], Flow)];
    ReadsPlus(env.parse);
    PlusEval(ref, l.value, env.power);
    FlowRefFacts(name);
    ColonsNonEmpty(ref);
    PlusOk(ref);
    PlusTokens(ref);
    StandInPlus();
    SingleOutcome(env, gauges, s, name, PlusText(ref), l.value + 1.0);
  }

  // ---------------------------------------------------------------- a source that reads its own series

  /** The store with one row, the source's own, and its two entries. */
  function LoneStore(s: Source, gauge: int, at: int, v: real): Db {
    var entry := Latest(s.id, at, v, None, None);
    Db(map[Key(s.id, Flow, at) := v], map[(s.id, Flow) := entry], map[(gauge, Flow) := entry])
  }

  ghost function Repeat(env: Env, db: Db, s: Source, n: nat): Db {
    if n == 0 then db else Process(env, Repeat(env, db, s, n - 1), s)
  }

  /** The source "name::flow + 1" on the gauge of that name never settles: the n-th pass
      leaves its one row at v + n. */
  lemma {:induction false} SelfReadDrifts(env: Env, s: Source, name: string, at: int, v: real, n: nat)
    requires Simple(name) && name in env.nameToGauge && env.nameToGauge[name] != 0 && ReadsBoth(env.parse)
    requires s.timeExpression == FlowRef(name) && s.expression == FlowRef(name) + " + 1" && s.dtype == Flow
    requires GaugeOf(env, s) == env.nameToGauge[name] && GaugeSources(env, GaugeOf(env, s)) == {s.id}
    requires Since(env) <= at <= env.now && v >= 0.0
    ensures Repeat(env, LoneStore(s, GaugeOf(env, s), at, v), s, n) == LoneStore(s, GaugeOf(env, s), at, v + n as real)
  {
    hide *;
    if n == 0 {
      RepeatNone(env, LoneStore(s, GaugeOf(env, s), at, v), s);
      assert v + n as real == v;
    } else {
      SelfReadDrifts(env, s, name, at, v, n - 1);
      var w := v + (n - 1) as real;
      DriftsOnce(env, s, name, at, w);
      assert w + 1.0 == v + n as real;
      RepeatStep(env, LoneStore(s, GaugeOf(env, s), at, v), s, n);
    }
  }

  lemma RepeatNone(env: Env, db: Db, s: Source)
    ensures Repeat(env, db, s, 0) == db
  {
  }

  lemma RepeatStep(env: Env, db: Db, s: Source, n: nat)
    requires n > 0
    ensures Repeat(env, db, s, n) == Process(env, Repeat(env, db, s, n - 1), s)
  {
  }

  lemma DriftsOnce(env: Env, s: Source, name: string, at: int, w: real)
    requires Simple(name) && name in env.nameToGauge && env.nameToGauge[name] != 0 && ReadsBoth(env.parse)
    requires s.timeExpression == FlowRef(name) && s.expression == FlowRef(name) + " + 1" && s.dtype == Flow
    requires GaugeOf(env, s) == env.nameToGauge[name] && GaugeSources(env, GaugeOf(env, s)) == {s.id}
    requires Since(env) <= at <= env.now && w >= 0.0
    ensures Process(env, LoneStore(s, GaugeOf(env, s), at, w), s) == LoneStore(s, GaugeOf(env, s), at, w + 1.0)
  {
    hide FlowRef, Simple, ReadsBoth, Outcome, GaugeOf, Since;
    var db := LoneStore(s, GaugeOf(env, s), at, w);
    PlusOutcome(env, db.gauges, s, name);
    var k := Key(s.id, Flow, at);
    assert Earliest([at]) == at;
    assert Outcome(env, db.gauges, s) == Some((k, w + 1.0));
    LoneTurn(env, s, k, w, w + 1.0);
  }

  /** A turn that overwrites the only row. */
  lemma LoneTurn(env: Env, s: Source, k: Key, w: real, x: real)
    requires k.source == s.id && k.dtype == s.dtype == Flow && k.at >= Since(env)
    requires GaugeOf(env, s) != 0 && GaugeSources(env, GaugeOf(env, s)) == {s.id}
    requires Outcome(env, LoneStore(s, GaugeOf(env, s), k.at, w).gauges, s) == Some((k, x))
    ensures Process(env, LoneStore(s, GaugeOf(env, s), k.at, w), s) == LoneStore(s, GaugeOf(env, s), k.at, x)
  {
    hide Outcome, Rollup, GaugeSources;
    assert map[k := w][k := x] == map[k := x];
    assert Select(map[k := x], {s.id}, Flow, None) == map[k := x];
    assert Select(map[k := x], {s.id}, Flow, Some(Since(env))) == map[k := x];
    LoneRollup(k, x);
    var entry, old1 := Latest(s.id, k.at, x, None, None), Latest(s.id, k.at, w, None, None);
    assert map[(s.id, Flow) := old1][(s.id, Flow) := entry] == map[(s.id, Flow) := entry];
    var key := (GaugeOf(env, s), Flow);
    assert map[key := old1][key := entry] == map[key := entry];
  }

  lemma LoneRollup(k: Key, v: real)
    ensures Rollup(map[k := v]) == Some(Latest(k.source, k.at, v, None, None))
  {
    var rows := map[k := v];
    assert k in rows.Keys;
    assert Newest(rows.Keys) == k;
  }

  // ---------------------------------------------------------------- a source linked to a second gauge

  const FIRST := Source(10, "g_calc", Flow, FlowRef("r"), FlowRef("r"))
  const SECOND := Source(11, "h_calc", Flow, FlowRef("r") + " + 1", FlowRef("r"))

  /** Gauges g, h and r; the second calculated source feeds g as well as its own h. */
  function SharedEnv(now: int, parse: string -> Option<Expr>, power: Power): Env {
    Env(now, map["g" := 1, "h" := 2, "r" := 3], Links(map[10 := 1, 11 := 2, 12 := 3], map[1 := "g", 2 := "h", 3 := "r"]),
        {(1, 10), (1, 11), (2, 11), (3, 12)}, {}, parse, power)
  }

  /** One reading of 5 on the raw source, and the caches that go with it. */
  function RawStore(at: int): Db {
    var entry := Latest(12, at, 5.0, None, None);
    Db(map[Key(12, Flow, at) := 5.0], map[(12, Flow) := entry], map[(3, Flow) := entry])
  }

  /** Every gauge entry is what its sources' rows of the window say. */
  ghost predicate Coherent(env: Env, db: Db) {
    forall g, d :: Lookup(db.gauges, (g, d)) == Rollup(Select(db.obs, GaugeSources(env, g), d, Some(Since(env))))
  }

  lemma SharedSources(now: int, parse: string -> Option<Expr>, power: Power, g: int)
    ensures var env := SharedEnv(now, parse, power);
            GaugeSources(env, g) == if g == 1 then {10, 11} else if g == 2 then {11} else if g == 3 then {12} else {}
  {
    var env := SharedEnv(now, parse, power);
    forall s ensures s in GaugeSources(env, g) <==> (g, s) in env.linked {
      if (g, s) in env.linked { assert (g, s).1 == s; }
    }
  }

  lemma RawCoherent(now: int, at: int, parse: string -> Option<Expr>, power: Power)
    requires now - 30 * 86400 <= at <= now
    ensures Coherent(SharedEnv(now, parse, power), RawStore(at))
  {
    var env, db := SharedEnv(now, parse, power), RawStore(at);
    forall g, d ensures Lookup(db.gauges, (g, d)) == Rollup(Select(db.obs, GaugeSources(env, g), d, Some(Since(env)))) {
      SharedSources(now, parse, power, g);
      var rows := Select(db.obs, GaugeSources(env, g), d, Some(Since(env)));
      if g == 3 && d == Flow {
        assert rows == map[Key(12, Flow, at) := 5.0];
        LoneRollup(Key(12, Flow, at), 5.0);
      } else {
        assert rows == map[];
      }
    }
  }

  function Entry(id: int, at: int, v: real): Latest { Latest(id, at, v, None, None) }

  /** The store after the turns of both sources, gauge g showing `shown`. */
  function FilledStore(at: int, shown: Latest): Db {
    Db(map[Key(12, Flow, at) := 5.0, Key(10, Flow, at) := 5.0, Key(11, Flow, at) := 6.0],
       map[(12, Flow) := Entry(12, at, 5.0), (10, Flow) := Entry(10, at, 5.0), (11, Flow) := Entry(11, at, 6.0)],
       map[(3, Flow) := Entry(12, at, 5.0), (1, Flow) := shown, (2, Flow) := Entry(11, at, 6.0)])
  }

  function HalfStore(at: int): Db {
    Db(map[Key(12, Flow, at) := 5.0, Key(10, Flow, at) := 5.0],
       map[(12, Flow) := Entry(12, at, 5.0), (10, Flow) := Entry(10, at, 5.0)],
       map[(3, Flow) := Entry(12, at, 5.0), (1, Flow) := Entry(10, at, 5.0)])
  }

  /** A turn with its row and its two refreshed entries. */
  lemma TurnIs(env: Env, db: Db, s: Source, k: Key, v: real, own: Latest, shown: Latest)
    requires Outcome(env, db.gauges, s) == Some((k, v)) && GaugeOf(env, s) != 0
    requires Rollup(Select(db.obs[k := v], {s.id}, s.dtype, None)) == Some(own)
    requires Rollup(Select(db.obs[k := v], GaugeSources(env, GaugeOf(env, s)), s.dtype, Some(Since(env)))) == Some(shown)
    ensures Process(env, db, s) == Db(db.obs[k := v], db.latest[(s.id, s.dtype) := own], db.gauges[(GaugeOf(env, s), s.dtype) := shown])
  {
    hide Outcome, Rollup, Select;
  }

  lemma SharedOutcomes(now: int, at: int, parse: string -> Option<Expr>, power: Power, db: Db)
    requires ReadsBoth(parse) && now - 30 * 86400 <= at <= now
    requires Lookup(db.gauges, (3, Flow)) == Some(Entry(12, at, 5.0))
    ensures FIRST.id == 10 && FIRST.dtype == Flow && SECOND.id == 11 && SECOND.dtype == Flow
    ensures var env := SharedEnv(now, parse, power);
            && Since(env) == now - 30 * 86400
            && Outcome(env, db.gauges, FIRST) == Some((Key(10, Flow, at), 5.0)) && GaugeOf(env, FIRST) == 1
            && Outcome(env, db.gauges, SECOND) == Some((Key(11, Flow, at), 6.0)) && GaugeOf(env, SECOND) == 2
  {
    var env := SharedEnv(now, parse, power);
    assert Simple("r") && env.nameToGauge["r"] == 3;
    assert Earliest([at]) == at;
    hide Outcome, Simple, FlowRef, ReadsBoth;
    JustOutcome(env, db.gauges, FIRST, "r");
    PlusOutcome(env, db.gauges, SECOND, "r");
  }

  /** Two rows of one time: the higher id is shown. */
  lemma PairRollup(at: int)
    ensures Rollup(map[Key(10, Flow, at) := 5.0, Key(11, Flow, at) := 6.0]) == Some(Entry(11, at, 6.0))
  {
    var rows := map[Key(10, Flow, at) := 5.0, Key(11, Flow, at) := 6.0];
    assert rows.Keys == {Key(10, Flow, at), Key(11, Flow, at)};
    NewestIs(rows.Keys, Key(11, Flow, at));
    assert (set o | o in rows.Keys && o.at <= at - LOOKBACK) == {};
  }

  lemma SelectOne(obs: map<Key, real>, sources: set<int>, since: Option<int>, k: Key, v: real)
    requires k in obs && obs[k] == v && k.source in sources && k.dtype == Flow && (since.None? || k.at >= since.value)
    requires forall l :: l in obs && l != k ==> l.source !in sources
    ensures Select(obs, sources, Flow, since) == map[k := v]
  {
  }

  lemma SelectPair(obs: map<Key, real>, sources: set<int>, since: Option<int>, k: Key, v: real, l: Key, w: real)
    requires k in obs && obs[k] == v && k.source in sources && k.dtype == Flow && (since.None? || k.at >= since.value)
    requires l in obs && obs[l] == w && l.source in sources && l.dtype == Flow && (since.None? || l.at >= since.value) && k != l
    requires forall m :: m in obs && m != k && m != l ==> m.source !in sources
    ensures Select(obs, sources, Flow, since) == map[k := v, l := w]
  {
  }

  lemma StoreSteps(at: int, shown: Latest)
    ensures var e10, e11, raw, half := Entry(10, at, 5.0), Entry(11, at, 6.0), RawStore(at), HalfStore(at);
            && Db(raw.obs[Key(10, Flow, at) := 5.0], raw.latest[(10, Flow) := e10], raw.gauges[(1, Flow) := e10]) == half
            && Db(half.obs[Key(11, Flow, at) := 6.0], half.latest[(11, Flow) := e11], half.gauges[(2, Flow) := e11])
               == FilledStore(at, e10)
  {
  }

  lemma FilledSteps(at: int, shown: Latest)
    ensures var e10, e11, db := Entry(10, at, 5.0), Entry(11, at, 6.0), FilledStore(at, shown);
            && Db(db.obs[Key(11, Flow, at) := 6.0], db.latest[(11, Flow) := e11], db.gauges[(2, Flow) := e11]) == db
            && Db(db.obs[Key(10, Flow, at) := 5.0], db.latest[(10, Flow) := e10], db.gauges[(1, Flow) := e11])
               == FilledStore(at, e11)
  {
    var db := FilledStore(at, shown);
    assert db.obs[Key(11, Flow, at) := 6.0] == db.obs && db.obs[Key(10, Flow, at) := 5.0] == db.obs;
  }

  /** What the two sources' entries show of the rows at each stage. */
  lemma RawShows(at: int, since: int)
    requires since <= at
    ensures var obs := RawStore(at).obs[Key(10, Flow, at) := 5.0];
            && Rollup(Select(obs, {10}, Flow, None)) == Some(Entry(10, at, 5.0))
            && Rollup(Select(obs, {10, 11}, Flow, Some(since))) == Some(Entry(10, at, 5.0))
  {
    hide Rollup, Select;
    var k := Key(10, Flow, at);
    LoneRollup(k, 5.0);
    SelectOne(RawStore(at).obs[k := 5.0], {10}, None, k, 5.0);
    SelectOne(RawStore(at).obs[k := 5.0], {10, 11}, Some(since), k, 5.0);
  }

  lemma HalfShows(at: int, since: int)
    requires since <= at
    ensures var obs := HalfStore(at).obs[Key(11, Flow, at) := 6.0];
            && Rollup(Select(obs, {11}, Flow, None)) == Some(Entry(11, at, 6.0))
            && Rollup(Select(obs, {11}, Flow, Some(since))) == Some(Entry(11, at, 6.0))
  {
    hide Rollup, Select;
    var k := Key(11, Flow, at);
    LoneRollup(k, 6.0);
    SelectOne(HalfStore(at).obs[k := 6.0], {11}, None, k, 6.0);
    SelectOne(HalfStore(at).obs[k := 6.0], {11}, Some(since), k, 6.0);
  }

  lemma FilledShows(at: int, since: int, shown: Latest)
    requires since <= at
    ensures var obs := FilledStore(at, shown).obs;
            && obs[Key(10, Flow, at) := 5.0] == obs && obs[Key(11, Flow, at) := 6.0] == obs
            && Rollup(Select(obs, {10}, Flow, None)) == Some(Entry(10, at, 5.0))
            && Rollup(Select(obs, {11}, Flow, None)) == Some(Entry(11, at, 6.0))
            && Rollup(Select(obs, {10, 11}, Flow, Some(since))) == Some(Entry(11, at, 6.0))
            && Rollup(Select(obs, {11}, Flow, Some(since))) == Some(Entry(11, at, 6.0))
  {
    hide Rollup, Select;
    var k, l, obs := Key(10, Flow, at), Key(11, Flow, at), FilledStore(at, shown).obs;
    LoneRollup(k, 5.0);
    LoneRollup(l, 6.0);
    PairRollup(at);
    SelectOne(obs, {10}, None, k, 5.0);
    SelectOne(obs, {11}, None, l, 6.0);
    SelectPair(obs, {10, 11}, Some(since), k, 5.0, l, 6.0);
    SelectOne(obs, {11}, Some(since), l, 6.0);
  }

  lemma RawEntry(at: int, shown: Latest)
    ensures var e := Entry(12, at, 5.0);
            && Lookup(RawStore(at).gauges, (3, Flow)) == Some(e) && Lookup(HalfStore(at).gauges, (3, Flow)) == Some(e)
            && Lookup(FilledStore(at, shown).gauges, (3, Flow)) == Some(e)
  {
  }

  lemma FirstTurn(now: int, at: int, parse: string -> Option<Expr>, power: Power)
    requires ReadsBoth(parse) && now - 30 * 86400 <= at <= now
    ensures Process(SharedEnv(now, parse, power), RawStore(at), FIRST) == HalfStore(at)
  {
    hide *;
    RawEntry(at, Entry(10, at, 5.0));
    SharedOutcomes(now, at, parse, power, RawStore(at));
    SharedSources(now, parse, power, 1);
    RawShows(at, now - 30 * 86400);
    TurnIs(SharedEnv(now, parse, power), RawStore(at), FIRST, Key(10, Flow, at), 5.0, Entry(10, at, 5.0), Entry(10, at, 5.0));
    StoreSteps(at, Entry(10, at, 5.0));
  }

  lemma SecondTurn(now: int, at: int, parse: string -> Option<Expr>, power: Power)
    requires ReadsBoth(parse) && now - 30 * 86400 <= at <= now
    ensures Process(SharedEnv(now, parse, power), HalfStore(at), SECOND) == FilledStore(at, Entry(10, at, 5.0))
  {
    hide *;
    RawEntry(at, Entry(10, at, 5.0));
    SharedOutcomes(now, at, parse, power, HalfStore(at));
    SharedSources(now, parse, power, 2);
    HalfShows(at, now - 30 * 86400);
    TurnIs(SharedEnv(now, parse, power), HalfStore(at), SECOND, Key(11, Flow, at), 6.0, Entry(11, at, 6.0), Entry(11, at, 6.0));
    StoreSteps(at, Entry(10, at, 5.0));
  }

  /** The first source's next turn finds the row the second one stored for its gauge, and
      the second one has nothing to add. */
  lemma NextTurns(now: int, at: int, parse: string -> Option<Expr>, power: Power, shown: Latest)
    requires ReadsBoth(parse) && now - 30 * 86400 <= at <= now
    ensures Process(SharedEnv(now, parse, power), FilledStore(at, shown), FIRST) == FilledStore(at, Entry(11, at, 6.0))
    ensures Process(SharedEnv(now, parse, power), FilledStore(at, shown), SECOND) == FilledStore(at, shown)
  {
    hide *;
    var env, db := SharedEnv(now, parse, power), FilledStore(at, shown);
    RawEntry(at, shown);
    SharedOutcomes(now, at, parse, power, db);
    SharedSources(now, parse, power, 1);
    SharedSources(now, parse, power, 2);
    FilledShows(at, now - 30 * 86400, shown);
    TurnIs(env, db, FIRST, Key(10, Flow, at), 5.0, Entry(10, at, 5.0), Entry(11, at, 6.0));
    TurnIs(env, db, SECOND, Key(11, Flow, at), 6.0, Entry(11, at, 6.0), Entry(11, at, 6.0));
    FilledSteps(at, shown);
  }

  /** From a coherent store with one reading: after the first pass gauge g shows 5, after
      the second 6, and from then on nothing changes. */
  lemma SharedGaugeUnsettled(now: int, at: int, parse: string -> Option<Expr>, power: Power)
    requires ReadsBoth(parse) && now - 30 * 86400 <= at <= now
    ensures var env, order := SharedEnv(now, parse, power), [FIRST, SECOND];
            var one := Pass(env, RawStore(at), order, 2);
            var two := Pass(env, one, order, 2);
            && Coherent(env, RawStore(at))
            && Lookup(one.gauges, (1, Flow)) == Some(Entry(10, at, 5.0))
            && Lookup(two.gauges, (1, Flow)) == Some(Entry(11, at, 6.0))
            && Pass(env, two, order, 2) == two
  {
    var env, e10, e11 := SharedEnv(now, parse, power), Entry(10, at, 5.0), Entry(11, at, 6.0);
    RawCoherent(now, at, parse, power);
    Shows(at, e10);
    Shows(at, e11);
    hide *;
    FirstTurn(now, at, parse, power);
    SecondTurn(now, at, parse, power);
    NextTurns(now, at, parse, power, e10);
    NextTurns(now, at, parse, power, e11);
    TwoTurns(env, RawStore(at), FIRST, SECOND);
    TwoTurns(env, FilledStore(at, e10), FIRST, SECOND);
    TwoTurns(env, FilledStore(at, e11), FIRST, SECOND);
  }

  lemma Shows(at: int, shown: Latest)
    ensures Lookup(FilledStore(at, shown).gauges, (1, Flow)) == Some(shown)
  {
  }

  lemma TwoTurns(env: Env, db: Db, u: Source, s: Source)
    ensures Pass(env, db, [u, s], 2) == Process(env, Process(env, db, u), s)
  {
    hide Process;
    assert Pass(env, db, [u, s], 1) == Process(env, Pass(env, db, [u, s], 0), u);
  }

  // ---------------------------------------------------------------- a row that leaves the window

  function OldRow(now: int): Key { Key(10, Flow, now - 30 * 86400) }

  /** The entry of the first source: a row of 5 now, and one of 4 thirty days ago. */
  function Aged(now: int): Latest {
    Latest(10, now, 5.0, Some((OldRow(now).at, 4.0)), Some(Trend(now, 5.0, OldRow(now).at, 4.0)))
  }

  function AgedStore(now: int, shown: Latest): Db {
    Db(map[Key(12, Flow, now) := 5.0, Key(10, Flow, now) := 5.0, OldRow(now) := 4.0],
       map[(12, Flow) := Entry(12, now, 5.0), (10, Flow) := Aged(now)],
       map[(3, Flow) := Entry(12, now, 5.0), (1, Flow) := shown])
  }

  lemma AgedRollup(now: int)
    ensures Rollup(map[Key(10, Flow, now) := 5.0, OldRow(now) := 4.0]) == Some(Aged(now))
  {
    var rows := map[Key(10, Flow, now) := 5.0, OldRow(now) := 4.0];
    assert rows.Keys == {Key(10, Flow, now), OldRow(now)};
    NewestIs(rows.Keys, Key(10, Flow, now));
    assert (set o | o in rows.Keys && o.at <= now - LOOKBACK) == {OldRow(now)};
    NewestIs({OldRow(now)}, OldRow(now));
  }

  /** What the entry shows at a clock `wait` seconds on. */
  function Later(now: int, wait: nat): Latest {
    if wait == 0 then Aged(now) else Entry(10, now, 5.0)
  }

  lemma AgedShows(now: int, wait: nat, shown: Latest)
    requires wait <= 30 * 86400
    ensures var obs, since := AgedStore(now, shown).obs, now - 30 * 86400;
            && obs[Key(10, Flow, now) := 5.0] == obs
            && Rollup(Select(obs, {10}, Flow, None)) == Some(Aged(now))
            && Rollup(Select(obs, {10, 11}, Flow, Some(since + wait))) == Some(Later(now, wait))
            && Rollup(Select(obs, {12}, Flow, Some(since + wait))) == Some(Entry(12, now, 5.0))
  {
    hide Rollup;
    var obs, since, k := AgedStore(now, shown).obs, now - 30 * 86400, Key(10, Flow, now);
    AgedRollup(now);
    LoneRollup(k, 5.0);
    LoneRollup(Key(12, Flow, now), 5.0);
    if wait > 0 { AgedLeaves(now, wait, shown); }
    hide Select, Aged;
    SelectPair(obs, {10}, None, k, 5.0, OldRow(now), 4.0);
    if wait == 0 { SelectPair(obs, {10, 11}, Some(since), k, 5.0, OldRow(now), 4.0); }
    SelectOne(obs, {12}, Some(since + wait), Key(12, Flow, now), 5.0);
  }

  lemma AgedLeaves(now: int, wait: nat, shown: Latest)
    requires 0 < wait <= 30 * 86400
    ensures Select(AgedStore(now, shown).obs, {10, 11}, Flow, Some(now - 30 * 86400 + wait)) == map[Key(10, Flow, now) := 5.0]
  {
  }

  lemma AgedCoherent(now: int, parse: string -> Option<Expr>, power: Power)
    ensures Coherent(SharedEnv(now, parse, power), AgedStore(now, Aged(now)))
  {
    var env, db := SharedEnv(now, parse, power), AgedStore(now, Aged(now));
    hide SharedEnv, AgedStore, Rollup, Select, GaugeSources, Aged;
    forall g, d ensures Lookup(db.gauges, (g, d)) == Rollup(Select(db.obs, GaugeSources(env, g), d, Some(Since(env)))) {
      AgedEntry(now, parse, power, g, d);
    }
  }

  lemma AgedEntry(now: int, parse: string -> Option<Expr>, power: Power, g: int, d: DataType)
    ensures var env, db := SharedEnv(now, parse, power), AgedStore(now, Aged(now));
            Lookup(db.gauges, (g, d)) == Rollup(Select(db.obs, GaugeSources(env, g), d, Some(Since(env))))
  {
    hide *;
    var env, db := SharedEnv(now, parse, power), AgedStore(now, Aged(now));
    AgedShows(now, 0, Aged(now));
    SharedSources(now, parse, power, g);
    SharedSince(now, parse, power);
    AgedDiffers(now, 1);
    AgedEntries(now, g, d);
    if (g != 1 && g != 3) || d != Flow {
      NothingShown();
      NothingSelected(db.obs, GaugeSources(env, g), d, Some(Since(env)));
    }
  }

  lemma SharedSince(now: int, parse: string -> Option<Expr>, power: Power)
    ensures Since(SharedEnv(now, parse, power)) == now - 30 * 86400
  {
  }

  lemma AgedEntries(now: int, g: int, d: DataType)
    ensures Lookup(AgedStore(now, Aged(now)).gauges, (g, d))
            == if d != Flow then None else if g == 1 then Some(Aged(now)) else if g == 3 then Some(Entry(12, now, 5.0)) else None
    ensures forall k :: k in AgedStore(now, Aged(now)).obs ==> k.dtype == Flow && (k.source == 10 || k.source == 12)
  {
    hide Aged;
  }

  lemma NothingSelected(obs: map<Key, real>, sources: set<int>, d: DataType, since: Option<int>)
    requires forall k :: k in obs ==> k.source !in sources || k.dtype != d
    ensures Select(obs, sources, d, since) == map[]
  {
  }

  lemma NothingShown()
    ensures Rollup(map[]) == None
  {
  }

  lemma AgedTurn(now: int, wait: nat, parse: string -> Option<Expr>, power: Power)
    requires ReadsBoth(parse) && wait <= 30 * 86400
    ensures Process(SharedEnv(now + wait, parse, power), AgedStore(now, Aged(now)), FIRST) == AgedStore(now, Later(now, wait))
  {
    hide *;
    var env, db := SharedEnv(now + wait, parse, power), AgedStore(now, Aged(now));
    AgedSteps(now, Later(now, wait));
    SharedOutcomes(now + wait, now, parse, power, db);
    SharedSources(now + wait, parse, power, 1);
    AgedShows(now, wait, Aged(now));
    TurnIs(env, db, FIRST, Key(10, Flow, now), 5.0, Aged(now), Later(now, wait));
  }

  lemma AgedSteps(now: int, shown: Latest)
    ensures var db := AgedStore(now, Aged(now));
            && Db(db.obs, db.latest[(10, Flow) := Aged(now)], db.gauges[(1, Flow) := shown]) == AgedStore(now, shown)
            && Lookup(db.gauges, (3, Flow)) == Some(Entry(12, now, 5.0))
    ensures Lookup(AgedStore(now, shown).gauges, (1, Flow)) == Some(shown)
  {
  }

  /** From a coherent store that a pass leaves alone, a later pass changes the entry of
      gauge g although nothing happened in between: the row of thirty days ago is no longer
      in the window, so the entry no longer shows it. */
  lemma PreviousLeaves(now: int, wait: nat, parse: string -> Option<Expr>, power: Power)
    requires ReadsBoth(parse) && 0 < wait <= 30 * 86400
    ensures Coherent(SharedEnv(now, parse, power), AgedStore(now, Aged(now)))
    ensures Pass(SharedEnv(now, parse, power), AgedStore(now, Aged(now)), [FIRST], 1) == AgedStore(now, Aged(now))
    ensures Pass(SharedEnv(now + wait, parse, power), AgedStore(now, Aged(now)), [FIRST], 1) == AgedStore(now, Entry(10, now, 5.0))
    ensures AgedStore(now, Entry(10, now, 5.0)) != AgedStore(now, Aged(now))
  {
    hide *;
    AgedCoherent(now, parse, power);
    AgedTurn(now, 0, parse, power);
    AgedTurn(now, wait, parse, power);
    AgedDiffers(now, wait);
    OneTurn(SharedEnv(now, parse, power), AgedStore(now, Aged(now)), FIRST);
    OneTurn(SharedEnv(now + wait, parse, power), AgedStore(now, Aged(now)), FIRST);
  }

  lemma AgedDiffers(now: int, wait: nat)
    requires wait > 0
    ensures Later(now, 0) == Aged(now) && Entry(10, now, 5.0) == Later(now, wait)
    ensures AgedStore(now, Entry(10, now, 5.0)) != AgedStore(now, Aged(now))
  {
    AgedSteps(now, Entry(10, now, 5.0));
    AgedSteps(now, Aged(now));
    hide AgedStore;
  }

  lemma OneTurn(env: Env, db: Db, s: Source)
    ensures Pass(env, db, [s], 1) == Process(env, db, s)
  {
    hide Process;
    assert Pass(env, db, [s], 0) == db;
  }
}
