/** One pass of the calculator over all calculated sources, writing into the store it
    reads from (calculator.py). */
module CalcPass {
  import opened Common
  import opened Observations
  import opened CalcOrder
  import opened CalcText
  import opened CalcExpr

  /** Everything a pass reads but does not write: the clock, the gauge tables, and
      Python's parser and float power. Gauge id 0 counts as no gauge. */
  datatype Env = Env(now: int, nameToGauge: map<string, int>, links: Links, linked: set<(int, int)>,
                     negativeOk: set<int>, parse: string -> Option<Expr>, power: Power)

  /** `linked` holds (gauge, source) pairs, several gauges per source allowed; the cache
      window of gauges is 30 days. */
  datatype Db = Db(obs: map<Key, real>, latest: map<(int, DataType), Latest>, gauges: map<(int, DataType), Latest>)

  function Since(env: Env): int { env.now - 30 * 86400 }

  function GaugeSources(env: Env, gauge: int): set<int> {
    set p | p in env.linked && p.0 == gauge :: p.1
  }

  function GaugeOf(env: Env, s: Source): int {
    GetOr(env.links.gaugeOf, s.id, 0)
  }

  // ---------------------------------------------------------------- resolving references

  datatype Resolved = Resolved(keys: seq<string>, values: map<string, real>, times: seq<int>)

  /** The cache entry a reference reads, if it is well formed. */
  function ReadKey(env: Env, ref: string): Option<(int, DataType)> {
    var ps := Pieces(ref, "");
    if |ps| < 2 then None else
    var (gauge, dtype) := if |ps| >= 3 then (ps[1], ps[2]) else (ps[0], ps[1]);
    var g := GetOr(env.nameToGauge, gauge, 0);
    var t := ParseDataType(dtype);
    if g == 0 || t.None? then None else Some((g, t.value))
  }

  /** The loop of _resolve_refs over the first references; None as soon as one fails. */
  function ResolveAll(env: Env, gauges: map<(int, DataType), Latest>, refs: seq<string>): (r: Option<Resolved>)
    ensures r.Some? ==> Elems(r.value.keys) == r.value.values.Keys == Elems(refs) && NoDup(r.value.keys)
    ensures r.Some? ==> |r.value.times| == |refs|
  {
    if refs == [] then Some(Resolved([], map[], []))
    else
      var ref := refs[|refs| - 1];
      assert refs == refs[..|refs| - 1] + [ref];
      var before := ResolveAll(env, gauges, refs[..|refs| - 1]);
      if before.None? then None else
      var k := ReadKey(env, ref);
      if k.None? || k.value !in gauges then None else
      var l := gauges[k.value];
      var Resolved(keys, values, times) := before.value;
      Some(Resolved(if ref in values then keys else keys + [ref], values[ref := l.value], times + [l.at]))
  }

  function Earliest(times: seq<int>): (m: int)
    requires times != []
    ensures m in times && forall t :: t in times ==> m <= t
  {
    if |times| == 1 then times[0]
    else
      assert times == [times[0]] + times[1..];
      var m := Earliest(times[1..]);
      if times[0] < m then times[0] else m
  }

  // ---------------------------------------------------------------- one source

  /** What one source computes from the caches: a row to store, or nothing. Every error
      of the program is caught before anything is written. */
  function Outcome(env: Env, gauges: map<(int, DataType), Latest>, s: Source): Option<(Key, real)> {
    var r := ResolveAll(env, gauges, Refs(s.timeExpression));
    if r.None? || r.value.times == [] then None else
    RefsNonEmpty(s.timeExpression);
    assert forall k :: k in r.value.keys ==> k in Elems(r.value.keys);
    assert forall k :: k in Elems(Refs(s.timeExpression)) ==> k in Refs(s.timeExpression);
    var tree := env.parse(RewriteText(s.expression, r.value.keys));
    if tree.None? then None else
    var v := Eval(tree.value, ValuesOf(r.value.keys, r.value.values), SafeFn, env.power);
    if v.Err? then None else
    var value := if s.id in env.negativeOk then v.v else MaxReal(0.0, v.v);
    var k := Key(s.id, s.dtype, Earliest(r.value.times));
    if Accepts(env.now, env.negativeOk, k, value) then Some((k, value)) else None
  }

  lemma {:induction false} WordsNonEmpty(s: string, word: string)
    ensures forall w :: w in Words(s, word) ==> w != ""
  {
    if s != "" {
      if IsSpace(s[0]) { WordsNonEmpty(s[1..], ""); } else { WordsNonEmpty(s[1..], word + [s[0]]); }
    }
  }

  lemma RefsNonEmpty(timeExpression: string)
    ensures forall w :: w in Refs(timeExpression) ==> w != ""
  {
    WordsNonEmpty(timeExpression, "");
  }

  ghost function WithEntry(cache: map<(int, DataType), Latest>, key: (int, DataType), entry: Option<Latest>): map<(int, DataType), Latest> {
    if entry.Some? then cache[key := entry.value] else cache - {key}
  }

  /** _process_calc_source: upsert the row, refresh the source's entry, then its gauge's. */
  ghost function Process(env: Env, db: Db, s: Source): Db {
    var o := Outcome(env, db.gauges, s);
    if o.None? then db else
    var obs := db.obs[o.value.0 := o.value.1];
    var g := GaugeOf(env, s);
    Db(obs,
       WithEntry(db.latest, (s.id, s.dtype), Rollup(Select(obs, {s.id}, s.dtype, None))),
       if g == 0 then db.gauges
       else WithEntry(db.gauges, (g, s.dtype), Rollup(Select(obs, GaugeSources(env, g), s.dtype, Some(Since(env))))))
  }

  /** The first n sources of an order, one after the other. */
  ghost function Pass(env: Env, db: Db, order: seq<Source>, n: nat): Db
    requires n <= |order|
  {
    if n == 0 then db else Process(env, Pass(env, db, order, n - 1), order[n - 1])
  }

  // ---------------------------------------------------------------- the database

  class Database {
    var obs: map<Key, real>
    var latest: map<(int, DataType), Latest>
    var gauges: map<(int, DataType), Latest>

    ghost function State(): Db
      reads this
    {
      Db(obs, latest, gauges)
    }

    method UpdateLatest(source: int, dtype: DataType)
      modifies this`latest
      ensures latest == WithEntry(old(latest), (source, dtype), Rollup(Select(obs, {source}, dtype, None)))
    {
      var l := ComputeRollup(Select(obs, {source}, dtype, None));
      latest := if l.Some? then latest[(source, dtype) := l.value] else latest - {(source, dtype)};
    }

    method UpdateLatestGauge(env: Env, gauge: int, dtype: DataType)
      modifies this`gauges
      ensures gauges == WithEntry(old(gauges), (gauge, dtype),
                                  Rollup(Select(obs, GaugeSources(env, gauge), dtype, Some(Since(env)))))
    {
      var l := ComputeRollup(Select(obs, GaugeSources(env, gauge), dtype, Some(Since(env))));
      gauges := if l.Some? then gauges[(gauge, dtype) := l.value] else gauges - {(gauge, dtype)};
    }

    method ResolveRefs(env: Env, timeExpression: string) returns (r: Option<Resolved>)
      ensures r == ResolveAll(env, gauges, Refs(timeExpression))
    {
      hide ReadKey, Refs;
      var refs := Refs(timeExpression);
      var keys, values, times := [], map[], [];
      var i := 0;
      while i < |refs|
        invariant 0 <= i <= |refs|
        invariant ResolveAll(env, gauges, refs[..i]) == Some(Resolved(keys, values, times))
      {
        var ref := refs[i];
        assert refs[..i + 1][..i] == refs[..i];
        var k := ReadKey(env, ref);
        if k.None? || k.value !in gauges {
          ResolveFails(env, gauges, refs, i + 1);
          return None;
        }
        var l := gauges[k.value];
        if ref !in values { keys := keys + [ref]; }
        values := values[ref := l.value];
        times := times + [l.at];
        i := i + 1;
      }
      assert refs[..i] == refs;
      return Some(Resolved(keys, values, times));
    }

    /** Everything up to the store: the row to write, if there is one. */
    method Evaluate(env: Env, s: Source) returns (o: Option<(Key, real)>)
      ensures o == Outcome(env, gauges, s)
    {
      hide Earliest, ValuesOf, Eval, RewriteText, Accepts;
      var r := ResolveRefs(env, s.timeExpression);
      if r.None? || r.value.times == [] { return None; }
      KeysNonEmpty(env, gauges, s.timeExpression);
      var expr, placeholders := SubstitutePlaceholders(s.expression, r.value.keys, r.value.values);
      assert placeholders == ValuesOf(r.value.keys, r.value.values) by { ValuesOfMeans(r.value.keys, r.value.values); }
      var tree := env.parse(expr);
      if tree.None? { return None; }
      var v := Eval(tree.value, placeholders, SafeFn, env.power);
      if v.Err? { return None; }
      var value := if s.id in env.negativeOk then v.v else MaxReal(0.0, v.v);
      var k := Key(s.id, s.dtype, Earliest(r.value.times));
      return if Accepts(env.now, env.negativeOk, k, value) then Some((k, value)) else None;
    }

    method ProcessCalcSource(env: Env, s: Source)
      modifies this
      ensures State() == Process(env, old(State()), s)
    {
      hide Outcome, Rollup;
      if s.timeExpression == "" {
        NoRefsNoOutcome(env, gauges, s);
        return;
      }
      var o := Evaluate(env, s);
      if o.Some? {
        obs := obs[o.value.0 := o.value.1];
        UpdateLatest(s.id, s.dtype);
        var g := GaugeOf(env, s);
        if g != 0 {
          UpdateLatestGauge(env, g, s.dtype);
        }
      }
    }

    /** The command: sort, then process in that order; a cycle stops it before any write. */
    method Calculator(env: Env, sources: seq<Source>) returns (res: TopoResult)
      modifies this
      ensures res.Circular? <==> exists b :: Blocked(env.links, sources, b)
      ensures res.Circular? ==> State() == old(State())
      ensures res.Sorted? ==>
                && multiset(res.order) == multiset(sources)
                && Ordered(env.links, GaugeNames(env.links, sources), res.order)
                && State() == Pass(env, old(State()), res.order, |res.order|)
    {
      res := TopoSort(sources, env.links);
      if res.Sorted? {
        var i := 0;
        while i < |res.order|
          invariant 0 <= i <= |res.order|
          invariant State() == Pass(env, old(State()), res.order, i)
        {
          ProcessCalcSource(env, res.order[i]);
          i := i + 1;
        }
      }
    }
  }

  lemma NoRefsNoOutcome(env: Env, gauges: map<(int, DataType), Latest>, s: Source)
    requires s.timeExpression == ""
    ensures Outcome(env, gauges, s) == None
  {
  }

  lemma KeysNonEmpty(env: Env, gauges: map<(int, DataType), Latest>, timeExpression: string)
    ensures var r := ResolveAll(env, gauges, Refs(timeExpression));
            r.Some? ==> forall k :: k in r.value.keys ==> k != "" && k in r.value.values
  {
    RefsNonEmpty(timeExpression);
    var r := ResolveAll(env, gauges, Refs(timeExpression));
    if r.Some? {
      assert forall k :: k in r.value.keys ==> k in Elems(r.value.keys);
      assert forall k :: k in Elems(Refs(timeExpression)) ==> k in Refs(timeExpression);
    }
  }

  lemma ValuesOfMeans(keys: seq<string>, values: map<string, real>)
    requires forall k :: k in keys ==> k in values
    ensures ValuesOf(keys, values) == PlaceholderValues(LongestFirst(keys), |LongestFirst(keys)|, values)
  {
  }

  lemma {:induction false} ResolveFails(env: Env, gauges: map<(int, DataType), Latest>, refs: seq<string>, n: nat)
    requires n <= |refs| && ResolveAll(env, gauges, refs[..n]).None?
    ensures ResolveAll(env, gauges, refs).None?
    decreases |refs|
  {
    if n < |refs| {
      var front := refs[..|refs| - 1];
      assert front[..n] == refs[..n];
      ResolveFails(env, gauges, front, n);
    } else {
      assert refs[..n] == refs;
    }
  }

  // ---------------------------------------------------------------- what a turn reads and computes

  predicate Readable(env: Env, gauges: map<(int, DataType), Latest>, ref: string) {
    ReadKey(env, ref).Some? && ReadKey(env, ref).value in gauges
  }

  function EntryRead(env: Env, gauges: map<(int, DataType), Latest>, ref: string): Latest
    requires Readable(env, gauges, ref)
  {
    gauges[ReadKey(env, ref).value]
  }

  ghost predicate AllReadable(env: Env, gauges: map<(int, DataType), Latest>, refs: seq<string>) {
    forall ref :: ref in refs ==> Readable(env, gauges, ref)
  }

  /** Position i of a resolution holds what the entry read there says. */
  ghost predicate HoldsRead(env: Env, gauges: map<(int, DataType), Latest>, refs: seq<string>, r: Resolved, i: nat)
    requires i < |refs| == |r.times| && Readable(env, gauges, refs[i])
  {
    && refs[i] in r.values && r.values[refs[i]] == EntryRead(env, gauges, refs[i]).value
    && r.times[i] == EntryRead(env, gauges, refs[i]).at
  }

  lemma ResolveStep(env: Env, gauges: map<(int, DataType), Latest>, refs: seq<string>)
    requires refs != []
    ensures var ref, before := refs[|refs| - 1], ResolveAll(env, gauges, refs[..|refs| - 1]);
            var after := ResolveAll(env, gauges, refs);
            && (after.Some? <==> before.Some? && Readable(env, gauges, ref))
            && (after.Some? ==>
                  var l := EntryRead(env, gauges, ref);
                  after.value.values == before.value.values[ref := l.value] && after.value.times == before.value.times + [l.at])
  {
    hide ReadKey;
  }

  /** A resolution succeeds exactly when every reference names a gauge and a type with an
      entry, and then it holds each entry's value and time. */
  lemma {:induction false} ResolvedReads(env: Env, gauges: map<(int, DataType), Latest>, refs: seq<string>)
    ensures ResolveAll(env, gauges, refs).Some? <==> AllReadable(env, gauges, refs)
    ensures ResolveAll(env, gauges, refs).Some? ==>
              forall i :: 0 <= i < |refs| ==> HoldsRead(env, gauges, refs, ResolveAll(env, gauges, refs).value, i)
  {
    hide Readable, EntryRead;
    if refs == [] {
      assert ResolveAll(env, gauges, refs) == Some(Resolved([], map[], []));
    } else {
      var front, last := refs[..|refs| - 1], refs[|refs| - 1];
      ResolvedReads(env, gauges, front);
      ResolveStep(env, gauges, refs);
      assert refs == front + [last];
      if ResolveAll(env, gauges, refs).Some? {
        hide ResolveAll, HoldsRead;
        forall i | 0 <= i < |refs| ensures HoldsRead(env, gauges, refs, ResolveAll(env, gauges, refs).value, i) {
          HoldsStep(env, gauges, refs, i);
        }
      }
    }
  }

  lemma HoldsStep(env: Env, gauges: map<(int, DataType), Latest>, refs: seq<string>, i: nat)
    requires i < |refs| && AllReadable(env, gauges, refs) && ResolveAll(env, gauges, refs).Some?
    requires ResolveAll(env, gauges, refs[..|refs| - 1]).Some?
    requires i < |refs| - 1 ==> Readable(env, gauges, refs[..|refs| - 1][i])
                                && HoldsRead(env, gauges, refs[..|refs| - 1], ResolveAll(env, gauges, refs[..|refs| - 1]).value, i)
    ensures Readable(env, gauges, refs[i]) && HoldsRead(env, gauges, refs, ResolveAll(env, gauges, refs).value, i)
  {
    ResolveStep(env, gauges, refs);
    hide ResolveAll, EntryRead;
  }

  /** Without a double colon there is one piece. */
  lemma {:induction false} PiecesNeedColons(s: string, piece: string)
    ensures !HasColons(s) ==> Pieces(s, piece) == [piece + s]
  {
    if s != "" {
      if "::" <= s { assert ColonsAt(s, 0); }
      PiecesNeedColons(s[1..], piece + [s[0]]);
      if !HasColons(s) {
        assert !HasColons(s[1..]) by {
          forall i ensures !ColonsAt(s[1..], i) { assert !ColonsAt(s, i + 1); }
        }
        assert piece + [s[0]] + s[1..] == piece + s;
      }
    } else {
      assert piece + s == piece;
    }
  }

  lemma ReadHasColons(env: Env, ref: string)
    requires ReadKey(env, ref).Some?
    ensures HasColons(ref)
  {
    PiecesNeedColons(ref, "");
  }

  /** The references a resolution yields are references as the rewriting needs them. */
  lemma ResolvedRefsOk(env: Env, gauges: map<(int, DataType), Latest>, refs: seq<string>)
    requires ResolveAll(env, gauges, refs).Some? && forall i :: 0 <= i < |refs| ==> RefChars(refs[i])
    ensures var r := ResolveAll(env, gauges, refs).value; RefsOk(r.keys, r.values)
  {
    hide HasColons, RefChars, ReadKey;
    ResolvedReads(env, gauges, refs);
    var r := ResolveAll(env, gauges, refs).value;
    forall k | k in r.keys ensures RefChars(k) && HasColons(k) {
      assert k in Elems(r.keys) && k in refs;
      var i :| 0 <= i < |refs| && refs[i] == k;
      ReadHasColons(env, k);
    }
  }

  /** The row a value becomes, if the store takes it. */
  function RowFor(env: Env, s: Source, v: real, times: seq<int>): Option<(Key, real)>
    requires times != []
  {
    var value := if s.id in env.negativeOk then v else MaxReal(0.0, v);
    var k := Key(s.id, s.dtype, Earliest(times));
    if Accepts(env.now, env.negativeOk, k, value) then Some((k, value)) else None
  }

  lemma OutcomeUnfolds(env: Env, gauges: map<(int, DataType), Latest>, s: Source, r: Resolved)
    requires ResolveAll(env, gauges, Refs(s.timeExpression)) == Some(r) && r.times != []
    ensures (forall k :: k in r.keys ==> k != "" && k in r.values)
    ensures var tree := env.parse(RewriteText(s.expression, r.keys));
            Outcome(env, gauges, s) ==
              if tree.None? then None else
              var v := Eval(tree.value, ValuesOf(r.keys, r.values), SafeFn, env.power);
              if v.Err? then None else RowFor(env, s, v.v, r.times)
  {
    KeysNonEmpty(env, gauges, s.timeExpression);
    hide Eval, ValuesOf, RewriteText, Refs, ResolveAll, Earliest, Accepts;
  }

  /** A source computes what its expression says with its references read directly: for any
      reading t of its text, and a parser that reads the rewritten text in the same way. */
  lemma OutcomeMeans(env: Env, gauges: map<(int, DataType), Latest>, s: Source, t: Text)
    requires Refs(s.timeExpression) != [] && ResolveAll(env, gauges, Refs(s.timeExpression)).Some?
    requires forall i :: 0 <= i < |Refs(s.timeExpression)| ==> RefChars(Refs(s.timeExpression)[i])
    requires Spell(t) == Tokens(s.expression) && TextOk(t) && CallsTight(t)
    requires var keys := ResolveAll(env, gauges, Refs(s.timeExpression)).value.keys;
             && RefsCovered(keys, Tokens(s.expression)) && NoPlaceholders(Tree(t), |keys|)
             && env.parse(Render(Spell(RenamedText(t, Names(keys))))) == Some(Tree(RenamedText(t, Names(keys))))
    ensures var r := ResolveAll(env, gauges, Refs(s.timeExpression)).value;
            var v := Eval(Tree(t), r.values, AuthorFn, env.power);
            Outcome(env, gauges, s) == if v.Err? then None else RowFor(env, s, v.v, r.times)
  {
    var r := ResolveAll(env, gauges, Refs(s.timeExpression)).value;
    ResolvedRefsOk(env, gauges, Refs(s.timeExpression));
    hide *;
    OutcomeUnfolds(env, gauges, s, r);
    RewritingPreservesMeaning(s.expression, t, r.keys, r.values, env.power);
  }
}
