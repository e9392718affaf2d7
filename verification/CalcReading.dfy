/** What a turn of the calculator reads and stores, in the terms of an author: how the
    references of a time expression name cache entries, and which row a source's
    expression gives (calculator.py, _resolve_refs and _process_calc_source). */
module CalcReading {
  import opened Common
  import opened Observations
  import opened CalcOrder
  import opened CalcText
  import opened CalcExpr
  import opened CalcMeaning
  import opened CalcPass

  // ---------------------------------------------------------------- references

  /** ASCII white space. */
  predicate White(c: char) {
    || c == ' ' || c == '\t' || c == '\n' || c == 11 as char || c == 12 as char || c == '\r'
    || c == 28 as char || c == 29 as char || c == 30 as char || c == 31 as char
  }

  lemma WhiteIff(c: char)
    ensures IsSpace(c) <==> White(c)
  {
  }

  predicate Unbroken(w: string) {
    w != "" && forall i :: 0 <= i < |w| ==> !White(w[i])
  }

  lemma UnbrokenWord(w: string)
    requires Unbroken(w)
    ensures Spaceless(w)
  {
    forall i | 0 <= i < |w| ensures !IsSpace(w[i]) { WhiteIff(w[i]); }
  }

  /** Words between spaces: each with the spaces behind it. */
  function Laid(words: seq<string>, gaps: seq<string>): string
    requires |gaps| == |words|
  {
    if words == [] then "" else words[0] + (gaps[0] + Laid(words[1..], gaps[1..]))
  }

  ghost predicate SpacesOnly(gap: string) {
    forall i :: 0 <= i < |gap| ==> White(gap[i])
  }

  lemma {:induction false} SkipSpaces(gap: string, rest: string)
    requires SpacesOnly(gap)
    ensures Words(gap + rest, "") == Words(rest, "")
  {
    if gap == "" {
      assert gap + rest == rest;
    } else {
      WhiteIff(gap[0]);
      assert (gap + rest)[1..] == gap[1..] + rest;
      SkipSpaces(gap[1..], rest);
    }
  }

  lemma {:induction false} FirstWord(w: string, gap: string, rest: string, word: string)
    requires Spaceless(w) && word + w != "" && SpacesOnly(gap) && gap != ""
    ensures Words(w + (gap + rest), word) == [word + w] + Words(rest, "")
  {
    var s := w + (gap + rest);
    if w == "" {
      WhiteIff(gap[0]);
      assert s == gap + rest && s[1..] == gap[1..] + rest && word + w == word;
      SkipSpaces(gap[1..], rest);
    } else {
      assert s[1..] == w[1..] + (gap + rest) && word + w == (word + [w[0]]) + w[1..];
      FirstWord(w[1..], gap, rest, word + [w[0]]);
    }
  }

  /** A time expression has exactly the references written in it, in order: words without
      spaces, each followed by at least one space (the last by any number), spaces in front. */
  lemma {:induction false} RefsAreWords(front: string, words: seq<string>, gaps: seq<string>)
    requires |gaps| == |words| && SpacesOnly(front)
    requires forall i :: 0 <= i < |words| ==> Unbroken(words[i]) && SpacesOnly(gaps[i])
    requires forall i :: 0 <= i < |words| - 1 ==> gaps[i] != ""
    ensures Refs(front + Laid(words, gaps)) == words
    decreases |words|
  {
    SkipSpaces(front, Laid(words, gaps));
    if words != [] {
      UnbrokenWord(words[0]);
      var rest := Laid(words[1..], gaps[1..]);
      RefsAreWords("", words[1..], gaps[1..]);
      assert "" + rest == rest;
      if gaps[0] == "" {
        assert Laid(words, gaps) == words[0] + ("" + rest) == words[0];
        OneWord(words[0], "");
        assert "" + words[0] == words[0] && words == [words[0]];
      } else {
        FirstWord(words[0], gaps[0], rest, "");
        assert "" + words[0] == words[0] && words == [words[0]] + words[1..];
      }
    }
  }

  /** The gauge of a reference: the middle of three parts, the first of two. */
  lemma GaugeOfParts(key: string, gauge: string, dtype: string)
    requires Colonless(key) && Colonless(gauge) && Colonless(dtype)
    ensures ReadGauge(key + "::" + (gauge + "::" + dtype)) == Some(gauge) == DepGauge(key + "::" + (gauge + "::" + dtype))
    ensures ReadGauge(gauge + "::" + dtype) == Some(gauge) == DepGauge(gauge + "::" + dtype)
    ensures ReadGauge(gauge) == None == DepGauge(gauge)
  {
    Split(key, gauge + "::" + dtype);
    Split(gauge, dtype);
    Split(dtype, "");
  }

  /** The text names the type. */
  predicate NamesType(text: string, t: DataType) {
    match t
    case Gauge => text == "gauge"
    case Flow => text == "flow"
    case Inflow => text == "inflow"
    case Temperature => text == "temperature"
  }

  predicate NamesEntry(env: Env, gauge: string, dtype: string, id: int, t: DataType) {
    gauge in env.nameToGauge && env.nameToGauge[gauge] == id && id != 0 && NamesType(dtype, t)
  }

  /** The entry a reference names: key::gauge::type, gauge::type, or more parts after the
      type, which change nothing; a text without a double colon names none. */
  lemma ReadKeyIff(env: Env, key: string, gauge: string, dtype: string, more: string, id: int, t: DataType)
    requires Colonless(key) && Colonless(gauge) && Colonless(dtype)
    ensures ReadKey(env, key + "::" + (gauge + "::" + dtype)) == Some((id, t)) <==> NamesEntry(env, gauge, dtype, id, t)
    ensures ReadKey(env, gauge + "::" + dtype) == Some((id, t)) <==> NamesEntry(env, gauge, dtype, id, t)
    ensures ReadKey(env, key + "::" + (gauge + "::" + (dtype + "::" + more))) == Some((id, t)) <==> NamesEntry(env, gauge, dtype, id, t)
    ensures ReadKey(env, gauge) == None
  {
    Split(key, gauge + "::" + dtype);
    Split(key, gauge + "::" + (dtype + "::" + more));
    Split(gauge, dtype + "::" + more);
    Split(gauge, dtype);
    Split(dtype, more);
    hide Pieces, Colonless;
  }

  // ---------------------------------------------------------------- the row stored

  /** The row (k, x) is what the source's expression gives: its meaning u with references
      read directly, zero for a negative u of a source not allowed them, at the earliest
      time read, and no more than an hour ahead. */
  ghost predicate Due(env: Env, s: Source, t: Text, r: Resolved, k: Key, x: real) {
    && (exists u :: Gives(Tree(t), r.values, true, env.power, Ok(u))
                    && x == if u < 0.0 && s.id !in env.negativeOk then 0.0 else u)
    && k.source == s.id && k.dtype == s.dtype
    && k.at in r.times && (forall at :: at in r.times ==> k.at <= at)
    && k.at <= env.now + 3600
  }

  lemma RowForIff(env: Env, s: Source, u: real, times: seq<int>, k: Key, x: real)
    requires times != []
    ensures RowFor(env, s, u, times) == Some((k, x)) <==>
            && x == (if u < 0.0 && s.id !in env.negativeOk then 0.0 else u)
            && k.source == s.id && k.dtype == s.dtype
            && k.at in times && (forall at :: at in times ==> k.at <= at)
            && k.at <= env.now + 3600
  {
  }

  /** Main result: for any reading t of a source's text, and a parser that reads the
      rewritten text in the same way, the turn stores exactly the row that is due. */
  lemma StoresIff(env: Env, gauges: map<(int, DataType), Latest>, s: Source, t: Text, k: Key, x: real)
    requires Refs(s.timeExpression) != [] && ResolveAll(env, gauges, Refs(s.timeExpression)).Some?
    requires forall i :: 0 <= i < |Refs(s.timeExpression)| ==> RefChars(Refs(s.timeExpression)[i])
    requires Spell(t) == Tokens(s.expression) && TextOk(t) && CallsTight(t)
    requires var keys := ResolveAll(env, gauges, Refs(s.timeExpression)).value.keys;
             && RefsCovered(keys, Tokens(s.expression)) && NoPlaceholders(Tree(t), |keys|)
             && env.parse(Render(Spell(RenamedText(t, Names(keys))))) == Some(Tree(RenamedText(t, Names(keys))))
    ensures Outcome(env, gauges, s) == Some((k, x)) <==>
            Due(env, s, t, ResolveAll(env, gauges, Refs(s.timeExpression)).value, k, x)
  {
    var r := ResolveAll(env, gauges, Refs(s.timeExpression)).value;
    assert r.times != [];
    hide *;
    OutcomeMeans(env, gauges, s, t);
    DueIff(env, s, t, r, k, x);
  }

  lemma DueIff(env: Env, s: Source, t: Text, r: Resolved, k: Key, x: real)
    requires r.times != []
    ensures var v := Eval(Tree(t), r.values, AuthorFn, env.power);
            Due(env, s, t, r, k, x) <==> v.Ok? && RowFor(env, s, v.v, r.times) == Some((k, x))
  {
    hide Gives, Eval, Tree, RowFor, AuthorFn;
    var v := Eval(Tree(t), r.values, AuthorFn, env.power);
    forall u ensures Gives(Tree(t), r.values, true, env.power, Ok(u)) <==> v == Ok(u) {
      AuthorsMeaning(Tree(t), r.values, env.power, Ok(u));
    }
    if v.Ok? { RowForIff(env, s, v.v, r.times, k, x); }
  }

  // ---------------------------------------------------------------- what a turn leaves

  /** Observations of one source and type. */
  function SeriesRows(obs: map<Key, real>, source: int, dtype: DataType): map<Key, real> {
    map k | k in obs && k.source == source && k.dtype == dtype :: obs[k]
  }

  /** Observations of one type from any source linked to the gauge, of the last 30 days. */
  function GaugeRows(env: Env, obs: map<Key, real>, gauge: int, dtype: DataType): map<Key, real> {
    map k | k in obs && (gauge, k.source) in env.linked && k.dtype == dtype && k.at >= env.now - 2592000 :: obs[k]
  }

  /** One cache entry is re-derived from the rows, or removed with them; no other changes. */
  ghost predicate Rederived(before: map<(int, DataType), Latest>, after: map<(int, DataType), Latest>, e: (int, DataType), rows: map<Key, real>) {
    && (if rows == map[] then e !in after else e in after && SaysLatest(rows, after[e]))
    && forall x :: x != e ==> Lookup(after, x) == Lookup(before, x)
  }

  /** What a turn does: nothing without a row, otherwise it stores it and re-derives the
      source's entry and, for a source linked to a gauge, the gauge's. */
  ghost predicate Turned(env: Env, s: Source, o: Option<(Key, real)>, before: Db, after: Db) {
    match o
    case None => after == before
    case Some((k, x)) =>
      && after.obs == before.obs[k := x]
      && Rederived(before.latest, after.latest, (s.id, s.dtype), SeriesRows(after.obs, s.id, s.dtype))
      && if s.id in env.links.gaugeOf && env.links.gaugeOf[s.id] != 0
         then Rederived(before.gauges, after.gauges, (env.links.gaugeOf[s.id], s.dtype), GaugeRows(env, after.obs, env.links.gaugeOf[s.id], s.dtype))
         else after.gauges == before.gauges
  }

  lemma EntryRederived(before: map<(int, DataType), Latest>, e: (int, DataType), rows: map<Key, real>)
    requires OneType(rows.Keys)
    ensures Rederived(before, WithEntry(before, e, Rollup(rows)), e, rows)
  {
    var l := Rollup(rows);
    RollupSome(rows);
    if l.Some? { RollupIff(rows, l.value); }
    hide Rollup, SaysLatest, OneType;
  }

  lemma RollupSome(rows: map<Key, real>)
    ensures Rollup(rows).None? <==> rows == map[]
  {
  }

  lemma SelectedRows(env: Env, obs: map<Key, real>, source: int, gauge: int, dtype: DataType)
    ensures Select(obs, {source}, dtype, None) == SeriesRows(obs, source, dtype)
    ensures Select(obs, GaugeSources(env, gauge), dtype, Some(Since(env))) == GaugeRows(env, obs, gauge, dtype)
  {
  }

  /** Main result: processing a source is such a turn. */
  lemma TurnMeans(env: Env, db: Db, s: Source)
    ensures Turned(env, s, Outcome(env, db.gauges, s), db, Process(env, db, s))
  {
    var o := Outcome(env, db.gauges, s);
    if o.Some? {
      var obs, g := db.obs[o.value.0 := o.value.1], GaugeOf(env, s);
      SelectedRows(env, obs, s.id, g, s.dtype);
      var own, all := SeriesRows(obs, s.id, s.dtype), GaugeRows(env, obs, g, s.dtype);
      assert OneType(own.Keys) && OneType(all.Keys);
      EntryRederived(db.latest, (s.id, s.dtype), own);
      EntryRederived(db.gauges, (g, s.dtype), all);
      hide Outcome, Rollup, Select, SeriesRows, GaugeRows, Rederived, WithEntry, OneType, GaugeSources, Since;
    }
  }

  /** A source's gauge name is that of the gauge it is linked to, empty without one; the
      message about a cycle falls back on the source's own name. */
  lemma GaugeNameIs(links: Links, sources: seq<Source>, i: nat)
    requires i < |sources| && -1 !in links.nameOf
    ensures var s := sources[i];
            var named := s.id in links.gaugeOf && links.gaugeOf[s.id] in links.nameOf;
            && GaugeName(links, s) == (if named then links.nameOf[links.gaugeOf[s.id]] else "")
            && |ReportNames(links, sources)| == |sources|
            && ReportNames(links, sources)[i] == (if named then links.nameOf[links.gaugeOf[s.id]] else s.name)
  {
  }
}
