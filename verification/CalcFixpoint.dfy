/** When one pass of the calculator settles the store (calculator.py): which orders of
    which sources make a second pass change nothing, at the same clock and later. */
module CalcFixpoint {
  import opened Common
  import opened Observations
  import opened CalcOrder
  import opened CalcText
  import opened CalcExpr
  import opened CalcPass

  // ---------------------------------------------------------------- who touches what

  function OwnKey(env: Env, s: Source): (int, DataType) {
    (GaugeOf(env, s), s.dtype)
  }

  /** The source writes this cache entry when it stores something. */
  predicate Writes(env: Env, s: Source, key: (int, DataType)) {
    GaugeOf(env, s) != 0 && key == OwnKey(env, s)
  }

  /** The cache entries a source reads. */
  function ReadSet(env: Env, s: Source): (keys: set<(int, DataType)>)
    ensures forall key :: key in keys <==> exists ref :: ref in Refs(s.timeExpression) && ReadKey(env, ref) == Some(key)
  {
    set ref | ref in Refs(s.timeExpression) && ReadKey(env, ref).Some? :: ReadKey(env, ref).value
  }

  /** The source's rows count for the entry u refreshes. */
  predicate Feeds(env: Env, s: Source, u: Source) {
    GaugeOf(env, u) != 0 && (GaugeOf(env, u), s.id) in env.linked && s.dtype == u.dtype
  }

  /** s runs after u, and what it stores may show in the entry u refreshes. It never does
      if its row always falls on the time of u's own row, which wins by the higher id. */
  predicate ShowsIn(env: Env, s: Source, u: Source) {
    Feeds(env, s, u) && (!Feeds(env, u, u) || ReadSet(env, s) - {OwnKey(env, u)} != ReadSet(env, u) || s.id > u.id)
  }

  /** Sources are told apart by id, and no two refresh the same entry. */
  ghost predicate Distinct(env: Env, order: seq<Source>) {
    forall i, j :: 0 <= i < j < |order| ==>
      order[i].id != order[j].id && !Writes(env, order[i], OwnKey(env, order[j]))
  }

  /** Whatever a source reads is final when its turn comes: neither it nor any later
      source writes it. */
  ghost predicate ReadsSettled(env: Env, order: seq<Source>) {
    forall i, j :: 0 <= i <= j < |order| ==> !(GaugeOf(env, order[j]) != 0 && OwnKey(env, order[j]) in ReadSet(env, order[i]))
  }

  /** Whatever an entry shows is final when it is refreshed: no later source shows in it. */
  ghost predicate FeedsSettled(env: Env, order: seq<Source>) {
    forall i, j :: 0 <= i < j < |order| ==> !ShowsIn(env, order[j], order[i])
  }

  ghost predicate Settled(env: Env, order: seq<Source>) {
    Distinct(env, order) && ReadsSettled(env, order) && FeedsSettled(env, order)
  }

  // ---------------------------------------------------------------- one turn

  lemma OutcomeKey(env: Env, gauges: map<(int, DataType), Latest>, s: Source)
    ensures var o := Outcome(env, gauges, s); o.Some? ==> o.value.0.source == s.id && o.value.0.dtype == s.dtype
  {
  }

  /** What a turn writes and what it leaves. */
  lemma TurnLeaves(env: Env, db: Db, t: Source)
    ensures forall k: Key :: k.source != t.id ==> Lookup(Process(env, db, t).obs, k) == Lookup(db.obs, k)
    ensures forall k: Key :: k in db.obs ==> k in Process(env, db, t).obs
    ensures forall e :: e != (t.id, t.dtype) ==> Lookup(Process(env, db, t).latest, e) == Lookup(db.latest, e)
    ensures forall key :: !Writes(env, t, key) ==> Lookup(Process(env, db, t).gauges, key) == Lookup(db.gauges, key)
  {
    hide Outcome, Rollup, Select;
    OutcomeKey(env, db.gauges, t);
  }

  ghost predicate SameReads(env: Env, s: Source, a: Db, b: Db) {
    forall key :: key in ReadSet(env, s) ==> Lookup(a.gauges, key) == Lookup(b.gauges, key)
  }

  lemma {:induction false} SameReadsSameResolve(env: Env, a: map<(int, DataType), Latest>, b: map<(int, DataType), Latest>, refs: seq<string>)
    requires forall ref, key :: ref in refs && ReadKey(env, ref) == Some(key) ==> Lookup(a, key) == Lookup(b, key)
    ensures ResolveAll(env, a, refs) == ResolveAll(env, b, refs)
  {
    if refs != [] {
      SameReadsSameResolve(env, a, b, refs[..|refs| - 1]);
      var ref := refs[|refs| - 1];
      var k := ReadKey(env, ref);
      if k.Some? { assert Lookup(a, k.value) == Lookup(b, k.value); }
    }
  }

  lemma SameReadsSameOutcome(env: Env, a: Db, b: Db, s: Source)
    requires SameReads(env, s, a, b)
    ensures Outcome(env, a.gauges, s) == Outcome(env, b.gauges, s)
  {
    hide ReadKey;
    forall ref, key | ref in Refs(s.timeExpression) && ReadKey(env, ref) == Some(key)
      ensures Lookup(a.gauges, key) == Lookup(b.gauges, key)
    {
      assert key in ReadSet(env, s);
    }
    SameReadsSameResolve(env, a.gauges, b.gauges, Refs(s.timeExpression));
  }

  /** The stamp of a stored row: the earliest time among the entries read. */
  lemma StampIs(env: Env, gauges: map<(int, DataType), Latest>, s: Source)
    ensures var o := Outcome(env, gauges, s);
            o.Some? ==>
              && (forall key :: key in ReadSet(env, s) ==> key in gauges && gauges[key].at >= o.value.0.at)
              && exists key :: key in ReadSet(env, s) && key in gauges && gauges[key].at == o.value.0.at
  {
    hide ReadKey, Eval, RewriteText, ValuesOf;
    var o, refs := Outcome(env, gauges, s), Refs(s.timeExpression);
    if o.Some? {
      var r := ResolveAll(env, gauges, refs).value;
      assert o.value.0.at == Earliest(r.times);
      ResolvedReads(env, gauges, refs);
      hide Outcome, ResolveAll, Refs;
      forall key | key in ReadSet(env, s) ensures key in gauges && gauges[key].at >= o.value.0.at {
        var ref :| ref in refs && ReadKey(env, ref) == Some(key);
        var i :| 0 <= i < |refs| && refs[i] == ref;
        assert Readable(env, gauges, ref) && HoldsRead(env, gauges, refs, r, i);
        assert r.times[i] in r.times;
      }
      var m :| 0 <= m < |r.times| && r.times[m] == Earliest(r.times);
      assert Readable(env, gauges, refs[m]) && HoldsRead(env, gauges, refs, r, m);
      assert ReadKey(env, refs[m]).value in ReadSet(env, s);
    }
  }

  // ---------------------------------------------------------------- rollups

  function GaugeRows(env: Env, obs: map<Key, real>, u: Source): map<Key, real> {
    Select(obs, GaugeSources(env, GaugeOf(env, u)), u.dtype, Some(Since(env)))
  }

  lemma IsGaugeRow(env: Env, obs: map<Key, real>, u: Source, k: Key)
    ensures k in GaugeRows(env, obs, u) <==>
            k in obs && (GaugeOf(env, u), k.source) in env.linked && k.dtype == u.dtype && k.at >= Since(env)
    ensures k in GaugeRows(env, obs, u) ==> GaugeRows(env, obs, u)[k] == obs[k]
  {
    var g := GaugeOf(env, u);
    assert k.source in GaugeSources(env, g) <==> (g, k.source) in env.linked by {
      if (g, k.source) in env.linked { assert (g, k.source).1 == k.source; }
    }
  }

  lemma NewestIs(keys: set<Key>, k: Key)
    requires keys != {} && OneType(keys) && IsNewest(k, keys)
    ensures Newest(keys) == k
  {
    NewestUnique(k, Newest(keys), keys);
  }

  /** A row next to one of the same time and a higher source id shows in no rollup. */
  lemma DominatedRow(rows: map<Key, real>, k: Key, v: real, top: Key)
    requires top in rows && top.at == k.at && top.source > k.source && top.dtype == k.dtype && OneType(rows.Keys)
    ensures Rollup(rows[k := v]) == Rollup(rows)
  {
    var more := rows[k := v];
    assert more.Keys == rows.Keys + {k};
    NewestWithout(rows.Keys, k, top);
    var n := Newest(rows.Keys);
    assert n != k && n in rows;
    var older, older2 := set o | o in rows.Keys && o.at <= n.at - LOOKBACK, set o | o in more.Keys && o.at <= n.at - LOOKBACK;
    if k in older2 {
      assert top in older;
      assert older2 == older + {k};
      NewestWithout(older, k, top);
    } else {
      assert older2 == older;
    }
    if older2 != {} && k !in older2 { assert Newest(older) != k; }
  }

  lemma NewestWithout(keys: set<Key>, k: Key, top: Key)
    requires top in keys && top.at == k.at && top.source > k.source && top.dtype == k.dtype && OneType(keys)
    ensures Newest(keys + {k}) == Newest(keys) != k
  {
    var n := Newest(keys);
    assert NotNewer(top, n);
    assert IsNewest(n, keys + {k});
    assert OneType(keys + {k});
    NewestIs(keys + {k}, n);
  }

  lemma SameMaps<V>(x: map<Key, V>, y: map<Key, V>)
    requires forall k :: Lookup(x, k) == Lookup(y, k)
    ensures x == y
  {
    forall k ensures (k in x <==> k in y) && (k in x ==> x[k] == y[k]) { assert Lookup(x, k) == Lookup(y, k); }
  }

  lemma GaugeRowsWith(env: Env, obs: map<Key, real>, u: Source, k: Key, v: real)
    ensures GaugeRows(env, obs[k := v], u) ==
            if (GaugeOf(env, u), k.source) in env.linked && k.dtype == u.dtype && k.at >= Since(env)
            then GaugeRows(env, obs, u)[k := v] else GaugeRows(env, obs, u)
  {
    var a, b := GaugeRows(env, obs[k := v], u), GaugeRows(env, obs, u);
    var c := if (GaugeOf(env, u), k.source) in env.linked && k.dtype == u.dtype && k.at >= Since(env) then b[k := v] else b;
    hide GaugeRows;
    forall l ensures Lookup(a, l) == Lookup(c, l) {
      IsGaugeRow(env, obs[k := v], u, l);
      IsGaugeRow(env, obs, u, l);
    }
    SameMaps(a, c);
  }

  lemma GaugeRowsOneType(env: Env, obs: map<Key, real>, u: Source)
    ensures OneType(GaugeRows(env, obs, u).Keys)
  {
  }

  // ---------------------------------------------------------------- what later turns leave

  /** The turns after position i leave source i's rows and its two cache entries and all it
      reads as they were just after its own turn. */
  lemma {:induction false} LaterTurns(env: Env, db: Db, order: seq<Source>, i: nat, n: nat)
    requires i < n <= |order| && Distinct(env, order) && ReadsSettled(env, order)
    ensures var a, z := Pass(env, db, order, i + 1), Pass(env, db, order, n);
            && (forall k: Key :: k.source == order[i].id ==> Lookup(a.obs, k) == Lookup(z.obs, k))
            && Lookup(a.latest, (order[i].id, order[i].dtype)) == Lookup(z.latest, (order[i].id, order[i].dtype))
            && (GaugeOf(env, order[i]) != 0 ==> Lookup(a.gauges, OwnKey(env, order[i])) == Lookup(z.gauges, OwnKey(env, order[i])))
            && SameReads(env, order[i], a, z)
    decreases n
  {
    hide Process, ReadSet;
    if i + 1 < n {
      LaterTurns(env, db, order, i, n - 1);
      TurnLeaves(env, Pass(env, db, order, n - 1), order[n - 1]);
    }
  }

  lemma OwnTurnKeepsReads(env: Env, db: Db, order: seq<Source>, i: nat)
    requires i < |order| && ReadsSettled(env, order)
    ensures SameReads(env, order[i], Process(env, db, order[i]), db)
  {
    hide Process, ReadSet;
    TurnLeaves(env, db, order[i]);
  }

  ghost function Shown(env: Env, db: Db, u: Source): Option<Latest> {
    Rollup(GaugeRows(env, db.obs, u))
  }

  /** What u's turn makes of its entry. */
  lemma TurnRefreshes(env: Env, db: Db, u: Source)
    requires Outcome(env, db.gauges, u).Some?
    ensures var (k, v) := Outcome(env, db.gauges, u).value;
            var after := Process(env, db, u);
            && after.obs == db.obs[k := v] && k.source == u.id && k.dtype == u.dtype
            && Lookup(after.latest, (u.id, u.dtype)) == Rollup(Select(after.obs, {u.id}, u.dtype, None))
            && (GaugeOf(env, u) != 0 ==> Lookup(after.gauges, OwnKey(env, u)) == Shown(env, after, u))
  {
    OutcomeKey(env, db.gauges, u);
    hide Outcome, Rollup, Select;
  }

  /** A later source that reads the same entries stamps its row no later than u did, and at
      u's very time if it still falls into the window. */
  lemma LateStamp(env: Env, db: Db, order: seq<Source>, i: nat, n: nat)
    requires i < n < |order| && Distinct(env, order) && ReadsSettled(env, order)
    requires Feeds(env, order[i], order[i]) && ReadSet(env, order[n]) - {OwnKey(env, order[i])} == ReadSet(env, order[i])
    requires Outcome(env, Pass(env, db, order, i).gauges, order[i]).Some?
    requires Outcome(env, Pass(env, db, order, n).gauges, order[n]).Some?
    ensures var k := Outcome(env, Pass(env, db, order, i).gauges, order[i]).value.0;
            var l := Outcome(env, Pass(env, db, order, n).gauges, order[n]).value.0;
            && k in Pass(env, db, order, n).obs
            && (l.at >= Since(env) ==> l.at == k.at)
  {
    var u, t := order[i], order[n];
    var b, a, z := Pass(env, db, order, i), Pass(env, db, order, i + 1), Pass(env, db, order, n);
    LaterTurns(env, db, order, i, n);
    OwnTurnKeepsReads(env, b, order, i);
    TurnRefreshes(env, b, u);
    StampIs(env, b.gauges, u);
    StampIs(env, z.gauges, t);
    hide Outcome, Process, ReadSet, Pass;
    var k := Outcome(env, b.gauges, u).value.0;
    var l := Outcome(env, z.gauges, t).value.0;
    assert Lookup(a.obs, k) == Lookup(z.obs, k);
    var low :| low in ReadSet(env, u) && low in b.gauges && b.gauges[low].at == k.at;
    assert low in ReadSet(env, t) && Lookup(z.gauges, low) == Lookup(b.gauges, low);
    assert l.at <= k.at;
    if l.at >= Since(env) {
      var at :| at in ReadSet(env, t) && at in z.gauges && z.gauges[at].at == l.at;
      if at in ReadSet(env, u) {
        assert Lookup(z.gauges, at) == Lookup(b.gauges, at);
      } else {
        assert at == OwnKey(env, u);
        ShownNotOlder(env, a, u, k);
      }
    }
  }

  /** A row of the window keeps its entry at least as recent. */
  lemma ShownNotOlder(env: Env, db: Db, u: Source, k: Key)
    requires Feeds(env, u, u) && k in db.obs && k.source == u.id && k.dtype == u.dtype && k.at >= Since(env)
    ensures Shown(env, db, u).Some? && Shown(env, db, u).value.at >= k.at
  {
    IsGaugeRow(env, db.obs, u, k);
    hide GaugeRows;
    var rows := GaugeRows(env, db.obs, u);
    assert NotNewer(k, Newest(rows.Keys));
  }

  /** A turn that does not show in u's entry leaves what the entry would show. */
  lemma QuietFeed(env: Env, db: Db, order: seq<Source>, i: nat, n: nat)
    requires i < n < |order| && Settled(env, order) && GaugeOf(env, order[i]) != 0
    requires Outcome(env, Pass(env, db, order, i).gauges, order[i]).Some?
    ensures Shown(env, Pass(env, db, order, n + 1), order[i]) == Shown(env, Pass(env, db, order, n), order[i])
  {
    var u, t := order[i], order[n];
    var z := Pass(env, db, order, n);
    var o := Outcome(env, z.gauges, t);
    assert !ShowsIn(env, t, u) && u.id != t.id;
    if o.Some? {
      TurnRefreshes(env, z, t);
      var (l, v) := o.value;
      GaugeRowsWith(env, z.obs, u, l, v);
      if Feeds(env, t, u) && l.at >= Since(env) {
        LateStamp(env, db, order, i, n);
        var k := Outcome(env, Pass(env, db, order, i).gauges, u).value.0;
        OutcomeKey(env, Pass(env, db, order, i).gauges, u);
        hide Outcome, Process, Pass, GaugeRows, Rollup;
        IsGaugeRow(env, z.obs, u, k);
        GaugeRowsOneType(env, z.obs, u);
        DominatedRow(GaugeRows(env, z.obs, u), l, v, k);
      }
    }
  }

  lemma {:induction false} ShownKept(env: Env, db: Db, order: seq<Source>, i: nat, n: nat)
    requires i < n <= |order| && Settled(env, order) && GaugeOf(env, order[i]) != 0
    requires Outcome(env, Pass(env, db, order, i).gauges, order[i]).Some?
    ensures Shown(env, Pass(env, db, order, n), order[i]) == Shown(env, Pass(env, db, order, i + 1), order[i])
    decreases n
  {
    hide Outcome, Process, Shown, Settled;
    if i + 1 < n {
      ShownKept(env, db, order, i, n - 1);
      QuietFeed(env, db, order, i, n - 1);
    }
  }

  /** A source's turn at the end of the pass, when it would store (k, v) once more. */
  lemma RepeatedTurn(env: Env, before: Db, end: Db, s: Source)
    requires Outcome(env, before.gauges, s).Some?
    requires forall k: Key :: k.source == s.id ==> Lookup(Process(env, before, s).obs, k) == Lookup(end.obs, k)
    requires Lookup(Process(env, before, s).latest, (s.id, s.dtype)) == Lookup(end.latest, (s.id, s.dtype))
    ensures var (k, v) := Outcome(env, before.gauges, s).value;
            && end.obs[k := v] == end.obs
            && Lookup(end.latest, (s.id, s.dtype)) == Rollup(Select(end.obs, {s.id}, s.dtype, None))
  {
    TurnRefreshes(env, before, s);
    hide Outcome, Process, Rollup;
    var (k, v) := Outcome(env, before.gauges, s).value;
    var first := before.obs[k := v];
    assert Lookup(first, k) == Some(v);
    SameOwnRows(first, end.obs, s.id, s.dtype);
  }

  lemma SameOwnRows(a: map<Key, real>, b: map<Key, real>, id: int, dtype: DataType)
    requires forall k: Key :: k.source == id ==> Lookup(a, k) == Lookup(b, k)
    ensures Select(a, {id}, dtype, None) == Select(b, {id}, dtype, None)
  {
    var x, y := Select(a, {id}, dtype, None), Select(b, {id}, dtype, None);
    forall l ensures Lookup(x, l) == Lookup(y, l) {
      if l.source == id { assert Lookup(a, l) == Lookup(b, l); }
    }
    SameMaps(x, y);
  }

  /** A turn that stores what is stored and refreshes two entries that are fresh is idle. */
  lemma FreshTurnIdle(env: Env, end: Db, s: Source)
    requires var o := Outcome(env, end.gauges, s);
             o.Some? ==>
               && end.obs[o.value.0 := o.value.1] == end.obs
               && Lookup(end.latest, (s.id, s.dtype)) == Rollup(Select(end.obs, {s.id}, s.dtype, None))
               && (GaugeOf(env, s) != 0 ==> Lookup(end.gauges, OwnKey(env, s)) == Shown(env, end, s))
    ensures Process(env, end, s) == end
  {
    hide Outcome, Rollup, Select;
    var o := Outcome(env, end.gauges, s);
    if o.Some? {
      var after := Process(env, end, s);
      assert after.obs == end.obs;
      SameMapsOf(after.latest, end.latest);
      SameMapsOf(after.gauges, end.gauges);
    }
  }

  lemma SameMapsOf<K, V>(x: map<K, V>, y: map<K, V>)
    ensures (forall k :: Lookup(x, k) == Lookup(y, k)) ==> x == y
  {
    if forall k :: Lookup(x, k) == Lookup(y, k) {
      forall k ensures (k in x <==> k in y) && (k in x ==> x[k] == y[k]) { assert Lookup(x, k) == Lookup(y, k); }
    }
  }

  /** What source i would do at the end of the pass: the same as in the pass, to rows and
      entries that already hold it. */
  lemma EndOfPass(env: Env, db: Db, order: seq<Source>, i: nat)
    requires i < |order| && Settled(env, order)
    ensures var end, s := Pass(env, db, order, |order|), order[i];
            var o := Outcome(env, end.gauges, s);
            o.Some? ==>
               && end.obs[o.value.0 := o.value.1] == end.obs
               && Lookup(end.latest, (s.id, s.dtype)) == Rollup(Select(end.obs, {s.id}, s.dtype, None))
               && (GaugeOf(env, s) != 0 ==> Lookup(end.gauges, OwnKey(env, s)) == Shown(env, end, s))
  {
    var b, a, end, s := Pass(env, db, order, i), Pass(env, db, order, i + 1), Pass(env, db, order, |order|), order[i];
    LaterTurns(env, db, order, i, |order|);
    OwnTurnKeepsReads(env, b, order, i);
    assert a == Process(env, b, s);
    hide Outcome, Process, ReadSet, Shown, Pass;
    assert SameReads(env, s, end, b);
    SameReadsSameOutcome(env, end, b, s);
    if Outcome(env, b.gauges, s).Some? {
      RepeatedTurn(env, b, end, s);
      TurnRefreshes(env, b, s);
      if GaugeOf(env, s) != 0 { ShownKept(env, db, order, i, |order|); }
    }
  }

  // ---------------------------------------------------------------- the same at a later clock

  /** No entry is more than an hour ahead of the clock; the store refuses such rows. */
  ghost predicate NoneAhead(env: Env, gauges: map<(int, DataType), Latest>) {
    forall key :: key in gauges ==> gauges[key].at <= env.now + 3600
  }

  ghost predicate RowsNotAhead(env: Env, obs: map<Key, real>) {
    forall k :: k in obs ==> k.at <= env.now + 3600
  }

  /** A pass over such a store keeps it so. */
  lemma {:induction false} NoneAheadKept(env: Env, db: Db, order: seq<Source>, n: nat)
    requires n <= |order| && NoneAhead(env, db.gauges) && RowsNotAhead(env, db.obs)
    ensures NoneAhead(env, Pass(env, db, order, n).gauges) && RowsNotAhead(env, Pass(env, db, order, n).obs)
  {
    hide Process;
    if n > 0 {
      NoneAheadKept(env, db, order, n - 1);
      NoneAheadTurn(env, Pass(env, db, order, n - 1), order[n - 1]);
    }
  }

  lemma NoneAheadTurn(env: Env, db: Db, s: Source)
    requires NoneAhead(env, db.gauges) && RowsNotAhead(env, db.obs)
    ensures NoneAhead(env, Process(env, db, s).gauges) && RowsNotAhead(env, Process(env, db, s).obs)
  {
    var after := Process(env, db, s);
    var o := Outcome(env, db.gauges, s);
    if o.Some? {
      assert o.value.0.at <= env.now + 3600;
      TurnRefreshes(env, db, s);
      TurnLeaves(env, db, s);
      hide Outcome, Process;
      forall key | key in after.gauges ensures after.gauges[key].at <= env.now + 3600 {
        if Writes(env, s, key) {
          var rows := GaugeRows(env, after.obs, s);
          IsGaugeRow(env, after.obs, s, Newest(rows.Keys));
        } else {
          assert Lookup(after.gauges, key) == Lookup(db.gauges, key);
        }
      }
    }
  }

  /** The clock matters to a turn only for what it accepts and for the window. */
  lemma {:induction false} ResolveIgnoresClock(env: Env, later: Env, gauges: map<(int, DataType), Latest>, refs: seq<string>)
    requires later == env.(now := later.now)
    ensures ResolveAll(later, gauges, refs) == ResolveAll(env, gauges, refs)
  {
    if refs != [] { ResolveIgnoresClock(env, later, gauges, refs[..|refs| - 1]); }
  }

  lemma LaterOutcome(env: Env, later: Env, gauges: map<(int, DataType), Latest>, s: Source)
    requires later == env.(now := later.now) && later.now >= env.now && NoneAhead(env, gauges)
    ensures Outcome(later, gauges, s) == Outcome(env, gauges, s)
  {
    var refs := Refs(s.timeExpression);
    ResolveIgnoresClock(env, later, gauges, refs);
    var r := ResolveAll(env, gauges, refs);
    if r.Some? && r.value.times != [] {
      ResolvedReads(env, gauges, refs);
      assert Earliest(r.value.times) <= env.now + 3600 by {
        var m :| 0 <= m < |r.value.times| && r.value.times[m] == Earliest(r.value.times);
        assert Readable(env, gauges, refs[m]) && HoldsRead(env, gauges, refs, r.value, m);
      }
    }
  }

  /** Both times an entry shows, its own and that of the row six hours back, are still in
      the window. */
  predicate Within(e: Latest, since: int) {
    e.at >= since && (e.prev.Some? ==> e.prev.value.0 >= since)
  }

  function Recent(rows: map<Key, real>, since: int): map<Key, real> {
    map k | k in rows && k.at >= since :: rows[k]
  }

  /** A rollup survives the loss of the rows before `since` exactly if it shows none of
      them; what survives of it otherwise has its time and value. */
  lemma RollupNarrows(rows: map<Key, real>, since: int)
    requires OneType(rows.Keys)
    ensures var e, f := Rollup(rows), Rollup(Recent(rows, since));
            && (e.None? ==> f.None?)
            && (e.Some? ==> (Within(e.value, since) <==> f == e))
            && (e.Some? && f.Some? ==> f.value.at == e.value.at && f.value.value == e.value.value)
  {
    var some := Recent(rows, since);
    if rows != map[] {
      var n := Newest(rows.Keys);
      assert n in rows.Keys;
      if n.at < since {
        assert forall k :: k in rows.Keys ==> NotNewer(k, n);
        assert some == map[];
      } else {
        assert n in some && OneType(some.Keys);
        NewestIs(some.Keys, n);
        OlderNarrows(rows, since, n.at - LOOKBACK);
      }
    }
  }

  lemma OlderNarrows(rows: map<Key, real>, since: int, limit: int)
    requires OneType(rows.Keys)
    ensures var a := set k | k in rows.Keys && k.at <= limit;
            var b := set k | k in Recent(rows, since).Keys && k.at <= limit;
            && (a == {} ==> b == {})
            && (a != {} && Newest(a).at < since ==> b == {})
            && (a != {} && Newest(a).at >= since ==> b != {} && Newest(b) == Newest(a))
  {
    var a := set k | k in rows.Keys && k.at <= limit;
    var b := set k | k in Recent(rows, since).Keys && k.at <= limit;
    assert b <= a;
    if a != {} {
      var p := Newest(a);
      assert p in a;
      if p.at < since {
        assert forall k :: k in a ==> NotNewer(k, p);
        assert b == {};
      } else {
        assert p in b;
        NewestIs(b, p);
      }
    }
  }

  lemma LaterShown(env: Env, later: Env, db: Db, s: Source)
    requires later == env.(now := later.now) && later.now >= env.now
    ensures var e, f := Shown(env, db, s), Shown(later, db, s);
            && (e.None? ==> f.None?)
            && (e.Some? ==> (Within(e.value, Since(later)) <==> f == e))
            && (e.Some? && f.Some? ==> f.value.at == e.value.at && f.value.value == e.value.value)
  {
    var a, b := GaugeRows(later, db.obs, s), GaugeRows(env, db.obs, s);
    GaugeRowsOneType(env, db.obs, s);
    hide GaugeRows, Rollup;
    forall k ensures Lookup(a, k) == Lookup(Recent(b, Since(later)), k) {
      IsGaugeRow(later, db.obs, s, k);
      IsGaugeRow(env, db.obs, s, k);
    }
    SameMaps(a, Recent(b, Since(later)));
    RollupNarrows(b, Since(later));
  }

  /** If the source runs, the entry it refreshes shows nothing that has left the window. */
  ghost predicate Stays(env: Env, later: Env, end: Db, s: Source) {
    Outcome(env, end.gauges, s).Some? && GaugeOf(env, s) != 0 && OwnKey(env, s) in end.gauges ==>
      Within(end.gauges[OwnKey(env, s)], Since(later))
  }

  /** Everything about two clocks and a settled pass that the lemmas below use. */
  ghost predicate TwoClocks(env: Env, later: Env, db: Db, order: seq<Source>) {
    && Settled(env, order) && later == env.(now := later.now) && later.now >= env.now
    && (later == env || NoneAhead(env, Pass(env, db, order, |order|).gauges))
  }

  /** An entry that is fresh at the earlier clock is fresh at the later one exactly if it
      stays. */
  lemma FreshStays(env: Env, later: Env, end: Db, s: Source)
    requires later == env.(now := later.now) && later.now >= env.now
    requires Outcome(env, end.gauges, s).Some? && GaugeOf(env, s) != 0
    requires Lookup(end.gauges, OwnKey(env, s)) == Shown(env, end, s)
    ensures Stays(env, later, end, s) <==> Lookup(end.gauges, OwnKey(env, s)) == Shown(later, end, s)
    ensures Survives(end.gauges, OwnKey(env, s), Shown(later, end, s))
  {
    LaterShown(env, later, end, s);
    hide Outcome, Shown;
  }

  /** What the entry is replaced by has its time and value. */
  predicate Survives(gauges: map<(int, DataType), Latest>, key: (int, DataType), shown: Option<Latest>) {
    shown.Some? ==> key in gauges && gauges[key].at == shown.value.at && gauges[key].value == shown.value.value
  }

  /** The row is there already, and the source's own entry says what its rows say. */
  ghost predicate Stored(end: Db, s: Source, row: (Key, real)) {
    && end.obs[row.0 := row.1] == end.obs
    && Lookup(end.latest, (s.id, s.dtype)) == Rollup(Select(end.obs, {s.id}, s.dtype, None))
  }

  /** What a source would do just after the pass, at the later clock. */
  lemma TurnAfter(env: Env, later: Env, db: Db, order: seq<Source>, i: nat)
    requires i < |order| && TwoClocks(env, later, db, order)
    ensures var end, s := Pass(env, db, order, |order|), order[i];
            Outcome(later, end.gauges, s) == Outcome(env, end.gauges, s)
    ensures var end, s := Pass(env, db, order, |order|), order[i];
            var o := Outcome(later, end.gauges, s);
            o.Some? ==>
              && Stored(end, s, o.value)
              && (GaugeOf(env, s) != 0 ==>
                    && Survives(end.gauges, OwnKey(env, s), Shown(later, end, s))
                    && (Stays(env, later, end, s) <==> Lookup(end.gauges, OwnKey(env, s)) == Shown(later, end, s)))
  {
    var end, s := Pass(env, db, order, |order|), order[i];
    hide Outcome, Shown, Settled, Pass, NoneAhead, Stays, Survives;
    EndOfPass(env, db, order, i);
    if later != env { LaterOutcome(env, later, end.gauges, s); }
    if Outcome(env, end.gauges, s).Some? && GaugeOf(env, s) != 0 { FreshStays(env, later, end, s); }
  }

  // ---------------------------------------------------------------- no change is taken back

  /** Entries may be missing, or have lost what they show of six hours back. */
  ghost predicate Narrowed(a: map<(int, DataType), Latest>, b: map<(int, DataType), Latest>) {
    forall key :: key in b ==> key in a && b[key].at == a[key].at && b[key].value == a[key].value
  }

  lemma {:induction false} NarrowedResolve(env: Env, a: map<(int, DataType), Latest>, b: map<(int, DataType), Latest>, refs: seq<string>)
    requires Narrowed(a, b) && ResolveAll(env, b, refs).Some?
    ensures ResolveAll(env, a, refs) == ResolveAll(env, b, refs)
  {
    hide ReadKey;
    if refs != [] { NarrowedResolve(env, a, b, refs[..|refs| - 1]); }
  }

  lemma NarrowedOutcome(env: Env, a: map<(int, DataType), Latest>, b: map<(int, DataType), Latest>, s: Source)
    requires Narrowed(a, b) && Outcome(env, b, s).Some?
    ensures Outcome(env, a, s) == Outcome(env, b, s)
  {
    NarrowedResolve(env, a, b, Refs(s.timeExpression));
  }

  /** A state of the later pass: rows and sources' entries as before, gauges' narrowed. */
  ghost predicate Behind(end: Db, mid: Db) {
    mid.obs == end.obs && mid.latest == end.latest && Narrowed(end.gauges, mid.gauges)
  }

  /** A turn of the later pass writes at most its own entry: what the later window shows. */
  lemma BehindTurn(env: Env, later: Env, db: Db, order: seq<Source>, i: nat, mid: Db)
    requires i < |order| && TwoClocks(env, later, db, order) && Behind(Pass(env, db, order, |order|), mid)
    ensures var end, s := Pass(env, db, order, |order|), order[i];
            var after := Process(later, mid, s);
            && Behind(end, after)
            && (forall key :: !Writes(env, s, key) ==> Lookup(after.gauges, key) == Lookup(mid.gauges, key))
            && (Outcome(later, mid.gauges, s).None? ==> after == mid)
            && (Outcome(later, mid.gauges, s).Some? && GaugeOf(env, s) != 0 ==>
                  Lookup(after.gauges, OwnKey(env, s)) == Shown(later, end, s))
  {
    var end, s := Pass(env, db, order, |order|), order[i];
    TurnAfter(env, later, db, order, i);
    hide Outcome, Shown, Pass, TwoClocks, Stored, Survives, Stays;
    if Outcome(later, mid.gauges, s).Some? {
      NarrowedOutcome(later, end.gauges, mid.gauges, s);
      BehindWrites(later, end, mid, s);
      ShownByObs(later, mid, end, s);
    }
  }

  lemma ShownByObs(env: Env, a: Db, b: Db, u: Source)
    requires a.obs == b.obs
    ensures Shown(env, a, u) == Shown(env, b, u)
  {
  }

  lemma BehindWrites(later: Env, end: Db, mid: Db, s: Source)
    requires Behind(end, mid) && Outcome(later, mid.gauges, s).Some? && Outcome(later, end.gauges, s) == Outcome(later, mid.gauges, s)
    requires Stored(end, s, Outcome(later, end.gauges, s).value)
    requires GaugeOf(later, s) != 0 ==> Survives(end.gauges, OwnKey(later, s), Shown(later, end, s))
    ensures Behind(end, Process(later, mid, s))
    ensures forall key :: !Writes(later, s, key) ==> Lookup(Process(later, mid, s).gauges, key) == Lookup(mid.gauges, key)
    ensures GaugeOf(later, s) != 0 ==> Lookup(Process(later, mid, s).gauges, OwnKey(later, s)) == Shown(later, mid, s)
  {
    TurnRefreshes(later, mid, s);
    TurnLeaves(later, mid, s);
    ShownByObs(later, mid, end, s);
    hide Outcome, Process, Shown, Rollup, Select;
    var after := Process(later, mid, s);
    SameMapsOf(after.latest, end.latest);
    forall key | key in after.gauges
      ensures key in end.gauges && after.gauges[key].at == end.gauges[key].at && after.gauges[key].value == end.gauges[key].value
    {
      if !Writes(later, s, key) { assert Lookup(after.gauges, key) == Lookup(mid.gauges, key); }
    }
  }

  /** The state differs in the entry u refreshes. */
  ghost predicate Moved(end: Db, mid: Db, key: (int, DataType)) {
    Behind(end, mid) && Lookup(mid.gauges, key) != Lookup(end.gauges, key)
  }

  /** The turn of a source whose entry has to change changes it. */
  lemma LeavingMoves(env: Env, later: Env, db: Db, order: seq<Source>, i: nat)
    requires i < |order| && TwoClocks(env, later, db, order)
    requires !Stays(env, later, Pass(env, db, order, |order|), order[i])
    ensures var end := Pass(env, db, order, |order|);
            Moved(end, Process(later, end, order[i]), OwnKey(env, order[i]))
  {
    var end := Pass(env, db, order, |order|);
    TurnAfter(env, later, db, order, i);
    assert Behind(end, end);
    BehindTurn(env, later, db, order, i, end);
  }

  /** No other turn moves it back: at most its own source writes it. */
  lemma StaysMoved(env: Env, later: Env, db: Db, order: seq<Source>, i: nat, j: nat, mid: Db)
    requires i < |order| && j < |order| && TwoClocks(env, later, db, order)
    requires !Stays(env, later, Pass(env, db, order, |order|), order[i])
    requires Moved(Pass(env, db, order, |order|), mid, OwnKey(env, order[i]))
    ensures Moved(Pass(env, db, order, |order|), Process(later, mid, order[j]), OwnKey(env, order[i]))
  {
    var end := Pass(env, db, order, |order|);
    TurnAfter(env, later, db, order, i);
    BehindTurn(env, later, db, order, j, mid);
    OneWriter(env, order, i, j);
    hide Process, Outcome, Shown, Pass, TwoClocks, Behind;
    assert GaugeOf(env, order[i]) != 0;
  }

  lemma OneWriter(env: Env, order: seq<Source>, i: nat, j: nat)
    requires i < |order| && j < |order| && Settled(env, order) && GaugeOf(env, order[i]) != 0
    ensures Writes(env, order[j], OwnKey(env, order[i])) ==> i == j
  {
  }

  /** From the turn of a source whose entry has to change on, that entry stays changed. */
  lemma {:induction false} ChangeStays(env: Env, later: Env, db: Db, order: seq<Source>, again: seq<Source>, i: nat, m: nat, n: nat)
    requires m < n <= |again| && (forall s :: s in again ==> s in order) && TwoClocks(env, later, db, order)
    requires i < |order| && again[m] == order[i] && !Stays(env, later, Pass(env, db, order, |order|), order[i])
    requires Pass(later, Pass(env, db, order, |order|), again, m) == Pass(env, db, order, |order|)
    ensures var end := Pass(env, db, order, |order|);
            Moved(end, Pass(later, end, again, n), OwnKey(env, order[i]))
    decreases n
  {
    hide Process, Outcome, TwoClocks, Moved, Stays;
    var end := Pass(env, db, order, |order|);
    assert Pass(later, end, again, n) == Process(later, Pass(later, end, again, n - 1), again[n - 1]);
    assert again[n - 1] in order;
    var j :| 0 <= j < |order| && order[j] == again[n - 1];
    if n - 1 == m {
      LeavingMoves(env, later, db, order, i);
    } else {
      ChangeStays(env, later, db, order, again, i, m, n - 1);
      StaysMoved(env, later, db, order, i, j, Pass(later, end, again, n - 1));
    }
  }

  /** As long as every entry stays, the later pass is idle. */
  lemma {:induction false} StayingIdle(env: Env, later: Env, db: Db, order: seq<Source>, again: seq<Source>, n: nat)
    requires n <= |again| && (forall s :: s in again ==> s in order) && TwoClocks(env, later, db, order)
    requires forall k :: 0 <= k < n ==> Stays(env, later, Pass(env, db, order, |order|), again[k])
    ensures Pass(later, Pass(env, db, order, |order|), again, n) == Pass(env, db, order, |order|)
  {
    if n > 0 {
      var end := Pass(env, db, order, |order|);
      StayingIdle(env, later, db, order, again, n - 1);
      assert again[n - 1] in order;
      var i :| 0 <= i < |order| && order[i] == again[n - 1];
      TurnAfter(env, later, db, order, i);
      FreshTurnIdle(later, end, order[i]);
    }
  }

  /** Main result: after a settled pass, for every store, parser and expressions, a later
      pass of any of the sources in any order stores the same rows and changes nothing if
      and only if no entry that one of them refreshes shows a row that has left the 30-day
      window since. (No entry read may be more than an hour ahead of the first clock; the
      store never holds one, see NoneAheadKept.) */
  lemma LaterPassIdleIff(env: Env, later: Env, db: Db, order: seq<Source>, again: seq<Source>)
    requires Settled(env, order) && forall s :: s in again ==> s in order
    requires later == env.(now := later.now) && later.now >= env.now
    requires later == env || NoneAhead(env, Pass(env, db, order, |order|).gauges)
    ensures var end := Pass(env, db, order, |order|);
            Pass(later, end, again, |again|) == end <==> forall s :: s in again ==> Stays(env, later, end, s)
  {
    hide Settled, Stays, Pass, NoneAhead;
    var end := Pass(env, db, order, |order|);
    assert TwoClocks(env, later, db, order);
    hide TwoClocks;
    if m :| FirstLeaving(env, later, end, again, m) {
      StayingIdle(env, later, db, order, again, m);
      assert again[m] in order;
      var i :| 0 <= i < |order| && order[i] == again[m];
      ChangeStays(env, later, db, order, again, i, m, |again|);
      assert !Stays(env, later, end, again[m]);
    } else {
      NoneLeaving(env, later, end, again, |again|);
      StayingIdle(env, later, db, order, again, |again|);
    }
  }

  ghost predicate FirstLeaving(env: Env, later: Env, end: Db, again: seq<Source>, m: int) {
    0 <= m < |again| && !Stays(env, later, end, again[m]) && forall k :: 0 <= k < m ==> Stays(env, later, end, again[k])
  }

  lemma {:induction false} NoneLeaving(env: Env, later: Env, end: Db, again: seq<Source>, n: nat)
    requires n <= |again| && forall m :: !FirstLeaving(env, later, end, again, m)
    ensures forall k :: 0 <= k < n ==> Stays(env, later, end, again[k])
  {
    hide Stays;
    if n > 0 {
      NoneLeaving(env, later, end, again, n - 1);
      assert !FirstLeaving(env, later, end, again, n - 1);
    }
  }

  /** At the same clock nothing can have left: after a settled pass any further turns of its
      sources change nothing. */
  lemma SamePassIdle(env: Env, db: Db, order: seq<Source>, again: seq<Source>)
    requires Settled(env, order) && forall s :: s in again ==> s in order
    ensures var end := Pass(env, db, order, |order|); Pass(env, end, again, |again|) == end
  {
    var end := Pass(env, db, order, |order|);
    forall s | s in again ensures Stays(env, env, end, s) {
      assert s in order;
      var i :| 0 <= i < |order| && order[i] == s;
      hide Outcome, Shown, Settled, Pass;
      EndOfPass(env, db, order, i);
      LaterShown(env, env, end, s);
    }
    LaterPassIdleIff(env, env, db, order, again);
  }

  // ---------------------------------------------------------------- from the sort to settled orders

  /** Calculated sources are told apart by id, and a calculated source shares none of
      its gauges with another and is linked to no gauge but the one it refreshes. */
  ghost predicate OwnGauges(env: Env, order: seq<Source>) {
    && (forall i, j :: 0 <= i < j < |order| ==> order[i].id != order[j].id)
    && (forall i, g :: 0 <= i < |order| && (g, order[i].id) in env.linked ==> g == GaugeOf(env, order[i]))
    && (forall i, j :: 0 <= i < j < |order| && GaugeOf(env, order[i]) != 0 ==> GaugeOf(env, order[i]) != GaugeOf(env, order[j]))
  }

  /** Gauge names and positive gauge ids correspond one to one, and linked gauges exist. */
  ghost predicate NamesMatch(env: Env) {
    && (forall name :: name in env.nameToGauge ==> Lookup(env.links.nameOf, env.nameToGauge[name]) == Some(name))
    && (forall g :: g in env.links.nameOf ==>
          g > 0 && env.links.nameOf[g] != "" && Lookup(env.nameToGauge, env.links.nameOf[g]) == Some(g))
  }

  /** Every reference has two or three parts, and no source reads its own series: the
      data type it writes on its own gauge. */
  ghost predicate PlainRefs(env: Env, order: seq<Source>) {
    && (forall i, ref :: 0 <= i < |order| && ref in Refs(order[i].timeExpression) ==> |Pieces(ref, "")| <= 3)
    && (forall i :: 0 <= i < |order| && GaugeOf(env, order[i]) != 0 ==> OwnKey(env, order[i]) !in ReadSet(env, order[i]))
  }

  lemma NamedGauge(env: Env, s: Source, name: string)
    requires NamesMatch(env) && name in env.nameToGauge && env.nameToGauge[name] != 0
    ensures GaugeName(env.links, s) == name <==> GaugeOf(env, s) == env.nameToGauge[name]
  {
    assert Lookup(env.links.nameOf, env.nameToGauge[name]) == Some(name);
    if GaugeName(env.links, s) == name {
      var g := GetOr(env.links.gaugeOf, s.id, -1);
      assert g in env.links.nameOf;
      assert Lookup(env.nameToGauge, name) == Some(g);
    }
  }

  lemma RefIsDep(links: Links, calcNames: set<string>, s: Source, ref: string, name: string)
    requires ref in Refs(s.timeExpression) && DepGauge(ref) == Some(name)
    requires name in calcNames && name != GaugeName(links, s)
    ensures name in Deps(links, calcNames, s)
  {
  }

  /** The gauge name behind a read; with at most three parts it is also the dependency. */
  lemma ReadNames(env: Env, ref: string, key: (int, DataType)) returns (name: string)
    requires ReadKey(env, ref) == Some(key) && |Pieces(ref, "")| <= 3
    ensures name in env.nameToGauge && env.nameToGauge[name] == key.0 != 0 && DepGauge(ref) == Some(name)
  {
    var ps := Pieces(ref, "");
    name := if |ps| >= 3 then ps[1] else ps[0];
  }

  lemma WritersComeFirst(env: Env, order: seq<Source>, i: nat, j: nat, key: (int, DataType))
    requires OwnGauges(env, order) && NamesMatch(env) && PlainRefs(env, order)
    requires Ordered(env.links, GaugeNames(env.links, order), order)
    requires i < j < |order| && key in ReadSet(env, order[i])
    ensures !Writes(env, order[j], key)
  {
    var calcNames := GaugeNames(env.links, order);
    var ref :| ref in Refs(order[i].timeExpression) && ReadKey(env, ref) == Some(key);
    var name := ReadNames(env, ref, key);
    hide NamesMatch, Deps, GaugeName, Refs, ReadKey, PlainRefs, ReadSet;
    NamedGauge(env, order[i], name);
    NamedGauge(env, order[j], name);
    if GaugeOf(env, order[j]) == key.0 && GaugeOf(env, order[i]) != key.0 {
      assert order[j] in order;
      RefIsDep(env.links, calcNames, order[i], ref, name);
      assert Emitted(env.links, order[..i], name);
      var t :| t in order[..i] && GaugeName(env.links, t) == name;
      var k :| 0 <= k < i && order[k] == t;
      NamedGauge(env, order[k], name);
    }
  }

  /** A topological order settles all reads, and own gauges settle all feeds. */
  lemma OrderSettles(env: Env, order: seq<Source>)
    requires OwnGauges(env, order) && NamesMatch(env) && PlainRefs(env, order)
    requires Ordered(env.links, GaugeNames(env.links, order), order)
    ensures Settled(env, order)
  {
    hide ReadSet, Ordered, NamesMatch;
    forall i, j | 0 <= i <= j < |order| && GaugeOf(env, order[j]) != 0
      ensures OwnKey(env, order[j]) !in ReadSet(env, order[i])
    {
      if i < j && OwnKey(env, order[j]) in ReadSet(env, order[i]) {
        WritersComeFirst(env, order, i, j, OwnKey(env, order[j]));
      }
    }
  }

  /** Main result: after one pass in a topological order, with one calculated source per
      gauge and plain references, a pass with no new input, at the same or any later clock
      and in any order of the same sources, leaves rows and caches unchanged if and only if
      no entry it refreshes shows a row that has left the window. */
  lemma OnePassIsFixpoint(env: Env, later: Env, db: Db, order: seq<Source>, again: seq<Source>)
    requires OwnGauges(env, order) && NamesMatch(env) && PlainRefs(env, order)
    requires Ordered(env.links, GaugeNames(env.links, order), order)
    requires forall s :: s in again ==> s in order
    requires later == env.(now := later.now) && later.now >= env.now
    requires later == env || (NoneAhead(env, db.gauges) && RowsNotAhead(env, db.obs))
    ensures var end := Pass(env, db, order, |order|);
            Pass(later, end, again, |again|) == end <==> forall s :: s in again ==> Stays(env, later, end, s)
  {
    hide Stays, Pass;
    OrderSettles(env, order);
    if later != env { NoneAheadKept(env, db, order, |order|); }
    LaterPassIdleIff(env, later, db, order, again);
  }

  /** In such a pass every source reads the final values: what it reads when its turn
      comes is what the caches hold at the end. */
  lemma ReadsAreFinal(env: Env, db: Db, order: seq<Source>, i: nat)
    requires OwnGauges(env, order) && NamesMatch(env) && PlainRefs(env, order)
    requires Ordered(env.links, GaugeNames(env.links, order), order)
    requires i < |order|
    ensures SameReads(env, order[i], Pass(env, db, order, i), Pass(env, db, order, |order|))
  {
    OrderSettles(env, order);
    hide Process, ReadSet;
    LaterTurns(env, db, order, i, |order|);
    OwnTurnKeepsReads(env, Pass(env, db, order, i), order, i);
  }
}
