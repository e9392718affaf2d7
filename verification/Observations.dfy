/** Observations, what the store accepts, and the newest-row rollups behind the two
    latest caches (db/observations.py, db/cache.py). */
module Observations {
  import opened Common

  datatype DataType = Gauge | Flow | Inflow | Temperature

  /** The primary key of an observation; `at` in whole seconds, UTC. */
  datatype Key = Key(source: int, dtype: DataType, at: int)

  function ParseDataType(s: string): Option<DataType> {
    if s == "gauge" then Some(Gauge) else if s == "flow" then Some(Flow)
    else if s == "inflow" then Some(Inflow) else if s == "temperature" then Some(Temperature) else None
  }

  /** store_observation refuses times more than an hour ahead and, unless the source is
      allowed them, negative flows. */
  predicate Accepts(now: int, negativeOk: set<int>, k: Key, value: real) {
    && k.at <= now + 3600
    && (k.dtype == Flow && value < 0.0 ==> k.source in negativeOk)
  }

  /** A cache row: newest observation, the newest at least six hours older, the trend. */
  datatype Latest = Latest(source: int, at: int, value: real, prev: Option<(int, real)>, perHour: Option<real>)

  const LOOKBACK := 6 * 3600

  /** ORDER BY observed_at DESC, source_id DESC. */
  predicate NotNewer(a: Key, b: Key) {
    a.at < b.at || (a.at == b.at && a.source <= b.source)
  }

  ghost predicate IsNewest(n: Key, keys: set<Key>) {
    n in keys && forall k :: k in keys ==> NotNewer(k, n)
  }

  ghost predicate OneType(keys: set<Key>) {
    forall k, l :: k in keys && l in keys ==> k.dtype == l.dtype
  }

  lemma NewestUnique(a: Key, b: Key, keys: set<Key>)
    requires OneType(keys) && IsNewest(a, keys) && IsNewest(b, keys)
    ensures a == b
  {
  }

  lemma {:induction false} NewestExists(keys: set<Key>)
    requires keys != {}
    ensures exists n :: IsNewest(n, keys)
  {
    var k :| k in keys;
    if keys == {k} {
      assert IsNewest(k, keys);
    } else {
      NewestExists(keys - {k});
      var m :| IsNewest(m, keys - {k});
      var n := if NotNewer(k, m) then m else k;
      assert forall j :: j in keys ==> j == k || (j in keys - {k} && NotNewer(j, m));
      assert IsNewest(n, keys);
    }
  }

  ghost function Newest(keys: set<Key>): (n: Key)
    requires keys != {}
    ensures IsNewest(n, keys)
  {
    NewestExists(keys);
    var n :| IsNewest(n, keys);
    n
  }

  method FindNewest(keys: set<Key>) returns (n: Key)
    requires keys != {} && OneType(keys)
    ensures n == Newest(keys)
  {
    n :| n in keys;
    var todo := keys - {n};
    while todo != {}
      invariant todo <= keys && IsNewest(n, keys - todo)
      decreases todo
    {
      var k :| k in todo;
      ghost var m := n;
      if !NotNewer(k, n) { n := k; }
      todo := todo - {k};
      assert forall j :: j in keys - todo ==> j == k || NotNewer(j, m);
    }
    assert keys - todo == keys;
    NewestUnique(n, Newest(keys), keys);
  }

  function Trend(at: int, value: real, prevAt: int, prevValue: real): real
    requires prevAt < at
  {
    (value - prevValue) / ((at - prevAt) as real / 3600.0)
  }

  function Older(rows: map<Key, real>, at: int): set<Key> {
    set k | k in rows.Keys && k.at <= at - LOOKBACK
  }

  /** The cache row for a set of observations of one type. */
  ghost function Rollup(rows: map<Key, real>): Option<Latest> {
    if rows == map[] then None
    else
      var n := Newest(rows.Keys);
      var older := Older(rows, n.at);
      if older == {} then Some(Latest(n.source, n.at, rows[n], None, None))
      else
        var p := Newest(older);
        Some(Latest(n.source, n.at, rows[n], Some((p.at, rows[p])), Some(Trend(n.at, rows[n], p.at, rows[p]))))
  }

  /** n is the row at `at`: no other row is newer, nor as new with a larger source. */
  ghost predicate NewestRow(rows: map<Key, real>, n: Key) {
    n in rows && forall k :: k in rows ==> k.at < n.at || (k.at == n.at && k.source <= n.source)
  }

  /** p is the newest row six hours or more before `at`. */
  ghost predicate PreviousRow(rows: map<Key, real>, at: int, p: Key) {
    p in rows && p.at <= at - 21600
    && forall k :: k in rows && k.at <= at - 21600 ==> k.at < p.at || (k.at == p.at && k.source <= p.source)
  }

  /** The cache row says what the rows are: the newest, the newest at least six hours
      older if there is one, and the change between them for each hour. */
  ghost predicate SaysLatest(rows: map<Key, real>, l: Latest) {
    && (exists n :: NewestRow(rows, n) && l.source == n.source && l.at == n.at && l.value == rows[n])
    && match l.prev
       case None => l.perHour.None? && forall k :: k in rows ==> k.at > l.at - 21600
       case Some((at, value)) =>
         && (exists p :: PreviousRow(rows, l.at, p) && p.at == at && rows[p] == value)
         && l.perHour.Some? && l.perHour.value * (l.at - at) as real == (l.value - value) * 3600.0
  }

  lemma TrendIs(at: int, value: real, prevAt: int, prevValue: real, t: real)
    requires prevAt < at
    ensures t * (at - prevAt) as real == (value - prevValue) * 3600.0 <==> t == Trend(at, value, prevAt, prevValue)
  {
    PerHour((at - prevAt) as real, value - prevValue, t);
  }

  lemma PerHour(seconds: real, change: real, t: real)
    requires seconds > 0.0
    ensures t * seconds == change * 3600.0 <==> t == change / (seconds / 3600.0)
  {
    var hours := seconds / 3600.0;
    assert seconds == 3600.0 * hours && hours > 0.0;
    InHours(t, hours);
    Rate(change, hours, t);
  }

  lemma InHours(t: real, hours: real)
    ensures t * (3600.0 * hours) == 3600.0 * (t * hours)
  {
  }

  lemma Rate(change: real, hours: real, t: real)
    requires hours > 0.0
    ensures t * hours == change <==> t == change / hours
  {
    assert change / hours * hours == change && (t * hours) / hours == t;
  }

  lemma NewestIff(rows: map<Key, real>, n: Key)
    requires OneType(rows.Keys) && rows != map[]
    ensures NewestRow(rows, n) <==> n == Newest(rows.Keys)
  {
    if NewestRow(rows, n) {
      assert IsNewest(n, rows.Keys);
      NewestUnique(n, Newest(rows.Keys), rows.Keys);
    }
  }

  lemma PreviousIff(rows: map<Key, real>, at: int, p: Key)
    requires OneType(rows.Keys) && Older(rows, at) != {}
    ensures PreviousRow(rows, at, p) <==> p == Newest(Older(rows, at))
  {
    assert forall k :: k in rows && k.at <= at - 21600 <==> k in Older(rows, at);
    if PreviousRow(rows, at, p) {
      assert IsNewest(p, Older(rows, at));
      NewestUnique(p, Newest(Older(rows, at)), Older(rows, at));
    }
  }

  /** Main result: the cache row is the one described, and nothing else is. */
  lemma RollupIff(rows: map<Key, real>, l: Latest)
    requires OneType(rows.Keys)
    ensures Rollup(rows) == Some(l) <==> SaysLatest(rows, l)
  {
    if rows != map[] {
      var n := Newest(rows.Keys);
      forall m ensures NewestRow(rows, m) <==> m == n { NewestIff(rows, m); }
      assert forall k :: k in rows && k.at <= n.at - 21600 <==> k in Older(rows, n.at);
      if Older(rows, n.at) != {} {
        var p := Newest(Older(rows, n.at));
        forall q ensures PreviousRow(rows, n.at, q) <==> q == p { PreviousIff(rows, n.at, q); }
        if l.perHour.Some? { TrendIs(n.at, rows[n], p.at, rows[p], l.perHour.value); }
        hide Trend, Newest, OneType, NewestRow, PreviousRow, Older;
      }
    }
  }

  method ComputeRollup(rows: map<Key, real>) returns (l: Option<Latest>)
    requires OneType(rows.Keys)
    ensures l == Rollup(rows)
  {
    if rows == map[] { return None; }
    var n := FindNewest(rows.Keys);
    var older := Older(rows, n.at);
    if older == {} { return Some(Latest(n.source, n.at, rows[n], None, None)); }
    var p := FindNewest(older);
    return Some(Latest(n.source, n.at, rows[n], Some((p.at, rows[p])), Some(Trend(n.at, rows[n], p.at, rows[p]))));
  }

  /** Rows of one type from some sources, not before `since` (None: no limit). */
  function Select(obs: map<Key, real>, sources: set<int>, dtype: DataType, since: Option<int>): map<Key, real> {
    map k | k in obs && k.source in sources && k.dtype == dtype && (since.None? || k.at >= since.value) :: obs[k]
  }
}
