/** Cross-filling of gauge heights and flows through a rating (cli/calc_rating.py). */
module RatingFill {
  import opened Common
  import opened Observations
  import opened CalcPass
  import opened RatingTable

  /** One source's run. The two time windows are read off the clock one after the other,
      gauge first; `now` is the clock when rows are stored. */
  datatype Run = Run(source: int, gaugeSince: int, flowSince: int, now: int, negativeOk: set<int>,
                     feetToCfs: Table)

  /** Times to values: what one of the two queries returned. */
  type Snapshot = map<int, real>

  function SnapshotOf(obs: map<Key, real>, source: int, dtype: DataType, since: int): (m: Snapshot)
    ensures forall t :: t in m <==> Key(source, dtype, t) in obs && t >= since
    ensures forall t :: t in m ==> m[t] == obs[Key(source, dtype, t)]
  {
    map k | k in obs && k.source == source && k.dtype == dtype && k.at >= since :: k.at := obs[k]
  }

  function Gauges(r: Run, obs: map<Key, real>): Snapshot { SnapshotOf(obs, r.source, Gauge, r.gaugeSince) }
  function Flows(r: Run, obs: map<Key, real>): Snapshot { SnapshotOf(obs, r.source, Flow, r.flowSince) }

  // ---------------------------------------------------------------- what is derived

  /** The gauge height written at time t; zero heights are legitimate. */
  function DerivedGauge(r: Run, flows: Snapshot, gauges: Snapshot, t: int): Option<real> {
    if t !in flows || t in gauges then None else
    var v := Interpolate(CfsToFeet(r.feetToCfs), flows[t], 0.1);
    if v.Some? && Accepts(r.now, r.negativeOk, Key(r.source, Gauge, t), v.value) then v else None
  }

  /** The flow written at time t: only positive ones. */
  function DerivedFlow(r: Run, flows: Snapshot, gauges: Snapshot, t: int): Option<real> {
    if t !in gauges || t in flows then None else
    var v := Interpolate(r.feetToCfs, gauges[t], 1.0);
    if v.Some? && v.value > 0.0 && Accepts(r.now, r.negativeOk, Key(r.source, Flow, t), v.value) then v else None
  }

  /** What the run writes at a key, from the rows as they were before it. */
  function Derived(r: Run, obs: map<Key, real>, k: Key): Option<real> {
    if k.source != r.source then None
    else if k.dtype == Gauge then DerivedGauge(r, Flows(r, obs), Gauges(r, obs), k.at)
    else if k.dtype == Flow then DerivedFlow(r, Flows(r, obs), Gauges(r, obs), k.at)
    else None
  }

  /** Derived rows are written over the table, everything else stays. */
  ghost predicate Filled(r: Run, before: map<Key, real>, after: map<Key, real>) {
    forall k :: Lookup(after, k) == (if Derived(r, before, k).Some? then Derived(r, before, k) else Lookup(before, k))
  }

  /** A row of the type in its window. */
  predicate Seen(obs: map<Key, real>, source: int, dtype: DataType, since: int, t: int) {
    Key(source, dtype, t) in obs && t >= since
  }

  /** What a run derives: a flow in whole units from a height, if it is positive, and a
      height in tenths from a flow through the reversed table, each at a time the other
      reading has and its own lacks, no more than an hour ahead. */
  lemma DerivedIff(r: Run, obs: map<Key, real>, k: Key, v: real)
    requires r.feetToCfs != []
    ensures CfsToFeet(r.feetToCfs) != []
    ensures Derived(r, obs, k) == Some(v) <==>
            k.source == r.source && k.at <= r.now + 3600 &&
            match k.dtype
            case Flow =>
              && Seen(obs, r.source, Gauge, r.gaugeSince, k.at) && !Seen(obs, r.source, Flow, r.flowSince, k.at)
              && v > 0.0 && Rates(r.feetToCfs, obs[Key(r.source, Gauge, k.at)], 1.0, v)
            case Gauge =>
              && Seen(obs, r.source, Flow, r.flowSince, k.at) && !Seen(obs, r.source, Gauge, r.gaugeSince, k.at)
              && Rates(CfsToFeet(r.feetToCfs), obs[Key(r.source, Flow, k.at)], 0.1, v)
            case _ => false
  {
    ReverseIsStableSort(r.feetToCfs);
    if Seen(obs, r.source, Gauge, r.gaugeSince, k.at) {
      RatesIff(r.feetToCfs, obs[Key(r.source, Gauge, k.at)], 1.0, v);
    }
    if Seen(obs, r.source, Flow, r.flowSince, k.at) {
      RatesIff(CfsToFeet(r.feetToCfs), obs[Key(r.source, Flow, k.at)], 0.1, v);
    }
    hide Interpolate, Rates, CfsToFeet;
  }

  ghost predicate DerivesAny(r: Run, obs: map<Key, real>, dtype: DataType) {
    exists t :: Derived(r, obs, Key(r.source, dtype, t)).Some?
  }

  // ---------------------------------------------------------------- the code

  /** A query's answer, newest first. */
  predicate Newest1st(recs: seq<(int, real)>) {
    forall i, j :: 0 <= i < j < |recs| ==> recs[i].0 > recs[j].0
  }

  ghost predicate Answers(recs: seq<(int, real)>, m: Snapshot) {
    && Newest1st(recs)
    && (forall i :: 0 <= i < |recs| ==> recs[i].0 in m && recs[i].1 == m[recs[i].0])
    && (forall t :: t in m ==> HasTime(recs, |recs|, t))
  }

  predicate HasTime(recs: seq<(int, real)>, n: nat, t: int)
    requires n <= |recs|
  {
    exists i :: 0 <= i < n && recs[i].0 == t
  }

  /** The records so far, and the keys still to come, all older. */
  ghost predicate Listing(recs: seq<(int, real)>, m: Snapshot, todo: set<Key>, source: int, dtype: DataType) {
    && Newest1st(recs)
    && (forall i :: 0 <= i < |recs| ==> recs[i].0 in m && recs[i].1 == m[recs[i].0])
    && (forall t :: t in m ==> Key(source, dtype, t) in todo || HasTime(recs, |recs|, t))
    && (forall k :: k in todo ==> OfSnapshot(k, m, source, dtype))
    && (forall k, i :: k in todo && 0 <= i < |recs| ==> k.at < recs[i].0)
  }

  predicate OfSnapshot(k: Key, m: Snapshot, source: int, dtype: DataType) {
    k.source == source && k.dtype == dtype && k.at in m
  }

  lemma ListNext(recs: seq<(int, real)>, m: Snapshot, todo: set<Key>, source: int, dtype: DataType, k: Key)
    requires Listing(recs, m, todo, source, dtype) && IsNewest(k, todo) && k.at in m
    ensures Listing(recs + [(k.at, m[k.at])], m, todo - {k}, source, dtype)
  {
    hide HasTime;
    TimesGrow(recs, (k.at, m[k.at]));
    assert OfSnapshot(k, m, source, dtype);
    forall l | l in todo - {k} ensures l.at < k.at {
      assert NotNewer(l, k) && OfSnapshot(l, m, source, dtype);
    }
  }

  method GetObservations(db: Database, source: int, dtype: DataType, since: int) returns (recs: seq<(int, real)>)
    ensures Answers(recs, SnapshotOf(db.obs, source, dtype, since))
  {
    hide *;
    ghost var m := SnapshotOf(db.obs, source, dtype, since);
    var rows := Select(db.obs, {source}, dtype, Some(since));
    RowsOfSeries(db.obs, source, dtype, since);
    var todo := rows.Keys;
    recs := [];
    StartListing(m, todo, source, dtype);
    while todo != {}
      invariant todo <= rows.Keys && Listing(recs, m, todo, source, dtype)
      decreases |todo|
    {
      OneSeries(recs, m, todo, source, dtype);
      var k := FindNewest(todo);
      NewestListed(k, todo);
      SeriesOf(recs, m, todo, source, dtype, k);
      ListNext(recs, m, todo, source, dtype, k);
      recs := recs + [(k.at, rows[k])];
      todo := todo - {k};
    }
    ListingDone(recs, m, source, dtype);
  }

  lemma RowsOfSeries(obs: map<Key, real>, source: int, dtype: DataType, since: int)
    ensures var rows, m := Select(obs, {source}, dtype, Some(since)), SnapshotOf(obs, source, dtype, since);
            && (forall k :: k in rows ==> OfSnapshot(k, m, source, dtype) && rows[k] == m[k.at])
            && (forall t :: t in m ==> Key(source, dtype, t) in rows)
  {
  }

  lemma StartListing(m: Snapshot, todo: set<Key>, source: int, dtype: DataType)
    requires forall t :: t in m ==> Key(source, dtype, t) in todo
    requires forall k :: k in todo ==> OfSnapshot(k, m, source, dtype)
    ensures Listing([], m, todo, source, dtype)
  {
  }

  lemma NewestListed(k: Key, todo: set<Key>)
    requires todo != {} && k == Newest(todo)
    ensures k in todo && IsNewest(k, todo)
  {
  }

  lemma SeriesOf(recs: seq<(int, real)>, m: Snapshot, todo: set<Key>, source: int, dtype: DataType, k: Key)
    requires Listing(recs, m, todo, source, dtype) && k in todo
    ensures k.at in m
  {
  }

  lemma OneSeries(recs: seq<(int, real)>, m: Snapshot, todo: set<Key>, source: int, dtype: DataType)
    requires Listing(recs, m, todo, source, dtype)
    ensures OneType(todo)
  {
  }

  lemma ListingDone(recs: seq<(int, real)>, m: Snapshot, source: int, dtype: DataType)
    requires Listing(recs, m, {}, source, dtype)
    ensures Answers(recs, m)
  {
  }

  lemma TimesGrow(recs: seq<(int, real)>, rec: (int, real))
    ensures forall t :: HasTime(recs, |recs|, t) ==> HasTime(recs + [rec], |recs| + 1, t)
    ensures HasTime(recs + [rec], |recs| + 1, rec.0)
  {
    var more := recs + [rec];
    assert more[|recs|] == rec;
    forall t | HasTime(recs, |recs|, t) ensures HasTime(more, |more|, t) {
      var i :| 0 <= i < |recs| && recs[i].0 == t;
      assert more[i].0 == t;
    }
  }

  /** store_observation: an upsert unless the row is refused. */
  method StoreObservation(db: Database, r: Run, k: Key, value: real) returns (stored: bool)
    modifies db`obs
    ensures stored == Accepts(r.now, r.negativeOk, k, value)
    ensures stored <==> k.at <= r.now + 3600 && (k.dtype != Flow || value >= 0.0 || k.source in r.negativeOk)
    ensures db.obs == if stored then old(db.obs)[k := value] else old(db.obs)
  {
    stored := Accepts(r.now, r.negativeOk, k, value);
    if stored { db.obs := db.obs[k := value]; }
  }

  lemma GaugeAt(r: Run, flows: Snapshot, gauges: Snapshot, t: int)
    requires t in flows
    ensures DerivedGauge(r, flows, gauges, t) ==
            var v := Interpolate(CfsToFeet(r.feetToCfs), flows[t], 0.1);
            if t !in gauges && v.Some? && Accepts(r.now, r.negativeOk, Key(r.source, Gauge, t), v.value) then v else None
  {
    hide Interpolate, Accepts;
  }

  lemma FlowAt(r: Run, flows: Snapshot, gauges: Snapshot, t: int)
    requires t in gauges
    ensures DerivedFlow(r, flows, gauges, t) ==
            var v := Interpolate(r.feetToCfs, gauges[t], 1.0);
            if t !in flows && v.Some? && v.value > 0.0 && Accepts(r.now, r.negativeOk, Key(r.source, Flow, t), v.value)
            then v else None
  {
    hide Interpolate, Accepts;
  }

  lemma DerivedTimes(r: Run, recs: seq<(int, real)>, flows: Snapshot, gauges: Snapshot)
    ensures Answers(recs, flows) ==> forall t :: DerivedGauge(r, flows, gauges, t).Some? ==> HasTime(recs, |recs|, t)
    ensures Answers(recs, gauges) ==> forall t :: DerivedFlow(r, flows, gauges, t).Some? ==> HasTime(recs, |recs|, t)
  {
    hide Interpolate, Accepts;
  }

  method FillGaugeFromFlow(db: Database, r: Run, recs: seq<(int, real)>, gaugeTimes: set<int>,
                           ghost flows: Snapshot, ghost gauges: Snapshot) returns (any: bool)
    requires Answers(recs, flows) && gaugeTimes == gauges.Keys
    modifies db`obs
    ensures forall k :: Lookup(db.obs, k) ==
                        (if Due(r, k, Gauge) && DerivedGauge(r, flows, gauges, k.at).Some?
                         then DerivedGauge(r, flows, gauges, k.at) else Lookup(old(db.obs), k))
    ensures any <==> exists t :: DerivedGauge(r, flows, gauges, t).Some?
  {
    hide Interpolate, Accepts, DerivedGauge, HasTime, CfsToFeet;
    any := false;
    NoTimeYet(recs);
    DerivedTimes(r, recs, flows, gauges);
    for i := 0 to |recs|
      invariant forall k :: Lookup(db.obs, k) ==
                            (if Due(r, k, Gauge) && HasTime(recs, i, k.at) && DerivedGauge(r, flows, gauges, k.at).Some?
                             then DerivedGauge(r, flows, gauges, k.at) else Lookup(old(db.obs), k))
      invariant any <==> exists t :: HasTime(recs, i, t) && DerivedGauge(r, flows, gauges, t).Some?
    {
      var (t, value) := recs[i];
      OneMoreTime(recs, i);
      GaugeAt(r, flows, gauges, t);
      if t !in gaugeTimes {
        var v := InterpolateRating(CfsToFeet(r.feetToCfs), value, 0.1);
        if v.Some? {
          var stored := StoreObservation(db, r, Key(r.source, Gauge, t), v.value);
          if stored { any := true; }
        }
      }
    }
  }

  predicate Due(r: Run, k: Key, dtype: DataType) {
    k.source == r.source && k.dtype == dtype
  }

  lemma OneMoreTime(recs: seq<(int, real)>, i: nat)
    requires i < |recs|
    ensures forall t :: HasTime(recs, i + 1, t) <==> HasTime(recs, i, t) || t == recs[i].0
  {
  }

  lemma NoTimeYet(recs: seq<(int, real)>)
    ensures forall t :: !HasTime(recs, 0, t)
  {
  }

  method FillFlowFromGauge(db: Database, r: Run, recs: seq<(int, real)>, flowTimes: set<int>,
                           ghost flows: Snapshot, ghost gauges: Snapshot) returns (any: bool)
    requires Answers(recs, gauges) && flowTimes == flows.Keys
    modifies db`obs
    ensures forall k :: Lookup(db.obs, k) ==
                        (if Due(r, k, Flow) && DerivedFlow(r, flows, gauges, k.at).Some?
                         then DerivedFlow(r, flows, gauges, k.at) else Lookup(old(db.obs), k))
    ensures any <==> exists t :: DerivedFlow(r, flows, gauges, t).Some?
  {
    hide Interpolate, Accepts, DerivedFlow, HasTime;
    any := false;
    NoTimeYet(recs);
    DerivedTimes(r, recs, flows, gauges);
    for i := 0 to |recs|
      invariant forall k :: Lookup(db.obs, k) ==
                            (if Due(r, k, Flow) && HasTime(recs, i, k.at) && DerivedFlow(r, flows, gauges, k.at).Some?
                             then DerivedFlow(r, flows, gauges, k.at) else Lookup(old(db.obs), k))
      invariant any <==> exists t :: HasTime(recs, i, t) && DerivedFlow(r, flows, gauges, t).Some?
    {
      var (t, value) := recs[i];
      OneMoreTime(recs, i);
      FlowAt(r, flows, gauges, t);
      if t !in flowTimes {
        var v := InterpolateRating(r.feetToCfs, value, 1.0);
        if v.Some? && v.value > 0.0 {
          var stored := StoreObservation(db, r, Key(r.source, Flow, t), v.value);
          if stored { any := true; }
        }
      }
    }
  }

  /** The latest entry of a series says what the rows say. */
  ghost predicate LatestCoherent(obs: map<Key, real>, latest: map<(int, DataType), Latest>, source: int, dtype: DataType) {
    Lookup(latest, (source, dtype)) == Rollup(Select(obs, {source}, dtype, None))
  }

  lemma TimesOfAnswer(recs: seq<(int, real)>, m: Snapshot)
    requires Answers(recs, m)
    ensures (set rec | rec in recs :: rec.0) == m.Keys
  {
    forall t | t in m ensures t in (set rec | rec in recs :: rec.0) {
      var i :| 0 <= i < |recs| && recs[i].0 == t;
      assert recs[i] in recs;
    }
  }

  /** The entry after the run: re-derived if the run says it stored rows of that type. */
  ghost predicate Refreshed(after: map<Key, real>, old1: map<(int, DataType), Latest>, new1: map<(int, DataType), Latest>,
                            source: int, gauge: bool, flow: bool) {
    forall s, d :: Lookup(new1, (s, d)) ==
      (if s == source && ((d == Gauge && gauge) || (d == Flow && flow))
       then Rollup(Select(after, {s}, d, None)) else Lookup(old1, (s, d)))
  }

  lemma SeriesUntouched(r: Run, before: map<Key, real>, after: map<Key, real>, s: int, d: DataType)
    requires Filled(r, before, after) && (s != r.source || !DerivesAny(r, before, d))
    ensures Select(after, {s}, d, None) == Select(before, {s}, d, None)
  {
    hide DerivedGauge, DerivedFlow;
    var x, y := Select(after, {s}, d, None), Select(before, {s}, d, None);
    forall k: Key ensures Lookup(x, k) == Lookup(y, k) {
      if k.source == s && k.dtype == d {
        assert k == Key(s, d, k.at);
        assert Derived(r, before, k).None?;
        assert Lookup(after, k) == Lookup(before, k);
      }
    }
    SameMaps(x, y);
  }

  lemma SameMaps(x: map<Key, real>, y: map<Key, real>)
    requires forall k :: Lookup(x, k) == Lookup(y, k)
    ensures x == y
  {
    assert forall k :: (k in x <==> k in y) && (k in x ==> x[k] == y[k]) by {
      forall k ensures (k in x <==> k in y) && (k in x ==> x[k] == y[k]) {
        assert Lookup(x, k) == Lookup(y, k);
      }
    }
  }

  lemma CoherenceKept(r: Run, before: map<Key, real>, after: map<Key, real>,
                      latest0: map<(int, DataType), Latest>, latest1: map<(int, DataType), Latest>)
    requires Filled(r, before, after)
    requires Refreshed(after, latest0, latest1, r.source, DerivesAny(r, before, Gauge), DerivesAny(r, before, Flow))
    ensures forall s, d :: LatestCoherent(before, latest0, s, d) ==> LatestCoherent(after, latest1, s, d)
  {
    hide Filled, Rollup, Select, Derived;
    forall s, d | LatestCoherent(before, latest0, s, d) ensures LatestCoherent(after, latest1, s, d) {
      if s == r.source && (d == Gauge || d == Flow) && DerivesAny(r, before, d) {
      } else {
        OnlyTwoTypes(r, before, d);
        SeriesUntouched(r, before, after, s, d);
      }
    }
  }

  lemma OnlyTwoTypes(r: Run, before: map<Key, real>, d: DataType)
    ensures d != Gauge && d != Flow ==> !DerivesAny(r, before, d)
  {
  }

  /** Both snapshots first, then both fills. */
  method FillBoth(db: Database, r: Run) returns (newGauge: bool, newFlow: bool)
    modifies db`obs
    ensures Filled(r, old(db.obs), db.obs)
    ensures newGauge <==> DerivesAny(r, old(db.obs), Gauge)
    ensures newFlow <==> DerivesAny(r, old(db.obs), Flow)
  {
    hide Filled, DerivesAny, DerivedGauge, DerivedFlow, Answers, SnapshotOf;
    var gaugeRecords := GetObservations(db, r.source, Gauge, r.gaugeSince);
    var flowRecords := GetObservations(db, r.source, Flow, r.flowSince);
    ghost var gauges, flows := Gauges(r, db.obs), Flows(r, db.obs);
    var gaugeTimes := set rec | rec in gaugeRecords :: rec.0;
    var flowTimes := set rec | rec in flowRecords :: rec.0;
    TimesOfAnswer(gaugeRecords, gauges);
    TimesOfAnswer(flowRecords, flows);
    newGauge := FillGaugeFromFlow(db, r, flowRecords, gaugeTimes, flows, gauges);
    newFlow := FillFlowFromGauge(db, r, gaugeRecords, flowTimes, flows, gauges);
    BothFills(r, old(db.obs), flows, gauges, db.obs);
  }

  /** One source; the cache entries of the types that got rows are re-derived. */
  method ApplyRatingToSource(db: Database, r: Run) returns (newGauge: bool, newFlow: bool)
    modifies db`obs, db`latest
    ensures Filled(r, old(db.obs), db.obs)
    ensures newGauge <==> DerivesAny(r, old(db.obs), Gauge)
    ensures newFlow <==> DerivesAny(r, old(db.obs), Flow)
    ensures forall s, d :: LatestCoherent(old(db.obs), old(db.latest), s, d) ==> LatestCoherent(db.obs, db.latest, s, d)
  {
    hide Rollup, Select, Filled, DerivesAny, LatestCoherent;
    newGauge, newFlow := FillBoth(db, r);
    if newFlow { db.UpdateLatest(r.source, Flow); }
    if newGauge { db.UpdateLatest(r.source, Gauge); }
    CoherenceKept(r, old(db.obs), db.obs, old(db.latest), db.latest);
  }

  lemma BothFills(r: Run, before: map<Key, real>, flows: Snapshot, gauges: Snapshot, after: map<Key, real>)
    requires flows == Flows(r, before) && gauges == Gauges(r, before)
    requires forall k :: Lookup(after, k) ==
               (if Due(r, k, Flow) && DerivedFlow(r, flows, gauges, k.at).Some? then DerivedFlow(r, flows, gauges, k.at)
                else if Due(r, k, Gauge) && DerivedGauge(r, flows, gauges, k.at).Some? then DerivedGauge(r, flows, gauges, k.at)
                else Lookup(before, k))
    ensures Filled(r, before, after)
    ensures DerivesAny(r, before, Gauge) <==> exists t :: DerivedGauge(r, flows, gauges, t).Some?
    ensures DerivesAny(r, before, Flow) <==> exists t :: DerivedFlow(r, flows, gauges, t).Some?
  {
    hide DerivedGauge, DerivedFlow, Flows, Gauges;
    assert forall t :: Derived(r, before, Key(r.source, Gauge, t)) == DerivedGauge(r, flows, gauges, t);
    assert forall t :: Derived(r, before, Key(r.source, Flow, t)) == DerivedFlow(r, flows, gauges, t);
  }

  // ---------------------------------------------------------------- what it promises

  function Other(d: DataType): DataType {
    if d == Gauge then Flow else Gauge
  }

  /** Every written row comes from a row of the other type that was there before the run,
      inside its window: no derived row feeds another. */
  lemma DerivedFromMeasured(r: Run, before: map<Key, real>, k: Key)
    requires Derived(r, before, k).Some?
    ensures k.source == r.source && (k.dtype == Gauge || k.dtype == Flow)
    ensures var m := Key(k.source, Other(k.dtype), k.at);
            m in before && Derived(r, before, m).None?
            && Derived(r, before, k) ==
               (if k.dtype == Gauge then Interpolate(CfsToFeet(r.feetToCfs), before[m], 0.1) else Interpolate(r.feetToCfs, before[m], 1.0))
  {
    hide Interpolate, Accepts;
    var flows, gauges := Flows(r, before), Gauges(r, before);
    if k.dtype == Gauge {
      assert k.at in flows;
    } else {
      assert k.at in gauges;
    }
  }

  predicate PositiveFlow(r: Run, height: real) {
    var v := Interpolate(r.feetToCfs, height, 1.0);
    v.Some? && v.value > 0.0
  }

  /** With rating tables in place, a gauge height is missing after the run next to a flow of
      the window only if the store refused it, and a flow next to a gauge height only if the
      rating gave none above zero or the store refused it. */
  lemma NothingLeftUnfilled(r: Run, before: map<Key, real>, after: map<Key, real>, t: int)
    requires Filled(r, before, after) && r.feetToCfs != []
    ensures Key(r.source, Flow, t) in before && t >= r.flowSince && Key(r.source, Gauge, t) !in after
            ==> t > r.now + 3600
    ensures Key(r.source, Gauge, t) in before && t >= r.gaugeSince && Key(r.source, Flow, t) !in after
            ==> t > r.now + 3600 || !PositiveFlow(r, before[Key(r.source, Gauge, t)])
  {
    hide Interpolate;
    var g, f := Key(r.source, Gauge, t), Key(r.source, Flow, t);
    assert Lookup(after, g) == (if Derived(r, before, g).Some? then Derived(r, before, g) else Lookup(before, g));
    assert Lookup(after, f) == (if Derived(r, before, f).Some? then Derived(r, before, f) else Lookup(before, f));
    if f in before { InterpolateTotal(CfsToFeet(r.feetToCfs), before[f], 0.1); }
    if g in before { InterpolateTotal(r.feetToCfs, before[g], 1.0); }
  }

  /** Windows in the order in which the clock was read. */
  predicate ClockForward(r: Run) {
    r.gaugeSince <= r.flowSince
  }

  /** Which existing rows a run may write over: flows in the sliver between the two readings
      of the clock, old enough to be out of the second window while the gauge height at the
      same time was still in the first. */
  predicate InSliver(r: Run, before: map<Key, real>, k: Key) {
    k.source == r.source && k.dtype == Flow && r.gaugeSince <= k.at < r.flowSince && Key(k.source, Gauge, k.at) in before
  }

  /** Exact condition for an existing row to be written over. */
  lemma OverwritesIff(r: Run, before: map<Key, real>, k: Key)
    requires ClockForward(r) && k in before
    ensures Derived(r, before, k).Some? <==>
            InSliver(r, before, k)
            && PositiveFlow(r, before[Key(k.source, Gauge, k.at)]) && k.at <= r.now + 3600
  {
    hide Interpolate;
    assert k == Key(k.source, k.dtype, k.at);
  }

  /** So a run whose sliver is empty only adds rows. */
  lemma OnlyAdds(r: Run, before: map<Key, real>, after: map<Key, real>)
    requires ClockForward(r) && Filled(r, before, after)
    requires forall k :: k in before ==> !InSliver(r, before, k)
    ensures forall k :: k in before ==> k in after && after[k] == before[k]
    ensures forall k :: k in after && k !in before ==> Derived(r, before, k) == Some(after[k])
  {
    hide Derived, InSliver, Interpolate;
    forall k | k in before ensures k in after && after[k] == before[k] {
      OverwritesIff(r, before, k);
      assert Lookup(after, k) == Lookup(before, k);
    }
    forall k | k in after && k !in before ensures Derived(r, before, k) == Some(after[k]) {
      assert Lookup(after, k) == (if Derived(r, before, k).Some? then Derived(r, before, k) else Lookup(before, k));
    }
  }

  /** A measured flow of 500 in the sliver is replaced by the rated flow. */
  lemma SliverOverwrites() returns (r: Run, before: map<Key, real>)
    ensures ClockForward(r) && forall k :: k in before ==> Accepts(r.now, r.negativeOk, k, before[k])
    ensures Key(1, Flow, 100) in before && before[Key(1, Flow, 100)] == 500.0 && Derived(r, before, Key(1, Flow, 100)) == Some(70.0)
  {
    var t: Table := [(2.0, 70.0), (3.0, 90.0)];
    r := Run(1, 100, 101, 100 + 60 * 86400, {}, t);
    before := map[Key(1, Gauge, 100) := 2.0, Key(1, Flow, 100) := 500.0];
    assert Interpolate(t, 2.0, 1.0) == Some(70.0);
    assert 100 in Gauges(r, before) && 100 !in Flows(r, before);
  }

  /** A later run of the same source: windows and clock moved on, same rating. */
  predicate Later(a: Run, b: Run) {
    && a.source == b.source && a.feetToCfs == b.feetToCfs && a.negativeOk == b.negativeOk
    && ClockForward(a) && ClockForward(b) && a.gaugeSince <= b.gaugeSince && a.flowSince <= b.flowSince && a.now <= b.now
  }

  /** Rows the first run had refused for their time and the second one accepts. */
  predicate NewlyAccepted(a: Run, b: Run, before: map<Key, real>, k: Key) {
    k.at > a.now + 3600 && k.at >= b.flowSince && Derived(b, before, k).Some?
  }

  /** Flows between the second run's two windows, next to a height that rates above zero. */
  predicate SliverFlow(b: Run, mid: map<Key, real>, k: Key) {
    InSliver(b, mid, k) && PositiveFlow(b, mid[Key(k.source, Gauge, k.at)]) && k.at <= b.now + 3600
  }

  lemma AfterFill(r: Run, before: map<Key, real>, after: map<Key, real>, k: Key)
    requires Filled(r, before, after)
    ensures Lookup(after, k) == (if Derived(r, before, k).Some? then Derived(r, before, k) else Lookup(before, k))
  {
  }

  /** Exactly what a later run writes after an earlier one: rows the earlier run had refused
      as too far in the future, and flows between its own two windows. */
  lemma LaterRunDerivesIff(a: Run, b: Run, before: map<Key, real>, mid: map<Key, real>, k: Key)
    requires Later(a, b) && Filled(a, before, mid)
    ensures Derived(b, mid, k).Some? <==> NewlyAccepted(a, b, before, k) || SliverFlow(b, mid, k)
  {
    if k.source == a.source && (k.dtype == Gauge || k.dtype == Flow) {
      var g, f := Key(k.source, Gauge, k.at), Key(k.source, Flow, k.at);
      AfterFill(a, before, mid, g);
      AfterFill(a, before, mid, f);
      if k == g { GaugeAgain(a, b, before, mid, k.at); } else { FlowAgain(a, b, before, mid, k.at); }
    }
  }

  lemma GaugeAgain(a: Run, b: Run, before: map<Key, real>, mid: map<Key, real>, t: int)
    requires Later(a, b) && Filled(a, before, mid)
    ensures var k := Key(a.source, Gauge, t); Derived(b, mid, k).Some? <==> NewlyAccepted(a, b, before, k)
  {
    hide Interpolate, Filled;
    var g, f := Key(a.source, Gauge, t), Key(a.source, Flow, t);
    AfterFill(a, before, mid, g);
    AfterFill(a, before, mid, f);
  }

  lemma FlowAgain(a: Run, b: Run, before: map<Key, real>, mid: map<Key, real>, t: int)
    requires Later(a, b) && Filled(a, before, mid)
    ensures var k := Key(a.source, Flow, t);
            Derived(b, mid, k).Some? <==> NewlyAccepted(a, b, before, k) || SliverFlow(b, mid, k)
  {
    hide Interpolate, Filled;
    var g, f := Key(a.source, Gauge, t), Key(a.source, Flow, t);
    AfterFill(a, before, mid, g);
    AfterFill(a, before, mid, f);
  }

  /** So a later run changes nothing and reports nothing exactly when there is no such row. */
  lemma LaterRunIdleIff(a: Run, b: Run, before: map<Key, real>, mid: map<Key, real>, after: map<Key, real>)
    requires Later(a, b) && Filled(a, before, mid) && Filled(b, mid, after)
    ensures (forall k :: Derived(b, mid, k).None?) <==> (forall k :: !NewlyAccepted(a, b, before, k) && !SliverFlow(b, mid, k))
    ensures (forall k :: Derived(b, mid, k).None?) ==> after == mid
  {
    hide Filled, Derived, NewlyAccepted, SliverFlow;
    forall k ensures Derived(b, mid, k).Some? <==> NewlyAccepted(a, b, before, k) || SliverFlow(b, mid, k) {
      LaterRunDerivesIff(a, b, before, mid, k);
    }
    if forall k :: Derived(b, mid, k).None? { NothingDerivedNothingChanged(b, mid, after); }
  }

  lemma NothingDerivedNothingChanged(r: Run, before: map<Key, real>, after: map<Key, real>)
    requires Filled(r, before, after) && forall k :: Derived(r, before, k).None?
    ensures after == before
  {
    hide Derived;
    SameMaps(after, before);
  }

  /** In particular if the table before both runs holds no row that far in the future and
      none between the second run's two windows. */
  lemma SecondRunAddsNothing(a: Run, b: Run, before: map<Key, real>, mid: map<Key, real>, after: map<Key, real>)
    requires Later(a, b) && Filled(a, before, mid) && Filled(b, mid, after)
    requires forall k :: k in before ==> k.at <= a.now + 3600
    requires forall k :: k in before && k.source == a.source ==> !(b.gaugeSince <= k.at < b.flowSince)
    ensures after == mid && forall k :: Derived(b, mid, k).None?
  {
    hide Filled, Derived, NewlyAccepted, SliverFlow;
    forall k ensures !NewlyAccepted(a, b, before, k) && !SliverFlow(b, mid, k) {
      NeitherKind(a, b, before, mid, k);
    }
    LaterRunIdleIff(a, b, before, mid, after);
  }

  lemma NeitherKind(a: Run, b: Run, before: map<Key, real>, mid: map<Key, real>, k: Key)
    requires Later(a, b) && Filled(a, before, mid)
    requires forall k :: k in before ==> k.at <= a.now + 3600
    requires forall k :: k in before && k.source == a.source ==> !(b.gaugeSince <= k.at < b.flowSince)
    ensures !NewlyAccepted(a, b, before, k) && !SliverFlow(b, mid, k)
  {
    hide Derived, Filled;
    if Derived(b, before, k).Some? {
      DerivedFromMeasured(b, before, k);
    }
    var g := Key(k.source, Gauge, k.at);
    AfterFill(a, before, mid, g);
    if Derived(a, before, g).Some? { DerivedFromMeasured(a, before, g); }
  }
}
