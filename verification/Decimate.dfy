/** The decimate command over a mutable observation table and its per-source cache of
    the newest observation. */
module Decimate {
  import opened Common
  import opened Observations
  import opened Thinning
  import opened ThinningKept

  type LatestCache = map<(int, DataType), int>

  predicate InSeries(k: Key, source: int, dtype: DataType) {
    k.source == source && k.dtype == dtype
  }

  /** A cache entry names the newest row of its series, or is absent with the series. */
  predicate LatestOk(rows: set<Key>, entry: Option<int>, source: int, dtype: DataType) {
    match entry
    case Some(at) => Key(source, dtype, at) in rows && forall k :: k in rows && InSeries(k, source, dtype) ==> k.at <= at
    case None => forall k :: k in rows ==> !InSeries(k, source, dtype)
  }

  ghost predicate CacheOk(rows: set<Key>, latest: LatestCache) {
    forall s, d :: LatestOk(rows, Lookup(latest, (s, d)), s, d)
  }

  /** A table whose counts are zero is already thin. */
  lemma {:induction false} NothingExtra(st: Stage, win: set<Key>)
    ensures Extra(st, win) >= 0
    ensures Extra(st, win) == 0 ==> forall k, l :: k in win && l in win && BucketOf(st, k) == BucketOf(st, l) ==> k == l
  {
    hide BucketOf;
    if win != {} {
      var k :| k in win;
      NothingExtra(st, win - {k});
      assert Buckets(st, win) == Buckets(st, win - {k}) + {BucketOf(st, k)};
      if BucketOf(st, k) !in Buckets(st, win - {k}) {
        assert forall l :: l in win - {k} ==> BucketOf(st, l) in Buckets(st, win - {k});
      }
    }
  }

  lemma ThinAlready(rows: set<Key>, win: set<Key>, part: set<Key>, st: Stage)
    requires part <= win && part <= rows && Extra(st, win) == 0
    ensures Thinned(rows, rows, part, st)
  {
    hide BucketOf, Dist, Extra;
    NothingExtra(st, win);
    assert rows * part == part;
    forall k | k in part ensures exists best :: StandsFor(best, k, part, st) {
      assert StandsFor(k, k, part, st);
    }
  }

  class Table {
    var rows: set<Key>
    var latest: LatestCache

    constructor ()
      ensures rows == {} && latest == map[]
    {
      rows, latest := {}, map[];
    }

    /** update_latest: re-derive one cache entry from the rows. */
    method UpdateLatest(source: int, dtype: DataType)
      modifies this`latest
      ensures LatestOk(rows, Lookup(latest, (source, dtype)), source, dtype)
      ensures forall e :: e != (source, dtype) ==> Lookup(latest, e) == Lookup(old(latest), e)
    {
      var series := set k | k in rows && InSeries(k, source, dtype);
      assert forall k :: k in rows && InSeries(k, source, dtype) ==> k in series;
      if series == {} {
        latest := latest - {(source, dtype)};
        return;
      }
      var newest :| newest in series;
      var todo := series - {newest};
      while todo != {}
        invariant todo <= series && newest in series
        invariant forall k :: k in series - todo ==> k.at <= newest.at
        decreases |todo|
      {
        var k :| k in todo;
        todo := todo - {k};
        if k.at > newest.at { newest := k; }
      }
      assert newest == Key(source, dtype, newest.at);
      assert forall k :: k in rows && InSeries(k, source, dtype) ==> k in series - todo;
      latest := latest[(source, dtype) := newest.at];
    }

    /** One ranked DELETE for one source; the row count is what changes() reports. */
    method DeleteRanked(st: Stage, source: int, c: Cutoffs) returns (deleted: nat)
      modifies this`rows
      ensures Thinned(old(rows), rows, Window(old(rows), st, c, {source}), st)
      ensures deleted == |old(rows)| - |rows|
      ensures deleted == 0 ==> rows == old(rows)
    {
      hide BucketOf, Dist, KeepsNearest;
      var win := Window(rows, st, c, {source});
      var keep := PickKeepers(win, st);
      KeptInWindow(keep, win, st);
      var gone := win - keep;
      assert (rows - gone) * win == keep;
      deleted := |gone|;
      assert |rows| == |rows - gone| + |gone| by { assert rows == (rows - gone) + gone; }
      rows := rows - gone;
    }

    /** dry_run reports only; otherwise each listed source is thinned in turn, its cache
        entries are refreshed if it lost a row, and the totals are returned. */
    method Run(c: Cutoffs, dryRun: bool)
      returns (hourly: int, sixHourly: int, affected: set<int>, ghost mid: set<Key>)
      modifies this
      ensures dryRun ==> rows == old(rows) && latest == old(latest)
      ensures dryRun ==> hourly == HourlyCount(rows, c) && sixHourly == SixHourlyCount(rows, c)
      ensures !dryRun ==> RunThins(old(rows), mid, rows, c) && Kept(old(rows), rows, c.medium, c.archive)
      ensures !dryRun ==> |old(rows)| - |mid| == hourly && |mid| - |rows| == sixHourly
      ensures !dryRun ==> forall k :: k in old(rows) && k !in rows ==> k.source in affected
      ensures CacheOk(old(rows), old(latest)) ==> CacheOk(rows, latest)
    {
      mid := rows;
      hourly, sixHourly, affected := HourlyCount(rows, c), SixHourlyCount(rows, c), {};
      if dryRun { return; }
      if hourly + sixHourly == 0 {
        NoCountsNoWork(rows, c);
        RunKeeps(rows, rows, rows, c);
        return;
      }
      hourly, sixHourly, affected, mid := ThinAll(c);
      RunKeeps(old(rows), mid, rows, c);
    }

    /** decimate: the cutoffs are whole days before now. */
    method Command(now: int, recentDays: int, archiveDays: int, dryRun: bool) returns (deleted: int)
      modifies this
      ensures dryRun ==> rows == old(rows) && latest == old(latest)
      ensures !dryRun ==> Kept(old(rows), rows, now - recentDays * 86400, now - archiveDays * 86400)
      ensures !dryRun ==> deleted == |old(rows)| - |rows|
      ensures CacheOk(old(rows), old(latest)) ==> CacheOk(rows, latest)
    {
      hide Kept, HourlyCount, SixHourlyCount, RunThins;
      var hourly, sixHourly, affected;
      ghost var mid;
      hourly, sixHourly, affected, mid := Run(CutoffsAt(now, recentDays, archiveDays), dryRun);
      deleted := if dryRun then 0 else hourly + sixHourly;
    }

    /** The per-source loop. */
    method ThinAll(c: Cutoffs) returns (hourly: int, sixHourly: int, affected: set<int>, ghost mid: set<Key>)
      modifies this
      ensures RunThins(old(rows), mid, rows, c)
      ensures |old(rows)| - |mid| == hourly && |mid| - |rows| == sixHourly
      ensures forall k :: k in old(rows) && k !in rows ==> k.source in affected
      ensures CacheOk(old(rows), old(latest)) ==> CacheOk(rows, latest)
    {
      hide BucketOf, Dist, InWindow, Thinned;
      hourly, sixHourly, affected, mid := 0, 0, {}, rows;
      var todo := Listed(rows, c);
      ghost var done: set<int> := {};
      NothingDone(rows, c);
      while todo != {}
        invariant todo + done == Listed(old(rows), c) && todo !! done
        invariant Thinned(old(rows), mid, Window(old(rows), Hourly, c, done), Hourly)
        invariant Thinned(mid, rows, Window(mid, SixHourly, c, done), SixHourly)
        invariant |old(rows)| - |mid| == hourly && |mid| - |rows| == sixHourly
        invariant forall k :: k in old(rows) && k !in rows ==> k.source in affected
        invariant CacheOk(old(rows), old(latest)) ==> CacheOk(rows, latest)
        decreases |todo|
      {
        var s :| s in todo;
        ghost var gone;
        var h, x, hit;
        h, x, hit, gone := ThinSource(s, c, old(rows), mid, done);
        if hit { affected := affected + {s}; }
        hourly, sixHourly := hourly + h, sixHourly + x;
        mid := mid - gone;
        todo, done := todo - {s}, done + {s};
      }
      assert done == Listed(old(rows), c);
    }

    /** One source: both deletes, then its cache entries if it lost a row. */
    method ThinSource(s: int, c: Cutoffs, ghost before: set<Key>, ghost mid: set<Key>, ghost done: set<int>)
      returns (h: nat, x: nat, hit: bool, ghost gone: set<Key>)
      requires s !in done
      requires Thinned(before, mid, Window(before, Hourly, c, done), Hourly)
      requires Thinned(mid, rows, Window(mid, SixHourly, c, done), SixHourly)
      modifies this
      ensures Thinned(before, mid - gone, Window(before, Hourly, c, done + {s}), Hourly)
      ensures Thinned(mid - gone, rows, Window(mid - gone, SixHourly, c, done + {s}), SixHourly)
      ensures |mid| - |mid - gone| == h && h + x == |old(rows)| - |rows|
      ensures rows <= old(rows) && forall k :: k in old(rows) && k !in rows ==> hit && k.source == s
      ensures CacheOk(old(rows), old(latest)) ==> CacheOk(rows, latest)
    {
      hide BucketOf, Dist, InWindow, Thinned;
      ghost var rows0 := rows;
      h := DeleteRanked(Hourly, s, c);
      ghost var rows1 := rows;
      x := DeleteRanked(SixHourly, s, c);
      gone := rows0 - rows1;
      OneSource(before, mid, rows0, rows1, rows, c, done, s);
      hit := h > 0 || x > 0;
      if hit {
        RefreshSource(s);
        OtherSourcesFresh(rows0, old(latest), rows, latest, s);
      }
    }

    /** The loop over all data types after a source lost rows. */
    method RefreshSource(s: int)
      modifies this`latest
      ensures forall d :: LatestOk(rows, Lookup(latest, (s, d)), s, d)
      ensures forall s', d :: s' != s ==> Lookup(latest, (s', d)) == Lookup(old(latest), (s', d))
    {
      UpdateLatest(s, Gauge);
      UpdateLatest(s, Flow);
      UpdateLatest(s, Inflow);
      UpdateLatest(s, Temperature);
      forall d ensures LatestOk(rows, Lookup(latest, (s, d)), s, d) {
        match d
        case Gauge => case Flow => case Inflow => case Temperature =>
      }
    }
  }

  /** Series of other sources lost no rows, so their entries stay right. */
  lemma OtherSourcesFresh(rows0: set<Key>, latest0: LatestCache, rows: set<Key>, latest: LatestCache, s: int)
    requires rows <= rows0 && forall k :: k in rows0 && k !in rows ==> k.source == s
    requires forall d :: LatestOk(rows, Lookup(latest, (s, d)), s, d)
    requires forall s', d :: s' != s ==> Lookup(latest, (s', d)) == Lookup(latest0, (s', d))
    ensures CacheOk(rows0, latest0) ==> CacheOk(rows, latest)
  {
    if CacheOk(rows0, latest0) {
      forall s', d ensures LatestOk(rows, Lookup(latest, (s', d)), s', d) {
        if s' != s { assert LatestOk(rows0, Lookup(latest0, (s', d)), s', d); }
      }
    }
  }

  ghost predicate Apart(a: set<Key>, b: set<Key>, st: Stage) {
    forall k, l :: k in a && l in b ==> BucketOf(st, k) != BucketOf(st, l)
  }

  function Group(rows: set<Key>, st: Stage, b: Bucket): set<Key> {
    set k | k in rows && BucketOf(st, k) == b
  }

  method PickKeepers(win: set<Key>, st: Stage) returns (keep: set<Key>)
    ensures KeepsNearest(keep, win, st)
  {
    keep := {};
    var todo := win;
    ghost var done: set<Key> := {};
    while todo != {}
      invariant done + todo == win
      invariant KeepsNearest(keep, done, st) && Apart(todo, done, st)
      decreases todo
    {
      hide KeepsNearest, Apart, BucketOf, Dist;
      var k0 :| k0 in todo;
      var group := Group(todo, st, BucketOf(st, k0));
      assert k0 in group;
      var best := Nearest(group, st);
      OneMoreGroup(keep, done, todo, group, best, st);
      keep, todo, done := keep + {best}, todo - group, done + group;
    }
    assert done == win;
  }

  lemma OneMoreGroup(keep: set<Key>, done: set<Key>, todo: set<Key>, group: set<Key>, best: Key, st: Stage)
    requires KeepsNearest(keep, done, st) && Apart(todo, done, st)
    requires best in group && group == Group(todo, st, BucketOf(st, best))
    requires forall k :: k in group ==> Dist(st, best) <= Dist(st, k)
    ensures KeepsNearest(keep + {best}, done + group, st) && Apart(todo - group, done + group, st)
  {
    hide Dist, BucketOf;
    forall k | k in done + group ensures exists b :: StandsFor(b, k, keep + {best}, st) {
      if k in group {
        assert StandsFor(best, k, keep + {best}, st);
      } else {
        var b :| StandsFor(b, k, keep, st);
        assert StandsFor(b, k, keep + {best}, st);
      }
    }
  }

  lemma KeptInWindow(keep: set<Key>, win: set<Key>, st: Stage)
    requires KeepsNearest(keep, win, st)
    ensures keep <= win
  {
  }

  method Nearest(group: set<Key>, st: Stage) returns (best: Key)
    requires group != {}
    ensures best in group && forall k :: k in group ==> Dist(st, best) <= Dist(st, k)
  {
    best :| best in group;
    var todo := group - {best};
    while todo != {}
      invariant best in group && todo <= group
      invariant forall k :: k in group - todo ==> Dist(st, best) <= Dist(st, k)
      decreases |todo|
    {
      var k :| k in todo;
      todo := todo - {k};
      if Dist(st, k) < Dist(st, best) { best := k; }
    }
  }

  lemma NothingDone(rows: set<Key>, c: Cutoffs)
    ensures Thinned(rows, rows, Window(rows, Hourly, c, {}), Hourly)
    ensures Thinned(rows, rows, Window(rows, SixHourly, c, {}), SixHourly)
  {
    assert Window(rows, Hourly, c, {}) == {} && Window(rows, SixHourly, c, {}) == {};
  }

  lemma NoCountsNoWork(rows: set<Key>, c: Cutoffs)
    requires HourlyCount(rows, c) + SixHourlyCount(rows, c) == 0
    ensures HourlyCount(rows, c) == 0 && SixHourlyCount(rows, c) == 0
    ensures RunThins(rows, rows, rows, c)
  {
    hide BucketOf, Dist, InWindow, Extra, Thinned;
    var all, listed := Sources(rows), Listed(rows, c);
    NothingExtra(Hourly, Window(rows, Hourly, c, all));
    NothingExtra(SixHourly, Window(rows, SixHourly, c, all));
    ThinAlready(rows, Window(rows, Hourly, c, all), Window(rows, Hourly, c, listed), Hourly);
    ThinAlready(rows, Window(rows, SixHourly, c, all), Window(rows, SixHourly, c, listed), SixHourly);
  }

  /** One pass of the per-source loop extends both stages of the run by that source:
      doing the two stages source by source is the same as stage by stage. */
  lemma OneSource(before: set<Key>, mid: set<Key>, rows0: set<Key>, rows1: set<Key>, rows2: set<Key>,
                  c: Cutoffs, done: set<int>, s: int)
    requires s !in done
    requires Thinned(before, mid, Window(before, Hourly, c, done), Hourly)
    requires Thinned(mid, rows0, Window(mid, SixHourly, c, done), SixHourly)
    requires Thinned(rows0, rows1, Window(rows0, Hourly, c, {s}), Hourly)
    requires Thinned(rows1, rows2, Window(rows1, SixHourly, c, {s}), SixHourly)
    ensures var mid' := mid - (rows0 - rows1);
            && Thinned(before, mid', Window(before, Hourly, c, done + {s}), Hourly)
            && Thinned(mid', rows2, Window(mid', SixHourly, c, done + {s}), SixHourly)
            && |mid| - |mid'| == |rows0| - |rows1|
    ensures rows2 <= rows0 && forall k :: k in rows0 && k !in rows2 ==> k.source == s
  {
    hide BucketOf, Dist, KeepsNearest;
    var gone := rows0 - rows1;
    var mid' := mid - gone;
    assert forall k :: k in gone ==> k.source == s;
    assert Window(mid, Hourly, c, {s}) == Window(rows0, Hourly, c, {s});
    ThinnedElsewhere(rows0, rows1, mid, mid', Window(mid, Hourly, c, {s}), Hourly);
    ThinnedOneMore(before, mid, mid', Hourly, c, done, s);
    assert Window(mid', SixHourly, c, done) == Window(mid, SixHourly, c, done);
    ThinnedElsewhere(mid, rows0, mid', rows1, Window(mid, SixHourly, c, done), SixHourly);
    ThinnedOneMore(mid', rows1, rows2, SixHourly, c, done, s);
    assert |mid| == |mid'| + |gone| by { assert mid == mid' + gone; }
    assert |rows0| == |rows1| + |gone| by { assert rows0 == rows1 + gone; }
  }
}
