/** Observation thinning (decimate.py): keep one row per hour in the medium term and
    one per six hours in the archive, the row nearest the middle of its bucket. The
    table is the set of primary keys; stored values play no part in what is kept. */
module Thinning {
  import opened Common
  import opened Observations

  datatype Cutoffs = Cutoffs(medium: int, archive: int)

  datatype Stage = Hourly | SixHourly

  /** A PARTITION BY group: `slot` is the hour of the day or the quarter of the day. */
  datatype Bucket = Bucket(source: int, dtype: DataType, day: int, slot: int)

  // strftime fields of a UTC time
  function Day(at: int): int { at / 86400 }
  function HourOfDay(at: int): int { at / 3600 % 24 }
  function Minute(at: int): int { at / 60 % 60 }

  function BucketOf(st: Stage, k: Key): Bucket {
    match st
    case Hourly => Bucket(k.source, k.dtype, Day(k.at), HourOfDay(k.at))
    case SixHourly => Bucket(k.source, k.dtype, Day(k.at), HourOfDay(k.at) / 6)
  }

  /** The ORDER BY of the ranking: minutes from the middle of the bucket. */
  function Dist(st: Stage, k: Key): nat {
    match st
    case Hourly => AbsInt(Minute(k.at) - 30)
    case SixHourly => AbsInt(HourOfDay(k.at) % 6 * 60 + Minute(k.at) - 180)
  }

  predicate InWindow(st: Stage, k: Key, c: Cutoffs) {
    match st
    case Hourly => c.archive <= k.at < c.medium
    case SixHourly => k.at < c.archive
  }

  /** The rows one ranked DELETE looks at: those of the given sources in the window. */
  function Window(rows: set<Key>, st: Stage, c: Cutoffs, sources: set<int>): set<Key> {
    set k | k in rows && k.source in sources && InWindow(st, k, c)
  }

  function Sources(rows: set<Key>): set<int> {
    set k | k in rows :: k.source
  }

  /** SELECT DISTINCT source_id ... WHERE observed_at < :medium_cutoff. */
  function Listed(rows: set<Key>, c: Cutoffs): set<int> {
    set k | k in rows && k.at < c.medium :: k.source
  }

  // ---------------------------------------------------------------- one ranked delete

  /** `best` stands for `k` among the kept rows: same bucket, at least as near the middle. */
  predicate StandsFor(best: Key, k: Key, kept: set<Key>, st: Stage) {
    best in kept && BucketOf(st, best) == BucketOf(st, k) && Dist(st, best) <= Dist(st, k)
  }

  /** Exactly one row of each bucket is kept, and it is a nearest one. */
  ghost predicate KeepsNearest(kept: set<Key>, win: set<Key>, st: Stage) {
    && kept <= win
    && (forall k :: k in win ==> exists best :: StandsFor(best, k, kept, st))
    && (forall k, l :: k in kept && l in kept && BucketOf(st, k) == BucketOf(st, l) ==> k == l)
  }

  /** A ranked DELETE over the rows `win`, ties resolved in any way: nothing outside
      `win` goes, and each bucket of `win` keeps exactly one row, a nearest one. */
  ghost predicate Thinned(before: set<Key>, after: set<Key>, win: set<Key>, st: Stage) {
    && win <= before && after <= before && before - win <= after
    && KeepsNearest(after * win, win, st)
  }

  /** ROW_NUMBER() OVER (PARTITION BY bucket ORDER BY distance): consecutive numbers
      from 1 in each bucket, never against the distance order. */
  ghost predicate IsRanking(win: set<Key>, st: Stage, rank: Key -> int) {
    && (forall k :: k in win ==> rank(k) >= 1)
    && (forall k, l :: k in win && l in win && BucketOf(st, k) == BucketOf(st, l) && rank(k) == rank(l) ==> k == l)
    && (forall k, l :: k in win && l in win && BucketOf(st, k) == BucketOf(st, l) && rank(k) < rank(l) ==> Dist(st, k) <= Dist(st, l))
    && (forall k :: k in win && rank(k) > 1 ==> exists l :: l in win && BucketOf(st, l) == BucketOf(st, k) && rank(l) == rank(k) - 1)
  }

  lemma {:induction false} RankOneExists(win: set<Key>, st: Stage, rank: Key -> int, k: Key) returns (best: Key)
    requires IsRanking(win, st, rank) && k in win
    ensures best in win && BucketOf(st, best) == BucketOf(st, k) && rank(best) == 1 && Dist(st, best) <= Dist(st, k)
    decreases rank(k)
  {
    if rank(k) == 1 {
      best := k;
    } else {
      var l :| l in win && BucketOf(st, l) == BucketOf(st, k) && rank(l) == rank(k) - 1;
      best := RankOneExists(win, st, rank, l);
    }
  }

  lemma RankOneUnique(win: set<Key>, st: Stage, rank: Key -> int, k: Key, l: Key)
    requires IsRanking(win, st, rank) && k in win && l in win && rank(k) <= 1 && rank(l) <= 1
    requires BucketOf(st, k) == BucketOf(st, l)
    ensures k == l
  {
    hide BucketOf, Dist;
    assert rank(k) >= 1 && rank(l) >= 1;
  }

  /** Deleting the rows ranked after the first is a thinning, whatever ranking the
      database picks among ties. */
  lemma RankedDeleteThins(before: set<Key>, win: set<Key>, st: Stage, rank: Key -> int)
    requires win <= before && IsRanking(win, st, rank)
    ensures var out := set k | k in win && rank(k) > 1;
            Thinned(before, before - out, win, st)
  {
    hide BucketOf, Dist, IsRanking;
    var out := set k | k in win && rank(k) > 1;
    var kept := win - out;
    forall k | k in win ensures exists best :: StandsFor(best, k, kept, st) {
      var best := RankOneExists(win, st, rank, k);
      assert StandsFor(best, k, kept, st);
    }
    forall k, l | k in kept && l in kept && BucketOf(st, k) == BucketOf(st, l) ensures k == l {
      RankOneUnique(win, st, rank, k, l);
    }
    assert (before - out) * win == kept;
  }

  function Buckets(st: Stage, win: set<Key>): set<Bucket> {
    set k | k in win :: BucketOf(st, k)
  }

  /** SELECT COUNT(*) ... WHERE rn > 1: all rows of the window but one per bucket. */
  function Extra(st: Stage, win: set<Key>): int {
    |win| - |Buckets(st, win)|
  }

  lemma {:induction false} OnePerBucketCount(st: Stage, s: set<Key>)
    requires forall k, l :: k in s && l in s && BucketOf(st, k) == BucketOf(st, l) ==> k == l
    ensures |Buckets(st, s)| == |s|
  {
    if s != {} {
      var k :| k in s;
      OnePerBucketCount(st, s - {k});
      assert Buckets(st, s) == Buckets(st, s - {k}) + {BucketOf(st, k)};
      assert BucketOf(st, k) !in Buckets(st, s - {k});
    }
  }

  /** However ties fall, a ranked DELETE removes exactly the counted rows. */
  lemma ThinnedCount(before: set<Key>, after: set<Key>, win: set<Key>, st: Stage)
    requires Thinned(before, after, win, st)
    ensures |before| - |after| == Extra(st, win)
  {
    hide BucketOf, Dist;
    var kept := after * win;
    OnePerBucketCount(st, kept);
    forall b | b in Buckets(st, win) ensures b in Buckets(st, kept) {
      var k :| k in win && BucketOf(st, k) == b;
      var best :| StandsFor(best, k, kept, st);
    }
    assert Buckets(st, kept) == Buckets(st, win);
    assert before == (before - win) + win && after == (before - win) + kept;
    assert |before| == |before - win| + |win| && |after| == |before - win| + |kept|;
  }

  /** Without ties the outcome is unique, so neither the database nor the order of the
      sources matters. */
  lemma ThinnedUnique(before: set<Key>, a: set<Key>, b: set<Key>, win: set<Key>, st: Stage)
    requires Thinned(before, a, win, st) && Thinned(before, b, win, st)
    requires forall k, l :: k in win && l in win && BucketOf(st, k) == BucketOf(st, l) && Dist(st, k) == Dist(st, l) ==> k == l
    ensures a == b
  {
    hide BucketOf, Dist;
    forall k | k in win ensures k in a <==> k in b {
      var x :| StandsFor(x, k, a * win, st);
      var y :| StandsFor(y, k, b * win, st);
      var x' :| StandsFor(x', y, a * win, st);
      var y' :| StandsFor(y', x, b * win, st);
      assert x == x' && y == y' && x == y;
    }
  }

  lemma BucketKeepsSource(st: Stage)
    ensures forall k, l :: BucketOf(st, k) == BucketOf(st, l) ==> k.source == l.source && k.dtype == l.dtype
  {
  }

  /** Two thinnings of windows with no bucket in common are one thinning of both. */
  lemma ThinnedUnion(before: set<Key>, mid: set<Key>, after: set<Key>, w1: set<Key>, w2: set<Key>, st: Stage)
    requires Thinned(before, mid, w1, st) && Thinned(mid, after, w2, st) && w2 <= before
    requires forall k, l :: k in w1 && l in w2 ==> BucketOf(st, k) != BucketOf(st, l)
    ensures Thinned(before, after, w1 + w2, st)
  {
    hide BucketOf, Dist;
    var kept := after * (w1 + w2);
    assert kept == mid * w1 + after * w2;
    forall k | k in w1 + w2 ensures exists best :: StandsFor(best, k, kept, st) {
      var best :| StandsFor(best, k, if k in w1 then mid * w1 else after * w2, st);
      assert StandsFor(best, k, kept, st);
    }
  }

  /** Adding one more source to those already thinned. */
  lemma ThinnedOneMore(before: set<Key>, mid: set<Key>, after: set<Key>, st: Stage, c: Cutoffs, done: set<int>, s: int)
    requires s !in done
    requires Thinned(before, mid, Window(before, st, c, done), st)
    requires Thinned(mid, after, Window(mid, st, c, {s}), st)
    ensures Thinned(before, after, Window(before, st, c, done + {s}), st)
  {
    BucketKeepsSource(st);
    hide BucketOf, Dist, InWindow, KeepsNearest;
    assert Window(mid, st, c, {s}) == Window(before, st, c, {s});
    assert Window(before, st, c, done + {s}) == Window(before, st, c, done) + Window(before, st, c, {s});
    ThinnedUnion(before, mid, after, Window(before, st, c, done), Window(before, st, c, {s}), st);
  }

  /** Whether a window was thinned right does not depend on the rows around it. */
  lemma ThinnedElsewhere(before: set<Key>, after: set<Key>, before': set<Key>, after': set<Key>, win: set<Key>, st: Stage)
    requires Thinned(before, after, win, st)
    requires win <= before' && before' - win <= after' <= before' && after * win == after' * win
    ensures Thinned(before', after', win, st)
  {
  }

  // ---------------------------------------------------------------- a whole run

  /** What one run does to the table: hourly thinning of the listed sources, then
      six-hourly thinning of them; `mid` is the table between the two. */
  ghost predicate RunThins(before: set<Key>, mid: set<Key>, after: set<Key>, c: Cutoffs) {
    && Thinned(before, mid, Window(before, Hourly, c, Listed(before, c)), Hourly)
    && Thinned(mid, after, Window(mid, SixHourly, c, Listed(before, c)), SixHourly)
  }

  /** The two dry-run counts, over the whole table and all sources. */
  function HourlyCount(rows: set<Key>, c: Cutoffs): int {
    Extra(Hourly, Window(rows, Hourly, c, Sources(rows)))
  }

  function SixHourlyCount(rows: set<Key>, c: Cutoffs): int {
    Extra(SixHourly, Window(rows, SixHourly, c, Sources(rows)))
  }

  /** With archive <= medium, the dry-run counts are exactly what a run then deletes:
      before = after + hourly + six-hourly, stage by stage. */
  lemma DryRunExact(before: set<Key>, mid: set<Key>, after: set<Key>, c: Cutoffs)
    requires c.archive <= c.medium && RunThins(before, mid, after, c)
    ensures |before| - |mid| == HourlyCount(before, c)
    ensures |mid| - |after| == SixHourlyCount(before, c)
  {
    var l := Listed(before, c);
    assert Window(before, Hourly, c, l) == Window(before, Hourly, c, Sources(before));
    assert Window(mid, SixHourly, c, l) == Window(before, SixHourly, c, Sources(before));
    ThinnedCount(before, mid, Window(before, Hourly, c, l), Hourly);
    ThinnedCount(mid, after, Window(mid, SixHourly, c, l), SixHourly);
  }

  /** No row at or after the medium cutoff goes. */
  lemma RecentKept(before: set<Key>, mid: set<Key>, after: set<Key>, c: Cutoffs, k: Key)
    requires c.archive <= c.medium && RunThins(before, mid, after, c)
    requires k in before && k.at >= c.medium
    ensures k in after
  {
  }

  /** A second run at the same cutoffs deletes nothing, whatever the cutoffs. */
  lemma SecondRunIdle(before: set<Key>, mid: set<Key>, after: set<Key>, mid2: set<Key>, after2: set<Key>, c: Cutoffs)
    requires RunThins(before, mid, after, c) && RunThins(after, mid2, after2, c)
    ensures mid2 == after && after2 == after
  {
    SecondHourlyIdle(before, mid, after, mid2, c);
    var l, l2 := Listed(before, c), Listed(after, c);
    var w6 := Window(mid, SixHourly, c, l);
    ListedShrinks(before, after, c);
    hide BucketOf, Dist, KeepsNearest;
    forall k | k in after ensures k in after2 {
      var part := Window(after, SixHourly, c, l2);
      if k in part {
        assert part <= w6 * after;
        AloneStays(mid, after, w6, after2, part, SixHourly, k);
      }
    }
  }

  lemma ListedShrinks(before: set<Key>, after: set<Key>, c: Cutoffs)
    requires after <= before
    ensures Listed(after, c) <= Listed(before, c)
  {
  }

  /** The only row of its bucket stays. */
  lemma AloneStays(before: set<Key>, after: set<Key>, win: set<Key>, again: set<Key>, part: set<Key>, st: Stage, k: Key)
    requires Thinned(before, after, win, st) && Thinned(after, again, part, st) && part <= win * after && k in part
    ensures k in again
  {
    hide BucketOf, Dist;
    var best :| StandsFor(best, k, again * part, st);
    assert best in after * win && k in after * win;
  }

  lemma SecondHourlyIdle(before: set<Key>, mid: set<Key>, after: set<Key>, mid2: set<Key>, c: Cutoffs)
    requires RunThins(before, mid, after, c)
    requires Thinned(after, mid2, Window(after, Hourly, c, Listed(after, c)), Hourly)
    ensures mid2 == after
  {
    var wh, part := Window(before, Hourly, c, Listed(before, c)), Window(after, Hourly, c, Listed(after, c));
    ListedShrinks(before, after, c);
    assert part <= wh;
    hide BucketOf, Dist;
    forall k | k in after ensures k in mid2 {
      if k in part {
        var best :| StandsFor(best, k, mid2 * part, Hourly);
        assert best in mid * wh && k in mid * wh;
      }
    }
  }

  /** The cutoffs decimate computes from its two day counts. */
  function CutoffsAt(now: int, recentDays: int, archiveDays: int): Cutoffs {
    Cutoffs(now - recentDays * 86400, now - archiveDays * 86400)
  }

  /** The dry run is trustworthy on every table exactly when recent_days <= archive_days:
      with the day counts the other way round some table has rows that are counted
      but never deleted, because no row of their source lies before the medium cutoff. */
  lemma DryRunExactIff(now: int, recentDays: int, archiveDays: int)
    ensures recentDays <= archiveDays <==>
            forall before, mid, after :: RunThins(before, mid, after, CutoffsAt(now, recentDays, archiveDays)) ==>
              |before| - |after| == HourlyCount(before, CutoffsAt(now, recentDays, archiveDays))
                                    + SixHourlyCount(before, CutoffsAt(now, recentDays, archiveDays))
  {
    var c := CutoffsAt(now, recentDays, archiveDays);
    if recentDays <= archiveDays {
      forall before, mid, after | RunThins(before, mid, after, c)
        ensures |before| - |after| == HourlyCount(before, c) + SixHourlyCount(before, c)
      {
        DryRunExact(before, mid, after, c);
      }
    } else {
      var before := UncountedTable(c);
      assert RunThins(before, before, before, c);
    }
  }

  ghost predicate RecentSafe(before: set<Key>, after: set<Key>, c: Cutoffs) {
    forall k: Key :: k in before && k.at >= c.medium ==> k in after
  }

  /** Recent rows are safe exactly when recent_days <= archive_days: only then does every
      run, on every table, keep every row at or after the medium cutoff. */
  lemma RecentKeptIff(now: int, recentDays: int, archiveDays: int)
    ensures recentDays <= archiveDays <==>
            forall before, mid, after :: RunThins(before, mid, after, CutoffsAt(now, recentDays, archiveDays)) ==>
              RecentSafe(before, after, CutoffsAt(now, recentDays, archiveDays))
  {
    var c := CutoffsAt(now, recentDays, archiveDays);
    if recentDays <= archiveDays {
      forall before, mid, after | RunThins(before, mid, after, c) ensures RecentSafe(before, after, c) {
        forall k: Key | k in before && k.at >= c.medium ensures k in after { RecentKept(before, mid, after, c, k); }
      }
    } else {
      var before, after, k := RecentThinned(c);
      assert RunThins(before, before, after, c) && !RecentSafe(before, after, c);
    }
  }

  /** Two rows a second apart between the cutoffs and an older one of the same source: the
      run thins the two to one. */
  lemma RecentThinned(c: Cutoffs) returns (before: set<Key>, after: set<Key>, lost: Key)
    requires c.archive >= c.medium + 86400
    ensures RunThins(before, before, after, c) && lost in before && lost !in after && lost.at >= c.medium
  {
    var a, b := TwoRecent(c);
    var old1 := Key(1, Flow, a.at - 10 * 86400);
    before, after, lost := {a, b, old1}, {a, old1}, b;
    assert BucketOf(SixHourly, a) != BucketOf(SixHourly, old1);
    hide BucketOf, Dist;
    assert old1 in before && old1.source in Listed(before, c);
    assert Window(before, Hourly, c, Listed(before, c)) == {};
    assert Window(before, SixHourly, c, Listed(before, c)) == before;
    hide Window, Listed;
    assert after * before == after;
    assert StandsFor(a, a, after, SixHourly) && StandsFor(a, b, after, SixHourly) && StandsFor(old1, old1, after, SixHourly);
    assert Thinned(before, after, before, SixHourly);
  }

  /** Two rows a second apart in the middle of an hour, between the two cutoffs. */
  lemma TwoRecent(c: Cutoffs) returns (a: Key, b: Key)
    requires c.archive >= c.medium + 86400
    ensures a.source == b.source == 1 && a.dtype == b.dtype == Flow
    ensures c.medium <= a.at <= c.medium + 5400 && b.at == a.at + 1 && b.at < c.archive
    ensures BucketOf(SixHourly, a) == BucketOf(SixHourly, b) && Dist(SixHourly, a) == Dist(SixHourly, b)
  {
    var t := c.medium / 3600 * 3600 + 5400;
    HalfPast(c.medium);
    a, b := Key(1, Flow, t), Key(1, Flow, t + 1);
    SameMinute(t);
    SameSlot(a, b);
  }

  lemma HalfPast(at: int)
    ensures var t := at / 3600 * 3600 + 5400; at <= t <= at + 5400 && t % 3600 == 1800
  {
    assert at / 3600 * 3600 <= at < at / 3600 * 3600 + 3600;
  }

  lemma SameMinute(t: int)
    requires t % 3600 == 1800
    ensures Day(t + 1) == Day(t) && HourOfDay(t + 1) == HourOfDay(t) && Minute(t + 1) == Minute(t)
  {
    var h := t / 3600;
    assert t == 3600 * h + 1800;
    assert (t + 1) / 3600 == h && t / 60 == (t + 1) / 60 == 60 * h + 30;
    assert t / 86400 == h / 24 && (t + 1) / 86400 == h / 24;
  }

  lemma SameSlot(a: Key, b: Key)
    requires a.source == b.source && a.dtype == b.dtype
    requires Day(a.at) == Day(b.at) && HourOfDay(a.at) == HourOfDay(b.at) && Minute(a.at) == Minute(b.at)
    ensures BucketOf(SixHourly, a) == BucketOf(SixHourly, b) && Dist(SixHourly, a) == Dist(SixHourly, b)
  {
    hide Day, HourOfDay, Minute;
  }

  lemma UncountedTable(c: Cutoffs) returns (rows: set<Key>)
    requires c.archive >= c.medium + 86400
    ensures RunThins(rows, rows, rows, c) && HourlyCount(rows, c) + SixHourlyCount(rows, c) == 1
  {
    var a, b := TwoRecent(c);
    hide BucketOf, Dist;
    rows := {a, b};
    assert Listed(rows, c) == {};
    assert Window(rows, Hourly, c, {}) == {} && Window(rows, SixHourly, c, {}) == {};
    assert Window(rows, Hourly, c, Sources(rows)) == {};
    assert Buckets(Hourly, {}) == {};
    assert a.source in Sources(rows);
    assert Window(rows, SixHourly, c, Sources(rows)) == rows;
    assert Buckets(SixHourly, rows) == {BucketOf(SixHourly, a)};
    assert |rows| == 2;
  }
}
