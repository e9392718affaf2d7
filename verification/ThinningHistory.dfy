/** Whole histories of the observation table: inserts and decimation runs, cutoffs
    moving on as time passes. */
module ThinningHistory {
  import opened Common
  import opened Observations
  import opened Thinning
  import opened ThinningKept

  /** A run records the table between its two stages. */
  datatype Event = Insert(rows: set<Key>) | Decimation(c: Cutoffs, mid: set<Key>)

  ghost predicate Happens(before: set<Key>, e: Event, after: set<Key>) {
    match e
    case Insert(rows) => after == before + rows
    case Decimation(c, mid) => RunThins(before, mid, after, c)
  }

  /** tables[i] is the table before events[i]; ties may fall any way in every run. */
  ghost predicate History(tables: seq<set<Key>>, events: seq<Event>) {
    && |tables| == |events| + 1
    && forall i :: 0 <= i < |events| ==> Happens(tables[i], events[i], tables[i + 1])
  }

  predicate SameBlock(a: Key, b: Key) {
    BucketOf(SixHourly, a) == BucketOf(SixHourly, b)
  }

  predicate SameHour(a: Key, b: Key) {
    BucketOf(Hourly, a) == BucketOf(Hourly, b)
  }

  /** An hour lies in one six-hour block, and two rows of an hour are at most 59 minutes
      apart as the six-hourly ranking measures it. */
  lemma HourInBlock(a: Key, b: Key)
    requires SameHour(a, b)
    ensures SameBlock(a, b) && Dist(SixHourly, a) <= Dist(SixHourly, b) + 59
  {
  }

  /** Where a row lost to a thinning leaves its stand-in. */
  lemma StandIn(before: set<Key>, after: set<Key>, win: set<Key>, st: Stage, k: Key) returns (r: Key)
    requires Thinned(before, after, win, st) && k in before
    ensures r in after
    ensures if k in win then r in win && BucketOf(st, r) == BucketOf(st, k) && Dist(st, r) <= Dist(st, k) else r == k
  {
    hide BucketOf, Dist;
    if k in win {
      r :| StandsFor(r, k, after * win, st);
    } else {
      r := k;
    }
  }

  lemma BlockStep(before: set<Key>, e: Event, after: set<Key>, k: Key) returns (r: Key)
    requires Happens(before, e, after) && k in before
    ensures r in after && SameBlock(r, k)
  {
    match e
    case Insert(_) => r := k;
    case Decimation(c, mid) =>
      r := StandIn(before, mid, Window(before, Hourly, c, Listed(before, c)), Hourly, k);
      if r != k { HourInBlock(r, k); }
      var r2 := StandIn(mid, after, Window(mid, SixHourly, c, Listed(before, c)), SixHourly, r);
      r := r2;
  }

  /** Every observation ever stored keeps a surviving row of its source and type in its
      six-hour block, through any inserts and any runs, whatever their cutoffs. */
  lemma {:induction false} EveryBlockSurvives(tables: seq<set<Key>>, events: seq<Event>, i: nat, j: nat, k: Key) returns (r: Key)
    requires History(tables, events) && i <= j < |tables| && k in tables[i]
    ensures r in tables[j] && SameBlock(r, k)
    ensures r.source == k.source && r.dtype == k.dtype && Start(r.at, 21600) == Start(k.at, 21600)
    decreases j
  {
    if i == j {
      r := k;
    } else {
      hide SameBlock, RunThins, Start;
      var q := EveryBlockSurvives(tables, events, i, j - 1, k);
      assert Happens(tables[j - 1], events[j - 1], tables[j - 1 + 1]);
      r := BlockStep(tables[j - 1], events[j - 1], tables[j], q);
      BlockTrans(r, q, k);
    }
  }

  lemma BlockTrans(r: Key, q: Key, k: Key)
    requires SameBlock(r, q) && SameBlock(q, k)
    ensures SameBlock(r, k) && r.source == k.source && r.dtype == k.dtype && Start(r.at, 21600) == Start(k.at, 21600)
  {
    SameBucketIff(SixHourly, r, k);
  }

  /** Cutoffs are in order in each run, and the archive cutoff never moves back. */
  ghost predicate Advancing(events: seq<Event>) {
    && (forall i :: 0 <= i < |events| && events[i].Decimation? ==> events[i].c.archive <= events[i].c.medium)
    && (forall i, j :: 0 <= i < j < |events| && events[i].Decimation? && events[j].Decimation? ==>
          events[i].c.archive <= events[j].c.archive)
  }

  /** Some run before step n had its archive cutoff after `at`. */
  ghost predicate Archived(events: seq<Event>, n: nat, at: int)
    requires n <= |events|
  {
    exists i :: 0 <= i < n && events[i].Decimation? && at < events[i].c.archive
  }

  /** r speaks for k: it is in k's own hour, or it lies before an archive cutoff already
      applied, hardly farther from the middle of the block than k. */
  ghost predicate SpeaksFor(r: Key, k: Key, events: seq<Event>, n: nat)
    requires n <= |events|
  {
    SameHour(r, k)
    || (SameBlock(r, k) && Dist(SixHourly, r) <= Dist(SixHourly, k) + 59 && Archived(events, n, r.at))
  }

  lemma SpeakerNear(r: Key, k: Key, events: seq<Event>, n: nat)
    requires n <= |events| && SpeaksFor(r, k, events, n)
    ensures SameBlock(r, k) && Dist(SixHourly, r) <= Dist(SixHourly, k) + 59
  {
    if SameHour(r, k) { HourInBlock(r, k); }
  }

  lemma SpeakerStep(before: set<Key>, after: set<Key>, events: seq<Event>, n: nat, r: Key, k: Key) returns (r': Key)
    requires n < |events| && Advancing(events) && Happens(before, events[n], after)
    requires r in before && SpeaksFor(r, k, events, n)
    ensures r' in after && SpeaksFor(r', k, events, n + 1)
  {
    match events[n]
    case Insert(_) =>
      r' := r;
      StillArchived(events, n, r.at);
    case Decimation(c, mid) =>
      var q := HourlyKeepsSpeaker(before, mid, events, n, r, k);
      SpeakerNear(q, k, events, n);
      r' := StandIn(mid, after, Window(mid, SixHourly, c, Listed(before, c)), SixHourly, q);
      if r' != q {
        assert Archived(events, n + 1, r'.at);
      } else {
        StillArchived(events, n, q.at);
      }
  }

  lemma StillArchived(events: seq<Event>, n: nat, at: int)
    requires n < |events|
    ensures Archived(events, n, at) ==> Archived(events, n + 1, at)
  {
  }

  lemma HourlyKeepsSpeaker(before: set<Key>, mid: set<Key>, events: seq<Event>, n: nat, r: Key, k: Key) returns (q: Key)
    requires n < |events| && Advancing(events) && events[n].Decimation?
    requires Thinned(before, mid, Window(before, Hourly, events[n].c, Listed(before, events[n].c)), Hourly)
    requires r in before && SpeaksFor(r, k, events, n)
    ensures q in mid && SpeaksFor(q, k, events, n)
  {
    var win := Window(before, Hourly, events[n].c, Listed(before, events[n].c));
    q := StandIn(before, mid, win, Hourly, r);
    if q != r {
      assert SameHour(q, r);
      assert !Archived(events, n, r.at);
    }
  }

  lemma {:induction false} SpeakerAlways(tables: seq<set<Key>>, events: seq<Event>, i: nat, j: nat, k: Key) returns (r: Key)
    requires History(tables, events) && Advancing(events) && i <= j < |tables| && k in tables[i]
    ensures r in tables[j] && SpeaksFor(r, k, events, j)
    decreases j
  {
    if i == j {
      r := k;
    } else {
      hide SpeaksFor, RunThins, Advancing;
      var q := SpeakerAlways(tables, events, i, j - 1, k);
      assert Happens(tables[j - 1], events[j - 1], tables[j - 1 + 1]);
      r := SpeakerStep(tables[j - 1], tables[j], events, j - 1, q, k);
    }
  }

  /** Thinning stays near-optimal for ever: after any history with advancing cutoffs,
      hourly thinning first and six-hourly later, in one step or many, with any
      inserts in between, each row k ever stored has a survivor in its six-hour block
      at most 59 minutes farther from the middle of the block than k itself. */
  lemma NearOptimalForEver(tables: seq<set<Key>>, events: seq<Event>, i: nat, j: nat, k: Key) returns (r: Key)
    requires History(tables, events) && Advancing(events) && i <= j < |tables| && k in tables[i]
    ensures r in tables[j] && r.source == k.source && r.dtype == k.dtype
    ensures Start(r.at, 21600) == Start(k.at, 21600) && MinutesOff(r.at, 21600) <= MinutesOff(k.at, 21600) + 59
  {
    r := SpeakerAlways(tables, events, i, j, k);
    SpeakerNear(r, k, events, j);
    BlockInMinutes(r, k);
  }

  lemma BlockInMinutes(r: Key, k: Key)
    requires SameBlock(r, k)
    ensures r.source == k.source && r.dtype == k.dtype && Start(r.at, 21600) == Start(k.at, 21600)
    ensures Dist(SixHourly, r) == MinutesOff(r.at, 21600) && Dist(SixHourly, k) == MinutesOff(k.at, 21600)
  {
    SameBucketIff(SixHourly, r, k);
    StartIff(r.at, 21600, Start(r.at, 21600));
    StartIff(k.at, 21600, Start(k.at, 21600));
    hide BucketOf, Dist, Start, MinutesOff;
    SixHourlyDist(r, Start(r.at, 21600));
    SixHourlyDist(k, Start(k.at, 21600));
  }

  lemma LoneRowStays(k: Key, mid: set<Key>, after: set<Key>, c: Cutoffs)
    requires RunThins({k}, mid, after, c)
    ensures mid == {k} && after == {k}
  {
    hide BucketOf, Dist;
    var r := StandIn({k}, mid, Window({k}, Hourly, c, Listed({k}, c)), Hourly, k);
    var q := StandIn(mid, after, Window(mid, SixHourly, c, Listed({k}, c)), SixHourly, r);
  }

  const MIDDLE := Key(1, Flow, 3 * 3600)
  const LATE := Key(1, Flow, 3 * 3600 + 59 * 60)

  lemma BothInWindow(c: Cutoffs)
    requires c == Cutoffs(86400, 0)
    ensures Window({MIDDLE, LATE}, Hourly, c, Listed({MIDDLE, LATE}, c)) == {MIDDLE, LATE}
  {
    assert MIDDLE.source in Listed({MIDDLE, LATE}, c);
  }

  lemma HourPrefersLate(mid: set<Key>, c: Cutoffs)
    requires c == Cutoffs(86400, 0)
    requires Thinned({MIDDLE, LATE}, mid, Window({MIDDLE, LATE}, Hourly, c, Listed({MIDDLE, LATE}, c)), Hourly)
    ensures mid == {LATE}
  {
    var before := {MIDDLE, LATE};
    BothInWindow(c);
    assert Dist(Hourly, LATE) == 29 && Dist(Hourly, MIDDLE) == 30 && SameHour(LATE, MIDDLE);
    hide BucketOf, Dist, Window, Listed;
    var r := StandIn(before, mid, before, Hourly, LATE);
    var s := StandIn(before, mid, before, Hourly, MIDDLE);
    assert r == LATE && s == r by {
      assert r in mid * before && s in mid * before && SameHour(r, s);
    }
    assert MIDDLE !in mid;
  }

  /** The bound cannot be improved: rows at minutes 0 and 59 of the fourth hour of a
      block, thinned hourly and then six-hourly, always leave the one at minute 59,
      although the other was exactly in the middle of the block. */
  lemma BoundIsTight(mid1: set<Key>, after1: set<Key>, mid2: set<Key>, after2: set<Key>)
    requires RunThins({MIDDLE, LATE}, mid1, after1, Cutoffs(86400, 0))
    requires RunThins(after1, mid2, after2, Cutoffs(2 * 86400, 86400))
    ensures after2 == {LATE} && MinutesOff(MIDDLE.at, 21600) == 0 && MinutesOff(LATE.at, 21600) == 59
  {
    var c := Cutoffs(86400, 0);
    HourPrefersLate(mid1, c);
    assert Window(mid1, SixHourly, c, Listed({MIDDLE, LATE}, c)) == {};
    assert after1 == {LATE};
    LoneRowStays(LATE, mid2, after2, Cutoffs(2 * 86400, 86400));
  }
}
