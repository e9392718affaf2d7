/** What a decimation run leaves, in minutes and seconds (decimate.py): the description
    names no bucket, ranking or distance function of the two statements. */
module ThinningKept {
  import opened Common
  import opened Observations
  import opened Thinning

  /** The start of the block of `width` seconds, aligned to midnight UTC, that a time is in. */
  function Start(at: int, width: int): int
    requires width > 0
  {
    at / width * width
  }

  /** Whole minutes between a time and the middle of its block. */
  function MinutesOff(at: int, width: int): nat
    requires width > 0
  {
    var middle := (Start(at, width) + width / 2) / 60;
    if at / 60 < middle then middle - at / 60 else at / 60 - middle
  }

  /** r and k are of one series and one block, and r is at least as near its middle. */
  predicate Represents(r: Key, k: Key, width: int)
    requires width > 0
  {
    && r.source == k.source && r.dtype == k.dtype
    && Start(r.at, width) == Start(k.at, width) && MinutesOff(r.at, width) <= MinutesOff(k.at, width)
  }

  function Width(st: Stage): (w: int)
    ensures w > 0
  {
    if st == Hourly then 3600 else 21600
  }

  lemma StartIff(at: int, width: int, start: int)
    requires width > 0
    ensures start == Start(at, width) <==> start % width == 0 && start <= at < start + width
  {
    assert start == start / width * width + start % width;
    if start % width == 0 && start <= at < start + width {
      var q := start / width;
      assert at / width == q by { QuotientIs(at, width, q); }
    } else if start == Start(at, width) {
      MultipleOf(at / width, width);
    }
  }

  lemma QuotientIs(at: int, width: int, q: int)
    requires width > 0 && q * width <= at < q * width + width
    ensures at / width == q
  {
    var p := at / width;
    assert p * width <= at < p * width + width;
    StepsApart(p, q, width);
    StepsApart(q, p, width);
  }

  lemma StepsApart(p: int, q: int, width: int)
    requires width > 0
    ensures p < q ==> p * width + width <= q * width
  {
    if p < q { assert (q - p - 1) * width >= 0; }
  }

  lemma MultipleOf(q: int, width: int)
    requires width > 0
    ensures q * width % width == 0
  {
    QuotientIs(q * width, width, q);
  }

  /** The ranking of the archive measures minutes from the middle of the six-hour block. */
  lemma SixHourlyDist(k: Key, start: int)
    requires start % 21600 == 0 && start <= k.at < start + 21600
    ensures Dist(SixHourly, k) == AbsInt(k.at / 60 - (start / 60 + 180)) == MinutesOff(k.at, 21600)
  {
    StartIff(k.at, 21600, start);
    SixHourClock(k.at);
  }

  /** Hours make days, and hours make blocks. */
  lemma HoursIn(at: int)
    ensures at / 3600 / 24 == at / 86400 && at / 3600 / 6 == at / 21600
  {
    QuotientIs(at, 86400, at / 3600 / 24);
    QuotientIs(at, 21600, at / 3600 / 6);
  }

  lemma HourOfBlock(hour: int)
    ensures hour % 24 % 6 == hour - hour / 6 * 6
  {
  }

  /** Hour of the block and minute of the hour make up the minutes since its start. */
  lemma SixHourClock(at: int)
    ensures at / 3600 % 24 % 6 * 60 + at / 60 % 60 == at / 60 - at / 21600 * 360
    ensures (at / 21600 * 21600 + 10800) / 60 == at / 21600 * 360 + 180 && at / 21600 * 21600 / 60 == at / 21600 * 360
  {
    HoursIn(at);
    HourOfBlock(at / 3600);
    HourClock(at);
  }

  lemma HourlyDist(k: Key, start: int)
    requires start % 3600 == 0 && start <= k.at < start + 3600
    ensures Dist(Hourly, k) == AbsInt(k.at / 60 - (start / 60 + 30)) == MinutesOff(k.at, 3600)
  {
    StartIff(k.at, 3600, start);
    HourClock(k.at);
  }

  lemma HourClock(at: int)
    ensures at / 60 % 60 == at / 60 - at / 3600 * 60
    ensures (at / 3600 * 3600 + 1800) / 60 == at / 3600 * 60 + 30 && at / 3600 * 3600 / 60 == at / 3600 * 60
  {
  }

  lemma SameBucketIff(st: Stage, a: Key, b: Key)
    ensures BucketOf(st, a) == BucketOf(st, b) <==>
            a.source == b.source && a.dtype == b.dtype && Start(a.at, Width(st)) == Start(b.at, Width(st))
  {
    HoursIn(a.at);
    HoursIn(b.at);
    match st
    case Hourly => SameHourIff(a.at / 3600, b.at / 3600);
    case SixHourly => SameBlockIff(a.at / 3600, b.at / 3600);
  }

  lemma SameHourIff(g: int, h: int)
    ensures g / 24 == h / 24 && g % 24 == h % 24 <==> g == h
  {
  }

  lemma SameBlockIff(g: int, h: int)
    ensures g / 24 == h / 24 && g % 24 / 6 == h % 24 / 6 <==> g / 6 == h / 6
  {
    QuarterOfDay(g);
    QuarterOfDay(h);
  }

  lemma QuarterOfDay(h: int)
    ensures h / 6 == h / 24 * 4 + h % 24 / 6
  {
  }

  /** Standing in is representing. */
  lemma RepresentsIff(st: Stage, r: Key, k: Key)
    ensures Represents(r, k, Width(st)) <==> BucketOf(st, r) == BucketOf(st, k) && Dist(st, r) <= Dist(st, k)
  {
    SameBucketIff(st, r, k);
    StartIff(r.at, Width(st), Start(r.at, Width(st)));
    StartIff(k.at, Width(st), Start(k.at, Width(st)));
    hide BucketOf, MinutesOff, Start, Dist;
    match st
    case Hourly =>
      HourlyDist(r, Start(r.at, 3600));
      HourlyDist(k, Start(k.at, 3600));
    case SixHourly =>
      SixHourlyDist(r, Start(r.at, 21600));
      SixHourlyDist(k, Start(k.at, 21600));
  }

  // ---------------------------------------------------------------- a run

  /** Some row of the source is older than `medium`. */
  ghost predicate HasOlder(rows: set<Key>, source: int, medium: int) {
    exists k :: k in rows && k.source == source && k.at < medium
  }

  predicate InMedium(k: Key, medium: int, archive: int) {
    archive <= k.at < medium
  }

  ghost predicate InArchive(rows: set<Key>, k: Key, medium: int, archive: int) {
    k.at < archive && HasOlder(rows, k.source, medium)
  }

  predicate SameSpan(k: Key, l: Key, width: int)
    requires width > 0
  {
    k.source == l.source && k.dtype == l.dtype && Start(k.at, width) == Start(l.at, width)
  }

  ghost predicate Represented(k: Key, kept: set<Key>, width: int)
    requires width > 0
  {
    exists r :: r in kept && Represents(r, k, width)
  }

  /** Of the rows `win`, those kept represent them all, one for each series and block. */
  ghost predicate OneEach(kept: set<Key>, win: set<Key>, width: int)
    requires width > 0
  {
    && (forall k :: k in win ==> Represented(k, kept, width))
    && (forall k, l :: k in kept && l in kept && SameSpan(k, l, width) ==> k == l)
  }

  /** What a run leaves: no new row; every row of neither term; of the medium term one row
      an hour and of the archive one row in six hours, in each series one nearest the
      middle. The archive is thinned for sources with rows older than the medium cutoff. */
  ghost predicate Kept(before: set<Key>, after: set<Key>, medium: int, archive: int) {
    var term, rest := Term(before, medium, archive), Archive(before, medium, archive);
    && after <= before && before - term - rest <= after
    && OneEach(after * term, term, 3600) && OneEach(after * rest, rest, 21600)
  }

  function Term(rows: set<Key>, medium: int, archive: int): set<Key> {
    set k | k in rows && InMedium(k, medium, archive)
  }

  ghost function Archive(rows: set<Key>, medium: int, archive: int): set<Key> {
    set k | k in rows && InArchive(rows, k, medium, archive)
  }

  lemma RepresentedIff(k: Key, kept: set<Key>, st: Stage)
    ensures Represented(k, kept, Width(st)) <==> exists best :: StandsFor(best, k, kept, st)
  {
    hide BucketOf, Dist, Represents, Width;
    if r :| r in kept && Represents(r, k, Width(st)) {
      RepresentsIff(st, r, k);
      assert StandsFor(r, k, kept, st);
    }
    if best :| StandsFor(best, k, kept, st) {
      RepresentsIff(st, best, k);
      assert Represents(best, k, Width(st));
    }
  }

  lemma AllRepresentedIff(kept: set<Key>, win: set<Key>, st: Stage)
    ensures (forall k :: k in win ==> exists best :: StandsFor(best, k, kept, st))
            <==> forall k :: k in win ==> Represented(k, kept, Width(st))
  {
    hide StandsFor, Represented, Width;
    if forall k :: k in win ==> exists best :: StandsFor(best, k, kept, st) {
      forall k | k in win ensures Represented(k, kept, Width(st)) { RepresentedIff(k, kept, st); }
    }
    if forall k :: k in win ==> Represented(k, kept, Width(st)) {
      forall k | k in win ensures exists best :: StandsFor(best, k, kept, st) { RepresentedIff(k, kept, st); }
    }
  }

  lemma AloneIff(kept: set<Key>, st: Stage)
    ensures (forall k, l :: k in kept && l in kept && BucketOf(st, k) == BucketOf(st, l) ==> k == l)
            <==> forall k, l :: k in kept && l in kept && SameSpan(k, l, Width(st)) ==> k == l
  {
    forall k, l ensures BucketOf(st, k) == BucketOf(st, l) <==> SameSpan(k, l, Width(st)) { SameBucketIff(st, k, l); }
    hide BucketOf, SameSpan, Width;
  }

  lemma KeepsNearestIff(kept: set<Key>, win: set<Key>, st: Stage)
    requires kept <= win
    ensures KeepsNearest(kept, win, st) <==> OneEach(kept, win, Width(st))
  {
    AllRepresentedIff(kept, win, st);
    AloneIff(kept, st);
    hide BucketOf, Represented, StandsFor, SameSpan, Width;
  }

  lemma ListedIff(rows: set<Key>, c: Cutoffs, source: int)
    ensures source in Listed(rows, c) <==> HasOlder(rows, source, c.medium)
  {
    if k :| k in rows && k.source == source && k.at < c.medium { assert k.source in Listed(rows, c); }
  }

  lemma WindowsAre(before: set<Key>, mid: set<Key>, c: Cutoffs)
    requires mid <= before && forall k :: k in before && k !in mid ==> c.archive <= k.at
    ensures Window(before, Hourly, c, Listed(before, c)) == Term(before, c.medium, c.archive)
    ensures Window(mid, SixHourly, c, Listed(before, c)) == Archive(before, c.medium, c.archive)
  {
    forall source ensures source in Listed(before, c) <==> HasOlder(before, source, c.medium) { ListedIff(before, c, source); }
    hide Listed;
    forall k ensures k in Window(before, Hourly, c, Listed(before, c)) <==> k in Term(before, c.medium, c.archive) {
      if k in before && k.at < c.medium { assert HasOlder(before, k.source, c.medium); }
    }
    forall k ensures k in Window(mid, SixHourly, c, Listed(before, c)) <==> k in Archive(before, c.medium, c.archive) {
    }
  }

  /** Main result: the outcomes of a run, ties resolved in any way, are exactly the tables
      the description allows. */
  lemma RunIff(before: set<Key>, after: set<Key>, c: Cutoffs)
    ensures (exists mid :: RunThins(before, mid, after, c)) <==> Kept(before, after, c.medium, c.archive)
  {
    if mid :| RunThins(before, mid, after, c) { RunKeeps(before, mid, after, c); }
    if Kept(before, after, c.medium, c.archive) {
      var mid := after + Archive(before, c.medium, c.archive);
      KeptByRun(before, mid, after, c);
    }
  }

  lemma RunKeeps(before: set<Key>, mid: set<Key>, after: set<Key>, c: Cutoffs)
    requires RunThins(before, mid, after, c)
    ensures Kept(before, after, c.medium, c.archive)
  {
    var term, rest := Term(before, c.medium, c.archive), Archive(before, c.medium, c.archive);
    WindowsAre(before, before, c);
    WindowsAre(before, mid, c);
    assert after * term == mid * term;
    KeepsNearestIff(mid * term, term, Hourly);
    KeepsNearestIff(after * rest, rest, SixHourly);
    hide KeepsNearest, OneEach;
  }

  lemma KeptByRun(before: set<Key>, mid: set<Key>, after: set<Key>, c: Cutoffs)
    requires Kept(before, after, c.medium, c.archive) && mid == after + Archive(before, c.medium, c.archive)
    ensures RunThins(before, mid, after, c)
  {
    hide BucketOf, Dist, StandsFor, Represented, SameSpan, Listed, HasOlder, KeepsNearest;
    var term, rest := Term(before, c.medium, c.archive), Archive(before, c.medium, c.archive);
    WindowsAre(before, mid, c);
    assert after * term == mid * term;
    KeepsNearestIff(mid * term, term, Hourly);
    KeepsNearestIff(after * rest, rest, SixHourly);
    hide OneEach;
  }
}
