/** The reverse-DNS cache of humans.py: four dictionaries, the per-process set of
    attempted addresses, and the JSON file behind them. Times are whole seconds.

    Everything the program does to an address it does to that address alone, except
    that the worker pool decides its fate, so the specification is written slot by
    slot: a Slot is what the dictionaries say about one address. */
module RdnsCache {
  import opened Common
  import opened RdnsPool

  const DAY := 86400
  const NEG_RETRY_BASE := 7 * DAY
  const NEG_RETRY_MAX := 182 * DAY
  const CACHE_TTL := 182 * DAY

  /** A value of the cache file. JSON true/false count as JInt(1)/JInt(0), because
      isinstance(True, int) holds; every other shape is JOther. */
  datatype Json = JStr(s: string) | JInt(i: int) | JList(items: seq<Json>) | JOther

  datatype Entry = Entry(name: string, lastSeen: int, retryAfter: int, failCount: int)

  datatype Slot = Slot(name: Option<string>, seen: Option<int>, retryAfter: Option<int>,
                       failCount: Option<int>, attempted: bool)

  const EMPTY_SLOT := Slot(None, None, None, None, false)

  /** What a worker pool did with an address by the deadline. */
  datatype Fate = NotStarted | Stuck | Answered(name: string)

  /** The file, by address; an unreadable or missing file holds nothing. */
  type Disk = Ip -> Option<Json>
  type Slots = Ip -> Slot

  function DiskOf(data: map<Ip, Json>): Disk {
    ip => Lookup(data, ip)
  }

  // ---------------------------------------------------------------- file format

  function ParseEntry(v: Json): Option<Entry> {
    match v
    case JStr(s) => Some(Entry(s, 0, 0, 0))
    case JList(items) =>
      if |items| < 2 || !items[0].JStr? || !items[1].JInt? then None else
      var ra := if |items| >= 3 && items[2].JInt? then items[2].i else 0;
      var fc := if |items| >= 4 && items[3].JInt? then items[3].i else 0;
      Some(Entry(items[0].s, items[1].i, ra, if ra != 0 && fc == 0 then 1 else fc))
    case _ => None
  }

  /** The entry a load at `now` keeps of a stored value: a legacy entry counts as just
      seen, and one not seen for 182 days is dropped. */
  function KeptEntry(v: Option<Json>, now: int): Option<Entry> {
    if v.None? then None else
    var p := ParseEntry(v.value);
    if p.None? then None else
    var e := if p.value.lastSeen == 0 then p.value.(lastSeen := now) else p.value;
    if e.lastSeen < now - CACHE_TTL then None else Some(e)
  }

  /** The value a save writes for a slot, if it writes one. */
  function SavedEntry(s: Slot): Option<Json> {
    if s.name.None? || s.seen.None? then None
    else if s.retryAfter.Some? && s.retryAfter.value != 0 then
      Some(JList([JStr(s.name.value), JInt(s.seen.value), JInt(s.retryAfter.value),
                  JInt(if s.failCount.Some? then s.failCount.value else 1)]))
    else Some(JList([JStr(s.name.value), JInt(s.seen.value)]))
  }

  // ---------------------------------------------------------------- one address

  function SetDefault<T>(o: Option<T>, v: T): Option<T> {
    if o.Some? then o else Some(v)
  }

  function StoredSlot(s: Slot, e: Entry): Slot {
    s.(name := SetDefault(s.name, e.name), seen := SetDefault(s.seen, e.lastSeen),
       retryAfter := if e.retryAfter != 0 then SetDefault(s.retryAfter, e.retryAfter) else s.retryAfter,
       failCount := if e.failCount != 0 then SetDefault(s.failCount, e.failCount) else s.failCount)
  }

  function LoadedSlot(s: Slot, stored: Option<Json>, now: int): Slot {
    var e := KeptEntry(stored, now);
    if e.Some? then StoredSlot(s, e.value) else s
  }

  /** The slot just before targets are chosen: loaded once per process, then stamped
      as seen if the address occurs in the call. */
  function PreparedSlot(s: Slot, loaded: bool, stored: Option<Json>, called: bool, loadAt: int, now: int): Slot {
    var s1 := if loaded then s else LoadedSlot(s, stored, loadAt);
    if called then s1.(seen := Some(now)) else s1
  }

  predicate IsTarget(s: Slot, now: int) {
    && !s.attempted
    && (s.name.None? || (s.retryAfter.Some? && now >= s.retryAfter.value))
  }

  /** The retry window after the n-th black-hole in a row. Counts below 1 only come
      from a file the program did not write; there the program's float fraction of
      the base is taken downwards. */
  function Interval(n: int): (d: int)
    ensures 0 <= d <= NEG_RETRY_MAX
    ensures n >= 1 ==> d >= NEG_RETRY_BASE
  {
    if n <= 0 then NEG_RETRY_BASE / Pow2(1 - n)
    else MinInt(NEG_RETRY_BASE * Pow2(n - 1), NEG_RETRY_MAX)
  }

  /** Seven days after the first black-hole, doubled by each further one up to 182 days. */
  lemma IntervalDoubles(n: int)
    ensures Interval(1) == 7 * DAY
    ensures n >= 1 ==> Interval(n + 1) == MinInt(2 * Interval(n), 182 * DAY)
  {
    assert Pow2(0) == 1;
    if n >= 1 { assert Pow2(n) == 2 * Pow2(n - 1); }
  }

  function Fails(s: Slot): int {
    if s.failCount.Some? then s.failCount.value else 0
  }

  function SettledSlot(s: Slot, fate: Fate, now: int): Slot {
    match fate
    case NotStarted => s
    case Answered(name) => s.(name := Some(name), retryAfter := None, failCount := None)
    case Stuck =>
      s.(name := Some(""), retryAfter := Some(now + Interval(Fails(s) + 1)), failCount := Some(Fails(s) + 1))
  }

  // ---------------------------------------------------------------- a whole warm call

  /** A call of warm_rdns: its duplicate-free address list in sorted order, its two
      clock readings, and what the workers manage to do before the deadline. */
  datatype Call = Call(ips: seq<Ip>, loadAt: int, now: int, workers: nat, schedule: seq<Event>)

  function Prepared(slots: Slots, loaded: bool, disk: Disk, c: Call): Slots {
    ip => PreparedSlot(slots(ip), loaded, disk(ip), ip in c.ips, c.loadAt, c.now)
  }

  function Targets(slots: Slots, ips: seq<Ip>, now: int): (ts: seq<Ip>)
    ensures forall ip :: ip in ts <==> ip in ips && IsTarget(slots(ip), now)
  {
    if ips == [] then []
    else
      var rest := Targets(slots, ips[..|ips| - 1], now);
      var ip := ips[|ips| - 1];
      if IsTarget(slots(ip), now) then rest + [ip] else rest
  }

  function PoolOf(prepared: Slots, c: Call): Pool {
    Run(Init(Targets(prepared, c.ips, c.now), c.workers), c.schedule)
  }

  function FateOf(started: set<Ip>, resolved: map<Ip, string>, ip: Ip): Fate {
    if ip in resolved then Fate.Answered(resolved[ip])
    else if ip in started then Stuck
    else NotStarted
  }

  function FateIn(prepared: Slots, c: Call, ip: Ip): Fate {
    var p := PoolOf(prepared, c);
    FateOf(p.started, p.resolved, ip)
  }

  /** The slot after the call, from the prepared slots. */
  function Settled(prepared: Slots, c: Call, ip: Ip): Slot {
    var s := prepared(ip);
    SettledSlot(s.(attempted := s.attempted || ip in Targets(prepared, c.ips, c.now)), FateIn(prepared, c, ip), c.now)
  }

  function Warmed(slots: Slots, loaded: bool, disk: Disk, c: Call): Slots {
    var prepared := Prepared(slots, loaded, disk, c);
    ip => Settled(prepared, c, ip)
  }

  // ---------------------------------------------------------------- the module state and its functions

  class Cache {
    var cache: map<Ip, string>
    var lastSeen: map<Ip, int>
    var retryAfter: map<Ip, int>
    var failCount: map<Ip, int>
    var attempted: set<Ip>
    var loaded: bool

    ghost function At(ip: Ip): Slot
      reads this
    {
      Slot(Lookup(cache, ip), Lookup(lastSeen, ip), Lookup(retryAfter, ip), Lookup(failCount, ip), ip in attempted)
    }

    ghost function AllSlots(): Slots
      reads this
    {
      var c, l, r, f, a := cache, lastSeen, retryAfter, failCount, attempted;
      ip => Slot(Lookup(c, ip), Lookup(l, ip), Lookup(r, ip), Lookup(f, ip), ip in a)
    }

    constructor ()
      ensures !loaded && forall ip :: At(ip) == EMPTY_SLOT
    {
      cache, lastSeen, retryAfter, failCount, attempted, loaded := map[], map[], map[], map[], {}, false;
    }

    method Store(ip: Ip, e: Entry)
      modifies this
      ensures loaded == old(loaded)
      ensures forall i :: At(i) == if i == ip then StoredSlot(old(At(i)), e) else old(At(i))
      ensures ip in cache && cache[ip] == GetOr(old(cache), ip, e.name)
      ensures ip in lastSeen && lastSeen[ip] == GetOr(old(lastSeen), ip, e.lastSeen)
      ensures GetOr(retryAfter, ip, 0) == GetOr(old(retryAfter), ip, e.retryAfter)
      ensures GetOr(failCount, ip, 0) == GetOr(old(failCount), ip, e.failCount)
    {
      cache := if ip in cache then cache else cache[ip := e.name];
      lastSeen := if ip in lastSeen then lastSeen else lastSeen[ip := e.lastSeen];
      retryAfter := if e.retryAfter == 0 || ip in retryAfter then retryAfter else retryAfter[ip := e.retryAfter];
      failCount := if e.failCount == 0 || ip in failCount then failCount else failCount[ip := e.failCount];
    }

    method LoadFromDisk(data: map<Ip, Json>, now: int)
      modifies this
      ensures loaded
      ensures forall i :: At(i) == if old(loaded) then old(At(i)) else LoadedSlot(old(At(i)), Lookup(data, i), now)
    {
      if loaded { return; }
      loaded := true;
      var todo := data.Keys;
      while todo != {}
        invariant loaded && todo <= data.Keys
        invariant forall i :: At(i) == if i in todo then old(At(i)) else LoadedSlot(old(At(i)), Lookup(data, i), now)
        decreases |todo|
      {
        var ip :| ip in todo;
        todo := todo - {ip};
        var e := KeptEntry(Some(data[ip]), now);
        if e.Some? {
          Store(ip, e.value);
        }
      }
    }

    method Save() returns (out: map<Ip, Json>)
      ensures forall i :: Lookup(out, i) == SavedEntry(At(i))
    {
      out := map[];
      var todo := cache.Keys;
      while todo != {}
        invariant todo <= cache.Keys
        invariant forall i :: Lookup(out, i) == if i in todo then None else SavedEntry(At(i))
        decreases |todo|
      {
        var ip :| ip in todo;
        todo := todo - {ip};
        if ip in lastSeen {
          var ts := lastSeen[ip];
          var ra := GetOr(retryAfter, ip, 0);
          if ra != 0 {
            out := out[ip := JList([JStr(cache[ip]), JInt(ts), JInt(ra), JInt(GetOr(failCount, ip, 1))])];
          } else {
            out := out[ip := JList([JStr(cache[ip]), JInt(ts)])];
          }
        }
      }
    }

    /** Refresh last-seen and pick the targets. */
    method Prepare(ips: seq<Ip>, now: int) returns (targets: seq<Ip>)
      modifies this
      ensures loaded == old(loaded)
      ensures forall i :: At(i) == if i in ips then old(At(i)).(seen := Some(now)) else old(At(i))
      ensures forall s: Slots :: (forall i :: s(i) == At(i)) ==> targets == Targets(s, ips, now)
    {
      var k := 0;
      while k < |ips|
        invariant 0 <= k <= |ips| && loaded == old(loaded)
        invariant forall i :: At(i) == if i in ips[..k] then old(At(i)).(seen := Some(now)) else old(At(i))
      {
        lastSeen := lastSeen[ips[k] := now];
        k := k + 1;
      }
      assert ips[..k] == ips;
      label chosen:
      targets, k := [], 0;
      while k < |ips|
        invariant 0 <= k <= |ips|
        invariant forall s: Slots :: (forall i :: s(i) == At(i)) ==> targets == Targets(s, ips[..k], now)
      {
        var ip := ips[k];
        assert ips[..k + 1][..k] == ips[..k];
        assert IsTarget(At(ip), now) <==> (ip !in attempted && (ip !in cache || (ip in retryAfter && now >= retryAfter[ip])));
        if ip !in attempted && (ip !in cache || (ip in retryAfter && now >= retryAfter[ip])) {
          targets := targets + [ip];
        }
        k := k + 1;
      }
      assert ips[..k] == ips;
    }

    method Confirm(resolved: map<Ip, string>, now: int)
      modifies this
      ensures loaded == old(loaded)
      ensures forall i :: At(i) == if i in resolved then SettledSlot(old(At(i)), Fate.Answered(resolved[i]), now) else old(At(i))
    {
      var todo := resolved.Keys;
      while todo != {}
        invariant todo <= resolved.Keys && loaded == old(loaded)
        invariant forall i :: At(i) == if i in resolved && i !in todo then SettledSlot(old(At(i)), Fate.Answered(resolved[i]), now) else old(At(i))
        decreases |todo|
      {
        var ip :| ip in todo;
        todo := todo - {ip};
        ConfirmOne(ip, resolved[ip], now);
      }
    }

    method ConfirmOne(ip: Ip, name: string, now: int)
      modifies this
      ensures loaded == old(loaded)
      ensures forall i :: At(i) == if i == ip then SettledSlot(old(At(i)), Fate.Answered(name), now) else old(At(i))
    {
      cache := cache[ip := name];
      retryAfter := retryAfter - {ip};
      failCount := failCount - {ip};
    }

    method Penalise(stuck: set<Ip>, now: int)
      modifies this
      ensures loaded == old(loaded)
      ensures forall i :: At(i) == if i in stuck then SettledSlot(old(At(i)), Stuck, now) else old(At(i))
    {
      var todo := stuck;
      while todo != {}
        invariant todo <= stuck && loaded == old(loaded)
        invariant forall i :: At(i) == if i in stuck && i !in todo then SettledSlot(old(At(i)), Stuck, now) else old(At(i))
        decreases |todo|
      {
        var ip :| ip in todo;
        todo := todo - {ip};
        PenaliseOne(ip, now);
      }
    }

    method PenaliseOne(ip: Ip, now: int)
      modifies this
      ensures loaded == old(loaded)
      ensures forall i :: At(i) == if i == ip then SettledSlot(old(At(i)), Stuck, now) else old(At(i))
    {
      var n := GetOr(failCount, ip, 0) + 1;
      assert n == Fails(At(ip)) + 1;
      cache := cache[ip := ""];
      retryAfter := retryAfter[ip := now + Interval(n)];
      failCount := failCount[ip := n];
    }

    /** Confirmed answers first, then the black-holed addresses. */
    method Settle(resolved: map<Ip, string>, started: set<Ip>, now: int)
      modifies this
      ensures loaded == old(loaded)
      ensures forall i :: At(i) == SettledSlot(old(At(i)), FateOf(started, resolved, i), now)
    {
      Confirm(resolved, now);
      Penalise(started - resolved.Keys, now);
    }

    /** Look up the chosen targets and record what came of each. */
    method Sweep(targets: seq<Ip>, c: Call, ghost prepared: Slots)
      requires loaded && forall i :: prepared(i) == At(i)
      requires targets == Targets(prepared, c.ips, c.now)
      modifies this
      ensures loaded && forall i :: At(i) == Settled(prepared, c, i)
    {
      attempted := attempted + Elems(targets);
      assert forall i :: At(i) == prepared(i).(attempted := prepared(i).attempted || i in targets);
      var resolved, started := ResolveParallel(targets, c.workers, c.schedule);
      Settle(resolved, started, c.now);
    }

    /** warm_rdns: the new state, address by address, and what a successful save writes. */
    method WarmRdns(data: map<Ip, Json>, c: Call) returns (out: map<Ip, Json>)
      modifies this
      ensures loaded
      ensures forall i :: At(i) == Warmed(old(AllSlots()), old(loaded), DiskOf(data), c)(i)
      ensures NoDup(c.ips) ==>
                forall i, name :: Heard(Wanted(old(AllSlots()), old(loaded), DiskOf(data), c), c.workers, c.schedule, i, name) ==>
                  i in cache && cache[i] == name && i !in retryAfter && i !in failCount
      ensures forall i :: Lookup(out, i) == SavedEntry(At(i))
    {
      ghost var prepared := Prepared(AllSlots(), loaded, DiskOf(data), c);
      ghost var slots, was := AllSlots(), loaded;
      LoadFromDisk(data, c.loadAt);
      var targets := Prepare(c.ips, c.now);
      assert forall i :: prepared(i) == At(i);
      if targets == [] {
        NoTargets(prepared, c);
        out := Save();
      } else {
        Sweep(targets, c, prepared);
        out := Save();
      }
      HeardNames(slots, was, DiskOf(data), c);
    }
  }

  lemma NoTargets(prepared: Slots, c: Call)
    requires Targets(prepared, c.ips, c.now) == []
    ensures forall i :: Settled(prepared, c, i) == prepared(i)
  {
    InvRun([], c.workers, c.schedule);
  }

  // ---------------------------------------------------------------- invariants and laws

  /** An address is either confirmed, with no backoff, or negative: an empty name, a
      retry time and a failure count. */
  predicate CoherentSlot(s: Slot) {
    && (s.name.Some? ==> s.seen.Some?)
    && (s.retryAfter.Some? <==> s.failCount.Some?)
    && (s.retryAfter.Some? ==> s.name == Some("") && s.retryAfter.value > 0 && s.failCount.value >= 1)
  }

  predicate CoherentEntry(e: Entry) {
    && (e.retryAfter == 0 <==> e.failCount == 0)
    && (e.retryAfter != 0 ==> e.name == "" && e.retryAfter > 0 && e.failCount >= 1)
  }

  predicate CoherentValue(v: Option<Json>) {
    v.Some? && ParseEntry(v.value).Some? ==> CoherentEntry(ParseEntry(v.value).value)
  }

  /** A load into a fresh process gives a coherent slot exactly when the value it
      keeps is coherent. */
  lemma LoadCoherentIff(v: Option<Json>, now: int)
    ensures CoherentSlot(LoadedSlot(EMPTY_SLOT, v, now))
            <==> (KeptEntry(v, now).Some? ==> CoherentEntry(KeptEntry(v, now).value))
  {
  }

  /** What a slot is in the file: nothing without a name or a last-seen stamp, a pair
      without a retry time, and with one also the retry time and the count, 1 if unknown. */
  lemma SavedShapes(name: string, seen: int, retry: int, fails: int, attempted: bool)
    requires retry != 0
    ensures SavedEntry(Slot(Some(name), Some(seen), None, None, attempted)) == Some(JList([JStr(name), JInt(seen)]))
    ensures SavedEntry(Slot(Some(name), Some(seen), Some(0), Some(fails), attempted)) == Some(JList([JStr(name), JInt(seen)]))
    ensures SavedEntry(Slot(Some(name), Some(seen), Some(retry), Some(fails), attempted))
            == Some(JList([JStr(name), JInt(seen), JInt(retry), JInt(fails)]))
    ensures SavedEntry(Slot(Some(name), Some(seen), Some(retry), None, attempted))
            == Some(JList([JStr(name), JInt(seen), JInt(retry), JInt(1)]))
    ensures forall s: Slot :: SavedEntry(s).None? <==> s.name.None? || s.seen.None?
  {
  }

  /** What each shape of a stored value is to a new process. A bare name is a confirmed one
      just seen; a pair is a confirmed one, dropped if last seen more than 182 days ago; a
      retry time makes it negative, with one failure unless the file counts more. */
  lemma StoredShapes(name: string, seen: int, retry: int, fails: int, now: int)
    requires seen > 0 && retry > 0 && fails > 0
    ensures LoadedSlot(EMPTY_SLOT, Some(JStr(name)), now) == Slot(Some(name), Some(now), None, None, false)
    ensures LoadedSlot(EMPTY_SLOT, Some(JList([JStr(name), JInt(0)])), now) == Slot(Some(name), Some(now), None, None, false)
    ensures var pair := LoadedSlot(EMPTY_SLOT, Some(JList([JStr(name), JInt(seen)])), now);
            pair == if now - seen > 182 * 86400 then EMPTY_SLOT else Slot(Some(name), Some(seen), None, None, false)
    ensures now - seen <= 182 * 86400 ==>
              && LoadedSlot(EMPTY_SLOT, Some(JList([JStr(name), JInt(seen), JInt(retry), JInt(fails)])), now)
                 == Slot(Some(name), Some(seen), Some(retry), Some(fails), false)
              && LoadedSlot(EMPTY_SLOT, Some(JList([JStr(name), JInt(seen), JInt(retry)])), now)
                 == LoadedSlot(EMPTY_SLOT, Some(JList([JStr(name), JInt(seen), JInt(retry), JInt(0)])), now)
                 == Slot(Some(name), Some(seen), Some(retry), Some(1), false)
    ensures LoadedSlot(EMPTY_SLOT, Some(JOther), now) == LoadedSlot(EMPTY_SLOT, Some(JInt(seen)), now) == EMPTY_SLOT
    ensures LoadedSlot(EMPTY_SLOT, Some(JList([JStr(name)])), now) == EMPTY_SLOT
    ensures LoadedSlot(EMPTY_SLOT, Some(JList([JInt(seen), JInt(seen)])), now) == EMPTY_SLOT
  {
  }

  /** The file format is lossless: the saved value of a coherent slot, loaded in a
      fresh process, gives back name, last-seen, retry time and failure count, unless
      the address was last seen more than 182 days before the load; then nothing. */
  lemma SaveLoadRoundTrip(s: Slot, now: int)
    requires CoherentSlot(s) && (s.seen.Some? ==> s.seen.value != 0)
    ensures CoherentValue(SavedEntry(s))
    ensures LoadedSlot(EMPTY_SLOT, SavedEntry(s), now)
            == if s.name.Some? && s.seen.value >= now - CACHE_TTL then s.(attempted := false) else EMPTY_SLOT
  {
  }

  lemma {:induction false} TargetsNoDup(slots: Slots, ips: seq<Ip>, now: int)
    requires NoDup(ips)
    ensures NoDup(Targets(slots, ips, now))
  {
    if ips != [] {
      TargetsNoDup(slots, ips[..|ips| - 1], now);
      assert ips[|ips| - 1] !in ips[..|ips| - 1];
    }
  }

  /** Snapshot read for one call: only targets of the call are looked up, at most one
      per worker ends up stuck, and if all workers return every target is answered. */
  lemma PoolFacts(prepared: Slots, c: Call)
    requires NoDup(c.ips)
    ensures var p := PoolOf(prepared, c);
            && |p.started - p.resolved.Keys| <= c.workers
            && p.resolved.Keys <= p.started
            && (forall ip :: ip in p.started ==> ip in c.ips && IsTarget(prepared(ip), c.now))
            && (c.workers > 0 && AllDone(p) ==>
                  forall ip :: ip in p.resolved <==> ip in c.ips && IsTarget(prepared(ip), c.now))
  {
    var ts := Targets(prepared, c.ips, c.now);
    TargetsNoDup(prepared, c.ips, c.now);
    Snapshot(ts, c.workers, c.schedule);
    var p := PoolOf(prepared, c);
    assert forall ip :: ip in Elems(ts) <==> ip in c.ips && IsTarget(prepared(ip), c.now);
  }

  /** The addresses a call looks up, from the state before it. */
  function Wanted(slots: Slots, loaded: bool, disk: Disk, c: Call): seq<Ip> {
    Targets(Prepared(slots, loaded, disk, c), c.ips, c.now)
  }

  /** After a call the name of every address a worker published is the name its resolver
      replied, with no backoff. */
  lemma NamesAfterCall(slots: Slots, loaded: bool, disk: Disk, c: Call, ip: Ip, name: string)
    requires NoDup(c.ips) && Heard(Wanted(slots, loaded, disk, c), c.workers, c.schedule, ip, name)
    ensures exists w :: Replied(Wanted(slots, loaded, disk, c), c.workers, c.schedule, |c.schedule|, w, ip, name)
    ensures var s := Warmed(slots, loaded, disk, c)(ip); s.name == Some(name) && s.retryAfter.None? && s.failCount.None?
  {
    var ts := Wanted(slots, loaded, disk, c);
    TargetsNoDup(Prepared(slots, loaded, disk, c), c.ips, c.now);
    NamesAreReplies(ts, c.workers, c.schedule);
    var k, w :| Meets(ts, c.workers, c.schedule, k, Publish(w), Worker.Answered(ip, name));
    assert Lookup(Run(Init(ts, c.workers), c.schedule).resolved, ip) == Some(name);
    hide Run, Meets;
    var j :| j < k && Meets(ts, c.workers, c.schedule, j, Reply(w, name), Looking(ip));
    MeetsInside(ts, c.workers, c.schedule, k, Publish(w), Worker.Answered(ip, name));
    assert Replied(ts, c.workers, c.schedule, |c.schedule|, w, ip, name);
  }

  lemma HeardNames(slots: Slots, loaded: bool, disk: Disk, c: Call)
    ensures NoDup(c.ips) ==>
              forall i, name :: Heard(Wanted(slots, loaded, disk, c), c.workers, c.schedule, i, name) ==>
                var s := Warmed(slots, loaded, disk, c)(i); s.name == Some(name) && s.retryAfter.None? && s.failCount.None?
  {
    hide Warmed, Heard, Wanted;
    if NoDup(c.ips) {
      forall i, name | Heard(Wanted(slots, loaded, disk, c), c.workers, c.schedule, i, name)
        ensures var s := Warmed(slots, loaded, disk, c)(i); s.name == Some(name) && s.retryAfter.None? && s.failCount.None?
      {
        NamesAfterCall(slots, loaded, disk, c, i, name);
      }
    }
  }

  /** One warm call seen from one address: a fate other than NotStarted is possible
      only for a target of the call, and nothing else about the pool matters to it. */
  lemma SettledByFate(prepared: Slots, c: Call, ip: Ip)
    requires NoDup(c.ips)
    ensures var s, fate := prepared(ip), FateIn(prepared, c, ip);
            var target := ip in c.ips && IsTarget(s, c.now);
            && (fate != NotStarted ==> target)
            && Settled(prepared, c, ip) == SettledSlot(s.(attempted := s.attempted || target), fate, c.now)
  {
    PoolFacts(prepared, c);
  }

  /** A warm call penalises exactly the addresses a worker started and did not finish
      and clears exactly the answered ones; every other address, in particular one the
      saturated pool never pulled, keeps its name and its backoff. */
  lemma WarmPenalisesExactlyStuck(prepared: Slots, c: Call, ip: Ip)
    requires NoDup(c.ips)
    ensures var p := PoolOf(prepared, c);
            var s := prepared(ip);
            var n := Fails(s) + 1;
            Settled(prepared, c, ip) ==
              if ip in p.resolved then Slot(Some(p.resolved[ip]), s.seen, None, None, true)
              else if ip in p.started then Slot(Some(""), s.seen, Some(c.now + Interval(n)), Some(n), true)
              else s.(attempted := s.attempted || (ip in c.ips && IsTarget(s, c.now)))
  {
    SettledByFate(prepared, c, ip);
  }
}
