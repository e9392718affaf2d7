/** Whole runs of the reverse-DNS cache: warm calls, saves that may fail, and process
    restarts, under a clock that never goes back. */
module RdnsHistory {
  import opened Common
  import opened RdnsPool
  import opened RdnsCache

  datatype World = World(slots: Slots, loaded: bool, disk: Disk, clock: int)

  datatype Step = Warm(c: Call, saveOk: bool) | Restart

  function Do(w: World, st: Step): World {
    match st
    case Restart => World(_ => EMPTY_SLOT, false, w.disk, w.clock)
    case Warm(c, saveOk) =>
      var slots := Warmed(w.slots, w.loaded, w.disk, c);
      World(slots, true, if saveOk then (ip => SavedEntry(slots(ip))) else w.disk, c.now)
  }

  /** The world after the first k steps. */
  function After(w: World, steps: seq<Step>, k: nat): World
    requires k <= |steps|
  {
    if k == 0 then w else Do(After(w, steps, k - 1), steps[k - 1])
  }

  /** A call reads the clock twice, no earlier than the last reading, and its address
      list has no duplicates. */
  ghost predicate Allowed(w: World, st: Step) {
    st.Warm? ==> w.clock <= st.c.loadAt <= st.c.now && NoDup(st.c.ips)
  }

  /** The first k steps are all allowed where they happen. */
  ghost predicate AllowedRun(w: World, steps: seq<Step>, k: nat)
    requires k <= |steps|
  {
    k == 0 || (AllowedRun(w, steps, k - 1) && Allowed(After(w, steps, k - 1), steps[k - 1]))
  }

  lemma {:induction false} AllowedPrefix(w: World, steps: seq<Step>, k: nat, n: nat)
    requires k <= n <= |steps| && AllowedRun(w, steps, n)
    ensures AllowedRun(w, steps, k)
    ensures k < n ==> Allowed(After(w, steps, k), steps[k])
    decreases n
  {
    if k < n { AllowedPrefix(w, steps, k, n - 1); }
  }

  ghost predicate SavesSucceed(steps: seq<Step>) {
    forall k :: 0 <= k < |steps| && steps[k].Warm? ==> steps[k].saveOk
  }

  function FateAt(w: World, st: Step, ip: Ip): Fate {
    if st.Restart? then NotStarted else FateIn(Prepared(w.slots, w.loaded, w.disk, st.c), st.c, ip)
  }

  /** One warm call seen from one address: its slot is loaded and stamped, and a fate
      other than NotStarted is possible only if that makes it a target. */
  lemma WarmSlot(w: World, st: Step, ip: Ip) returns (before: Slot, fate: Fate, tried: bool)
    requires st.Warm? && NoDup(st.c.ips)
    ensures before == PreparedSlot(w.slots(ip), w.loaded, w.disk(ip), ip in st.c.ips, st.c.loadAt, st.c.now)
    ensures fate == FateAt(w, st, ip)
    ensures Do(w, st).slots(ip) == SettledSlot(before.(attempted := tried), fate, st.c.now)
    ensures tried <==> before.attempted || (ip in st.c.ips && IsTarget(before, st.c.now))
    ensures fate != NotStarted ==> ip in st.c.ips && IsTarget(before, st.c.now)
    ensures Do(w, st).disk(ip) == if st.saveOk then SavedEntry(Do(w, st).slots(ip)) else w.disk(ip)
  {
    var prepared := Prepared(w.slots, w.loaded, w.disk, st.c);
    before := prepared(ip);
    fate := FateAt(w, st, ip);
    tried := before.attempted || (ip in st.c.ips && IsTarget(before, st.c.now));
    PoolFacts(prepared, st.c);
  }

  ghost predicate Sound(w: World) {
    && w.clock > 0
    && (forall ip :: CoherentSlot(w.slots(ip)) && CoherentValue(w.disk(ip)))
    && (!w.loaded ==> forall ip :: w.slots(ip) == EMPTY_SLOT)
  }

  /** After a successful save, memory and file agree. */
  ghost predicate Synced(w: World) {
    w.loaded ==> forall ip :: w.disk(ip) == SavedEntry(w.slots(ip))
  }

  lemma SoundSlot(w: World, st: Step, ip: Ip)
    requires st.Warm? && Allowed(w, st) && 0 < w.clock
    requires CoherentSlot(w.slots(ip)) && CoherentValue(w.disk(ip)) && (!w.loaded ==> w.slots(ip) == EMPTY_SLOT)
    ensures CoherentSlot(Do(w, st).slots(ip)) && CoherentValue(Do(w, st).disk(ip))
  {
    var before, fate, tried := WarmSlot(w, st, ip);
    assert CoherentSlot(before);
  }

  lemma SoundStep(w: World, st: Step)
    requires Sound(w) && Allowed(w, st)
    ensures Sound(Do(w, st))
    ensures Synced(w) && (st.Warm? ==> st.saveOk) ==> Synced(Do(w, st))
  {
    if st.Warm? {
      forall ip ensures CoherentSlot(Do(w, st).slots(ip)) && CoherentValue(Do(w, st).disk(ip)) {
        SoundSlot(w, st, ip);
      }
    }
  }

  /** The invariant holds in every reachable world, saved or not. */
  lemma {:induction false} SoundAlways(w: World, steps: seq<Step>, k: nat)
    requires k <= |steps| && Sound(w) && AllowedRun(w, steps, k)
    ensures Sound(After(w, steps, k))
    ensures Synced(w) && SavesSucceed(steps) ==> Synced(After(w, steps, k))
  {
    if k > 0 {
      SoundAlways(w, steps, k - 1);
      SoundStep(After(w, steps, k - 1), steps[k - 1]);
    }
  }

  // ---------------------------------------------------------------- the failure streak

  /** The load of this step drops a stored entry because it has not been seen for 182 days. */
  predicate Evicts(w: World, st: Step, ip: Ip) {
    st.Warm? && !w.loaded && w.disk(ip).Some? && KeptEntry(w.disk(ip), st.c.loadAt).None?
  }

  /** Black-holes of an address in a row, counted from the run itself: an answer or an
      eviction ends the row, a step that does not look the address up leaves it. */
  function Streak(w: World, steps: seq<Step>, k: nat, ip: Ip): int
    requires k <= |steps|
  {
    if k == 0 then RecordedFails(w, ip)
    else
      var was := After(w, steps, k - 1);
      var before := if Evicts(was, steps[k - 1], ip) then 0 else Streak(w, steps, k - 1, ip);
      match FateAt(was, steps[k - 1], ip)
      case Stuck => before + 1
      case Answered(_) => 0
      case NotStarted => before
  }

  function RecordedFails(w: World, ip: Ip): int {
    if w.loaded then Fails(w.slots(ip))
    else if w.disk(ip).Some? && ParseEntry(w.disk(ip).value).Some? then ParseEntry(w.disk(ip).value).value.failCount
    else 0
  }

  lemma RecordedStep(w: World, st: Step, ip: Ip)
    requires Sound(w) && Synced(w) && Allowed(w, st) && (st.Warm? ==> st.saveOk)
    ensures var before := if Evicts(w, st, ip) then 0 else RecordedFails(w, ip);
            RecordedFails(Do(w, st), ip) == match FateAt(w, st, ip)
                                            case Stuck => before + 1
                                            case Answered(_) => 0
                                            case NotStarted => before
  {
    assert CoherentSlot(w.slots(ip)) && CoherentValue(w.disk(ip));
    if st.Warm? {
      var before, fate, tried := WarmSlot(w, st, ip);
    }
  }

  /** The failure count the program keeps, in memory or in the file between processes,
      is the length of the current row of black-holes. */
  lemma {:induction false} FailCountIsStreak(w: World, steps: seq<Step>, k: nat, ip: Ip)
    requires k <= |steps| && Sound(w) && Synced(w) && AllowedRun(w, steps, k) && SavesSucceed(steps)
    ensures RecordedFails(After(w, steps, k), ip) == Streak(w, steps, k, ip)
  {
    if k > 0 {
      FailCountIsStreak(w, steps, k - 1, ip);
      SoundAlways(w, steps, k - 1);
      RecordedStep(After(w, steps, k - 1), steps[k - 1], ip);
    }
  }

  // ---------------------------------------------------------------- no early probe

  /** Until `due`, the address is recorded as negative with a retry time no earlier
      than `due`, in the file and (once loaded) in memory, and was seen since `since`. */
  ghost predicate Shielded(w: World, ip: Ip, since: int, due: int) {
    && since <= w.clock
    && (w.clock < due ==>
      && w.disk(ip).Some? && ParseEntry(w.disk(ip).value).Some?
      && ParseEntry(w.disk(ip).value).value.retryAfter >= due
      && ParseEntry(w.disk(ip).value).value.lastSeen >= since
      && (w.loaded ==>
            var s := w.slots(ip);
            && s.name.Some? && s.retryAfter.Some? && s.retryAfter.value >= due && s.seen.Some? && s.seen.value >= since)
      && (!w.loaded ==> w.slots(ip) == EMPTY_SLOT))
  }

  /** One step keeps the shield, and no step looks the address up before `due`. The age
      limit cannot break it because `due` is at most 182 days after `since`. */
  lemma ShieldStep(w: World, st: Step, ip: Ip, since: int, due: int)
    requires Shielded(w, ip, since, due) && 0 < since <= due <= since + CACHE_TTL
    requires Allowed(w, st) && (st.Warm? ==> st.saveOk)
    ensures Shielded(Do(w, st), ip, since, due)
    ensures FateAt(w, st, ip) != NotStarted ==> st.Warm? && st.c.now >= due
  {
    if st.Warm? && st.c.now < due {
      var before, fate, tried := WarmSlot(w, st, ip);
      assert before.name.Some? && before.retryAfter.Some? && before.retryAfter.value >= due;
    }
  }

  lemma BlackHoleShields(w: World, st: Step, ip: Ip)
    requires Sound(w) && Synced(w) && Allowed(w, st) && (st.Warm? ==> st.saveOk) && FateAt(w, st, ip) == Stuck
    ensures st.Warm? && w.clock > 0
    ensures var n := RecordedFails(Do(w, st), ip);
            n >= 1 && Shielded(Do(w, st), ip, st.c.now, st.c.now + Interval(n))
  {
    assert CoherentSlot(w.slots(ip)) && CoherentValue(w.disk(ip));
    var before, fate, tried := WarmSlot(w, st, ip);
  }

  lemma {:induction false} ShieldHolds(w: World, steps: seq<Step>, i: nat, j: nat, ip: Ip, since: int, due: int)
    requires i <= j <= |steps| && AllowedRun(w, steps, j) && SavesSucceed(steps)
    requires Shielded(After(w, steps, i), ip, since, due) && 0 < since <= due <= since + CACHE_TTL
    ensures Shielded(After(w, steps, j), ip, since, due)
    decreases j
  {
    if i < j {
      ShieldHolds(w, steps, i, j - 1, ip, since, due);
      ShieldStep(After(w, steps, j - 1), steps[j - 1], ip, since, due);
    }
  }

  /** The backoff promise: in every run with successful saves, across any number of
      restarts, loads and evictions, an address whose lookup black-holes at time T as
      the n-th in a row is not looked up again before T + min(7 d * 2^(n-1), 182 d). */
  lemma {:induction false} NoEarlyProbe(w: World, steps: seq<Step>, i: nat, j: nat, ip: Ip)
    requires i < j < |steps| && AllowedRun(w, steps, |steps|) && SavesSucceed(steps)
    requires Sound(w) && Synced(w)
    requires FateAt(After(w, steps, i), steps[i], ip) == Stuck
    requires FateAt(After(w, steps, j), steps[j], ip) != NotStarted
    ensures var n := Streak(w, steps, i + 1, ip);
            n >= 1 && steps[j].c.now >= steps[i].c.now + MinInt(7 * DAY * Pow2(n - 1), 182 * DAY)
  {
    hide FateAt, Do;
    StuckShields(w, steps, i, ip);
    var n := Streak(w, steps, i + 1, ip);
    ShieldedProbe(w, steps, i + 1, j, ip, steps[i].c.now, steps[i].c.now + Interval(n));
  }

  lemma {:induction false} StuckShields(w: World, steps: seq<Step>, i: nat, ip: Ip)
    requires i < |steps| && AllowedRun(w, steps, |steps|) && SavesSucceed(steps)
    requires Sound(w) && Synced(w)
    requires FateAt(After(w, steps, i), steps[i], ip) == Stuck
    ensures steps[i].Warm?
    ensures var n, T := Streak(w, steps, i + 1, ip), steps[i].c.now;
            n >= 1 && 0 < T && Shielded(After(w, steps, i + 1), ip, T, T + Interval(n))
  {
    hide FateAt, Do, Sound, Shielded;
    AllowedPrefix(w, steps, i, |steps|);
    AllowedPrefix(w, steps, i + 1, |steps|);
    assert Streak(w, steps, i + 1, ip) == RecordedFails(After(w, steps, i + 1), ip) by {
      FailCountIsStreak(w, steps, i + 1, ip);
    }
    SoundAlways(w, steps, i);
    BlackHoleShields(After(w, steps, i), steps[i], ip);
  }

  lemma ShieldedProbe(w: World, steps: seq<Step>, i: nat, j: nat, ip: Ip, since: int, due: int)
    requires i <= j < |steps| && AllowedRun(w, steps, |steps|) && SavesSucceed(steps)
    requires Shielded(After(w, steps, i), ip, since, due) && 0 < since <= due <= since + CACHE_TTL
    requires FateAt(After(w, steps, j), steps[j], ip) != NotStarted
    ensures steps[j].Warm? && steps[j].c.now >= due
  {
    hide FateAt, Do, Shielded;
    AllowedPrefix(w, steps, j, |steps|);
    ShieldHolds(w, steps, i, j, ip, since, due);
    ShieldStep(After(w, steps, j), steps[j], ip, since, due);
  }

  lemma OneStuckLookup(ip: Ip)
    ensures var p := Run(Init([ip], 1), [Get(0), Mark(0)]); p.started == {ip} && p.resolved == map[]
  {
    var p0 := Init([ip], 1);
    var p1 := Next(p0, Get(0));
    assert p0.workers == [Idle] && p1.workers == [Pulled(ip)];
    assert [Get(0), Mark(0)][..1] == [Get(0)] && [Get(0)][..0] == [];
    assert Run(p0, []) == p0 && Run(p0, [Get(0)]) == p1;
  }

  /** A call for one address, whose lookup hangs. */
  function HangingCall(ip: Ip, now: int): Call {
    Call([ip], now, now, 1, [Get(0), Mark(0)])
  }

  lemma HangingCallSticks(w: World, ip: Ip, now: int)
    requires IsTarget(PreparedSlot(w.slots(ip), w.loaded, w.disk(ip), true, now, now), now)
    ensures FateAt(w, Warm(HangingCall(ip, now), true), ip) == Stuck
  {
    var c := HangingCall(ip, now);
    var prepared := Prepared(w.slots, w.loaded, w.disk, c);
    assert ip in c.ips && c.ips[..0] == [];
    assert Targets(prepared, [], now) == [];
    assert Targets(prepared, c.ips, now) == [ip];
    OneStuckLookup(ip);
  }

  /** When the calls of the worst case happen: each exactly when the one before lets it. */
  function HangAt(n: nat): (t: int)
    ensures t >= 1
  {
    if n == 0 then 1 else HangAt(n - 1) + Interval(n)
  }

  /** n + 1 processes that each call for one address, whose lookup hangs every time. */
  function Hangs(ip: Ip, n: nat): (steps: seq<Step>)
    ensures |steps| == 2 * n + 1
  {
    if n == 0 then [Warm(HangingCall(ip, HangAt(0)), true)]
    else Hangs(ip, n - 1) + [Restart, Warm(HangingCall(ip, HangAt(n)), true)]
  }

  function NewWorld(): World {
    World(_ => EMPTY_SLOT, false, _ => None, 1)
  }

  /** After the n-th black-hole in a row, at `at`. */
  ghost predicate JustHung(w: World, ip: Ip, n: int, at: int) {
    && w.loaded && w.clock == at
    && w.slots(ip) == Slot(Some(""), Some(at), Some(at + Interval(n)), Some(n), true)
  }

  lemma FirstHang(ip: Ip)
    ensures var w, st := NewWorld(), Warm(HangingCall(ip, 1), true);
            Sound(w) && Synced(w) && Allowed(w, st) && FateAt(w, st, ip) == Stuck && JustHung(Do(w, st), ip, 1, 1)
  {
    var w, st := NewWorld(), Warm(HangingCall(ip, 1), true);
    HangingCallSticks(w, ip, 1);
    var before, fate, tried := WarmSlot(w, st, ip);
  }

  lemma NextHang(w: World, ip: Ip, n: int, at: int)
    requires Synced(w) && JustHung(w, ip, n, at) && n >= 1 && at >= 1
    ensures var w2, next := Do(w, Restart), at + Interval(n);
            var st := Warm(HangingCall(ip, next), true);
            Allowed(w2, st) && FateAt(w2, st, ip) == Stuck && JustHung(Do(w2, st), ip, n + 1, next)
  {
    var w2, next := Do(w, Restart), at + Interval(n);
    var st := Warm(HangingCall(ip, next), true);
    ReadBack(w, ip, n, at);
    DueAgain(next, n);
    CallOfOne(ip, next);
    hide *;
    HangingCallSticks(w2, ip, next);
    var before, fate, tried := WarmSlot(w2, st, ip);
    ClockAfter(w2, st);
    NowHung(Do(w2, st), ip, n + 1, next);
    NowAllowed(w2, st);
  }

  lemma DueAgain(next: int, n: int)
    requires n >= 1
    ensures var s := Slot(Some(""), Some(next), Some(next), Some(n), false);
            && IsTarget(s, next)
            && SettledSlot(s.(attempted := true), Stuck, next)
               == Slot(Some(""), Some(next), Some(next + Interval(n + 1)), Some(n + 1), true)
  {
  }

  lemma CallOfOne(ip: Ip, now: int)
    ensures var c := HangingCall(ip, now); c.ips == [ip] && NoDup(c.ips) && ip in c.ips && c.loadAt == c.now == now
  {
  }

  lemma NowHung(w: World, ip: Ip, n: int, at: int)
    requires w.loaded && w.clock == at && w.slots(ip) == Slot(Some(""), Some(at), Some(at + Interval(n)), Some(n), true)
    ensures JustHung(w, ip, n, at)
  {
  }

  lemma NowAllowed(w: World, st: Step)
    requires st.Warm? && w.clock <= st.c.loadAt <= st.c.now && NoDup(st.c.ips)
    ensures Allowed(w, st)
  {
  }

  /** What the next process makes of the saved entry when the address is due. */
  lemma ReadBack(w: World, ip: Ip, n: int, at: int)
    requires Synced(w) && JustHung(w, ip, n, at) && n >= 1 && at >= 1
    ensures var w2, next := Do(w, Restart), at + Interval(n);
            && w2.clock == at <= next
            && PreparedSlot(w2.slots(ip), w2.loaded, w2.disk(ip), true, next, next)
               == Slot(Some(""), Some(next), Some(next), Some(n), false)
  {
    var w2, next := Do(w, Restart), at + Interval(n);
    assert w2.disk(ip) == Some(JList([JStr(""), JInt(at), JInt(next), JInt(n)]));
    assert KeptEntry(w2.disk(ip), next) == Some(Entry("", at, next, n));
  }

  lemma ClockAfter(w: World, st: Step)
    requires st.Warm?
    ensures Do(w, st).loaded && Do(w, st).clock == st.c.now
  {
  }

  lemma {:induction false} AfterFront(w: World, a: seq<Step>, b: seq<Step>, k: nat)
    requires k <= |a|
    ensures After(w, a + b, k) == After(w, a, k)
    ensures AllowedRun(w, a, k) <==> AllowedRun(w, a + b, k)
  {
    hide Do, Allowed;
    if k > 0 {
      AfterFront(w, a, b, k - 1);
      assert (a + b)[k - 1] == a[k - 1];
    }
  }

  lemma TwoMore(w: World, a: seq<Step>, x: Step, y: Step)
    requires AllowedRun(w, a, |a|) && Allowed(After(w, a, |a|), x) && Allowed(Do(After(w, a, |a|), x), y)
    ensures var steps, was := a + [x, y], After(w, a, |a|);
            && AllowedRun(w, steps, |a| + 2)
            && After(w, steps, |a|) == was && After(w, steps, |a| + 1) == Do(was, x) && After(w, steps, |a| + 2) == Do(Do(was, x), y)
  {
    hide Do, Allowed;
    var steps := a + [x, y];
    AfterFront(w, a, [x, y], |a|);
    assert steps[|a|] == x && steps[|a| + 1] == y;
    assert AllowedRun(w, steps, |a|) && After(w, steps, |a|) == After(w, a, |a|);
    assert After(w, steps, |a| + 1) == Do(After(w, a, |a|), x);
    assert AllowedRun(w, steps, |a| + 1);
    assert After(w, steps, |a| + 2) == Do(After(w, steps, |a| + 1), y);
  }

  lemma {:induction false} HangsRun(ip: Ip, n: nat)
    ensures var w, steps := NewWorld(), Hangs(ip, n);
            && AllowedRun(w, steps, |steps|) && SavesSucceed(steps) && Synced(After(w, steps, |steps|))
            && FateAt(After(w, steps, 2 * n), steps[2 * n], ip) == Stuck && steps[2 * n].Warm? && steps[2 * n].c.now == HangAt(n)
            && JustHung(After(w, steps, |steps|), ip, n + 1, HangAt(n))
  {
    hide Do, FateAt, HangingCall, Sound, Synced, Interval, JustHung, Allowed;
    var w, steps := NewWorld(), Hangs(ip, n);
    FirstHang(ip);
    if n == 0 {
      assert steps[0] == Warm(HangingCall(ip, 1), true);
      assert After(w, steps, 0) == w && AllowedRun(w, steps, 0) && After(w, steps, 1) == Do(w, steps[0]);
    } else {
      HangsRun(ip, n - 1);
      var front := Hangs(ip, n - 1);
      NextHang(After(w, front, |front|), ip, n, HangAt(n - 1));
      RestartAllowed(After(w, front, |front|));
      TwoMore(w, front, Restart, Warm(HangingCall(ip, HangAt(n)), true));
    }
    HangingNow(ip, HangAt(n));
    SoundAlways(w, steps, |steps|);
  }

  lemma RestartAllowed(w: World)
    ensures Allowed(w, Restart)
  {
  }

  lemma HangingNow(ip: Ip, now: int)
    ensures HangingCall(ip, now).now == now
  {
  }

  /** The promise is exact for every n: from an empty cache an address can black-hole n
      times in a row, the last time at T, and be looked up again in a later process at
      T + min(7 d * 2^(n-1), 182 d). */
  lemma BackoffIsReached(ip: Ip, n: nat) returns (w: World, steps: seq<Step>, i: nat, j: nat)
    requires n >= 1
    ensures Sound(w) && Synced(w) && AllowedRun(w, steps, |steps|) && SavesSucceed(steps) && i < j < |steps|
    ensures FateAt(After(w, steps, i), steps[i], ip) == Stuck && Streak(w, steps, i + 1, ip) == n
    ensures FateAt(After(w, steps, j), steps[j], ip) == Stuck
    ensures steps[i].Warm? && steps[j].Warm? && steps[j].c.now == steps[i].c.now + MinInt(7 * DAY * Pow2(n - 1), 182 * DAY)
  {
    hide Do, FateAt, HangingCall, Sound, Synced, Streak, Allowed;
    w, steps, i, j := NewWorld(), Hangs(ip, n), 2 * n - 2, 2 * n;
    var front, rest := Hangs(ip, n - 1), [Restart, Warm(HangingCall(ip, HangAt(n)), true)];
    FirstHang(ip);
    HangsRun(ip, n - 1);
    HangsRun(ip, n);
    AfterFront(w, front, rest, i);
    AfterFront(w, front, rest, i + 1);
    AllowedPrefix(w, steps, i + 1, |steps|);
    FailCountIsStreak(w, steps, i + 1, ip);
  }

  /** Within one process an address costs at most one lookup, however often the
      report calls warm_rdns and whether or not saves succeed. */
  lemma {:induction false} OneLookupPerProcess(w: World, steps: seq<Step>, i: nat, j: nat, ip: Ip)
    requires i < j < |steps| && AllowedRun(w, steps, |steps|)
    requires forall k :: i < k <= j ==> steps[k].Warm?
    requires FateAt(After(w, steps, i), steps[i], ip) != NotStarted
    ensures FateAt(After(w, steps, j), steps[j], ip) == NotStarted
  {
    hide FateAt, Do, Allowed, AllowedRun, After;
    AttemptedFrom(w, steps, i, ip);
    AttemptedStays(w, steps, i + 1, j, ip);
    AllowedPrefix(w, steps, j, |steps|);
    AttemptedSkips(After(w, steps, j), steps[j], ip);
  }

  lemma AttemptedFrom(w: World, steps: seq<Step>, i: nat, ip: Ip)
    requires i < |steps| && AllowedRun(w, steps, |steps|) && FateAt(After(w, steps, i), steps[i], ip) != NotStarted
    ensures After(w, steps, i + 1).loaded && After(w, steps, i + 1).slots(ip).attempted
  {
    hide FateAt, Do, Allowed, AllowedRun;
    AllowedPrefix(w, steps, i, |steps|);
    AttemptedStep(After(w, steps, i), steps[i], ip);
  }

  lemma {:induction false} AttemptedStays(w: World, steps: seq<Step>, i: nat, j: nat, ip: Ip)
    requires i <= j <= |steps| && AllowedRun(w, steps, |steps|)
    requires forall k :: i <= k < j ==> steps[k].Warm?
    requires After(w, steps, i).loaded && After(w, steps, i).slots(ip).attempted
    ensures After(w, steps, j).loaded && After(w, steps, j).slots(ip).attempted
    decreases j
  {
    hide FateAt, Do, Allowed;
    if i < j {
      AttemptedStays(w, steps, i, j - 1, ip);
      AllowedPrefix(w, steps, j - 1, |steps|);
      AttemptedStep(After(w, steps, j - 1), steps[j - 1], ip);
    }
  }

  lemma AttemptedSkips(w: World, st: Step, ip: Ip)
    requires Allowed(w, st) && w.loaded && w.slots(ip).attempted
    ensures FateAt(w, st, ip) == NotStarted
  {
    if st.Warm? {
      var before, fate, tried := WarmSlot(w, st, ip);
    }
  }

  lemma AttemptedStep(w: World, st: Step, ip: Ip)
    requires Allowed(w, st)
    requires FateAt(w, st, ip) != NotStarted || (st.Warm? && w.loaded && w.slots(ip).attempted)
    ensures Do(w, st).loaded && Do(w, st).slots(ip).attempted
  {
    var before, fate, tried := WarmSlot(w, st, ip);
  }

  // ---------------------------------------------------------------- where escalation stops

  /** A negative entry read back by a new process escalates on the next black-hole
      exactly when the address was seen within 182 days of the load; otherwise it was
      evicted and its backoff starts over at 7 days. */
  lemma EscalationSurvivesIff(w: World, st: Step, ip: Ip, e: Entry)
    requires Sound(w) && Allowed(w, st) && st.Warm? && !w.loaded
    requires w.disk(ip).Some? && ParseEntry(w.disk(ip).value) == Some(e) && e.failCount >= 1 && e.lastSeen > 0
    requires FateAt(w, st, ip) == Stuck
    ensures Do(w, st).slots(ip).failCount
            == Some(if e.lastSeen >= st.c.loadAt - CACHE_TTL then e.failCount + 1 else 1)
    ensures Do(w, st).slots(ip).failCount == Some(e.failCount + 1) <==> e.lastSeen >= st.c.loadAt - CACHE_TTL
  {
    var before, fate, tried := WarmSlot(w, st, ip);
  }

  /** After a failed save and a restart an address is a target exactly when the file, as the
      last successful save left it, has no kept entry for it or a retry time that is past:
      what the process with the failed save learnt plays no part. */
  lemma FailedSaveForgetsIff(w: World, first: Call, second: Call, ip: Ip)
    requires ip in second.ips
    ensures var w2 := Do(Do(w, Warm(first, false)), Restart);
            var e := KeptEntry(w.disk(ip), second.loadAt);
            IsTarget(Prepared(w2.slots, w2.loaded, w2.disk, second)(ip), second.now)
            <==> e.None? || (e.value.retryAfter != 0 && e.value.retryAfter <= second.now)
  {
  }

  /** So an address not in the file, black-holed in a process whose save fails, is a target
      of the next process at once. */
  lemma FailedSaveForgets(w: World, first: Call, second: Call, ip: Ip)
    requires w.disk(ip).None? && ip in second.ips
    ensures var w2 := Do(Do(w, Warm(first, false)), Restart);
            IsTarget(Prepared(w2.slots, w2.loaded, w2.disk, second)(ip), second.now)
  {
    FailedSaveForgetsIff(w, first, second, ip);
  }
}
