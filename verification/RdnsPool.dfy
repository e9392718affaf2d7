/** The reverse-DNS worker pool of humans.py: daemon threads pull addresses off one
    queue, mark each as started, block in the resolver, and publish the answer. At
    the deadline the caller copies `started` and `resolved` and walks away.

    A schedule is an arbitrary interleaving of worker events that ends at the
    snapshot; an event whose worker is not ready for it changes nothing. A worker
    that never gets a Reply event hangs in the resolver, one that never gets a Mark
    event was preempted between the queue and the lock. */
module RdnsPool {
  import opened Common

  type Ip = string

  datatype Worker =
    | Idle                              // about to call work.get_nowait()
    | Pulled(ip: Ip)                    // has an address, not yet in `started`
    | Looking(ip: Ip)                   // inside gethostbyaddr
    | Answered(ip: Ip, name: string)    // answer in hand, lock not yet taken
    | Finished                          // saw queue.Empty and returned

  datatype Event = Get(w: nat) | Mark(w: nat) | Reply(w: nat, name: string) | Publish(w: nat)

  /** `pulled` is the log of every dequeue in order. */
  datatype Pool = Pool(queue: seq<Ip>, pulled: seq<Ip>, workers: seq<Worker>,
                       started: set<Ip>, resolved: map<Ip, string>)

  function Init(targets: seq<Ip>, workers: nat): Pool {
    Pool(targets, [], seq(MinNat(workers, |targets|), _ => Idle), {}, map[])
  }

  function Next(p: Pool, e: Event): Pool {
    if e.w >= |p.workers| then p else
    match (e, p.workers[e.w])
    case (Get(w), Idle) =>
      if p.queue == [] then p.(workers := p.workers[w := Finished])
      else p.(queue := p.queue[1..], pulled := p.pulled + [p.queue[0]],
              workers := p.workers[w := Pulled(p.queue[0])])
    case (Mark(w), Pulled(ip)) =>
      p.(started := p.started + {ip}, workers := p.workers[w := Looking(ip)])
    case (Reply(w, name), Looking(ip)) =>
      p.(workers := p.workers[w := Answered(ip, name)])
    case (Publish(w), Answered(ip, name)) =>
      p.(resolved := p.resolved[ip := name], workers := p.workers[w := Idle])
    case _ => p
  }

  function Run(p: Pool, schedule: seq<Event>): Pool
    decreases |schedule|
  {
    if schedule == [] then p
    else Next(Run(p, schedule[..|schedule| - 1]), schedule[|schedule| - 1])
  }

  predicate Holds(w: Worker, ip: Ip) {
    (w.Pulled? || w.Looking? || w.Answered?) && w.ip == ip
  }

  /** What every interleaving keeps. */
  ghost predicate Inv(p: Pool, targets: seq<Ip>) {
    && p.pulled + p.queue == targets
    && p.resolved.Keys <= p.started <= Elems(p.pulled)
    && (forall w :: 0 <= w < |p.workers| ==> WorkerOk(p, p.workers[w]))
    && (forall v, w, ip :: 0 <= v < w < |p.workers| && Holds(p.workers[v], ip) ==> !Holds(p.workers[w], ip))
    && (forall ip :: ip in p.pulled && ip !in p.resolved ==> exists w :: 0 <= w < |p.workers| && Holds(p.workers[w], ip))
  }

  ghost predicate WorkerOk(p: Pool, w: Worker) {
    match w
    case Idle => true
    case Pulled(ip) => ip in p.pulled && ip !in p.started
    case Looking(ip) => ip in p.started && ip !in p.resolved
    case Answered(ip, _) => ip in p.started && ip !in p.resolved
    case Finished => p.queue == []
  }

  lemma InvInit(targets: seq<Ip>, workers: nat)
    ensures Inv(Init(targets, workers), targets)
  {
    assert [] + targets == targets;
  }

  lemma InvGet(p: Pool, w: nat, targets: seq<Ip>)
    requires NoDup(targets) && Inv(p, targets) && w < |p.workers| && p.workers[w] == Idle
    ensures Inv(Next(p, Get(w)), targets)
  {
    var q := Next(p, Get(w));
    if p.queue == [] {
      StillHeld(p, q, w);
    } else {
      FreshHead(p, targets);
      assert q.pulled + q.queue == p.pulled + p.queue;
      forall i | i in q.pulled && i !in q.resolved
        ensures exists v :: 0 <= v < |q.workers| && Holds(q.workers[v], i)
      {
        var v :| 0 <= v < |p.workers| && (if i == p.queue[0] then v == w else Holds(p.workers[v], i));
        assert Holds(q.workers[v], i);
      }
      assert forall v :: 0 <= v < |p.workers| ==> WorkerOk(p, p.workers[v]);
    }
  }

  lemma InvMarkReply(p: Pool, e: Event, targets: seq<Ip>)
    requires Inv(p, targets) && e.w < |p.workers|
    requires (e.Mark? && p.workers[e.w].Pulled?) || (e.Reply? && p.workers[e.w].Looking?)
    ensures Inv(Next(p, e), targets)
  {
    var q := Next(p, e);
    StillHeld(p, q, e.w);
    var ip := p.workers[e.w].ip;
    assert Holds(p.workers[e.w], ip);
    forall v | 0 <= v < |q.workers| ensures WorkerOk(q, q.workers[v]) {
      assert WorkerOk(p, p.workers[v]) && WorkerOk(p, p.workers[e.w]);
      if v != e.w {
        assert q.workers[v] == p.workers[v];
        assert !Holds(p.workers[v], ip);
      }
    }
  }

  lemma InvPublish(p: Pool, w: nat, targets: seq<Ip>)
    requires Inv(p, targets) && w < |p.workers| && p.workers[w].Answered?
    ensures Inv(Next(p, Publish(w)), targets)
  {
    var q := Next(p, Publish(w));
    var ip := p.workers[w].ip;
    assert Holds(p.workers[w], ip) && WorkerOk(p, p.workers[w]);
    forall v | 0 <= v < |q.workers| ensures WorkerOk(q, q.workers[v]) {
      assert WorkerOk(p, p.workers[v]);
      if v != w {
        assert q.workers[v] == p.workers[v];
        assert !Holds(p.workers[v], ip);
      }
    }
    forall i | i in q.pulled && i !in q.resolved
      ensures exists v :: 0 <= v < |q.workers| && Holds(q.workers[v], i)
    {
      var v :| 0 <= v < |p.workers| && Holds(p.workers[v], i);
      assert Holds(q.workers[v], i);
    }
  }

  lemma InvNext(p: Pool, e: Event, targets: seq<Ip>)
    requires NoDup(targets) && Inv(p, targets)
    ensures Inv(Next(p, e), targets)
  {
    if e.w < |p.workers| {
      match (e, p.workers[e.w])
      case (Get(w), Idle) => InvGet(p, w, targets);
      case (Mark(_), Pulled(_)) => InvMarkReply(p, e, targets);
      case (Reply(_, _), Looking(_)) => InvMarkReply(p, e, targets);
      case (Publish(w), Answered(_, _)) => InvPublish(p, w, targets);
      case _ =>
    }
  }

  lemma FreshHead(p: Pool, targets: seq<Ip>)
    requires NoDup(targets) && Inv(p, targets) && p.queue != []
    ensures p.queue[0] !in p.pulled && p.queue[0] !in p.started
    ensures forall w :: 0 <= w < |p.workers| ==> !Holds(p.workers[w], p.queue[0])
  {
    var n := |p.pulled|;
    assert targets[n] == p.queue[0];
    forall i | 0 <= i < n ensures p.pulled[i] != p.queue[0] {
      assert targets[i] == p.pulled[i];
    }
  }

  lemma StillHeld(p: Pool, q: Pool, at: nat)
    requires at < |p.workers| == |q.workers| && q.pulled == p.pulled && q.resolved == p.resolved
    requires forall w :: 0 <= w < |p.workers| && w != at ==> q.workers[w] == p.workers[w]
    requires forall ip :: Holds(p.workers[at], ip) ==> Holds(q.workers[at], ip)
    requires forall ip :: ip in p.pulled && ip !in p.resolved ==> exists w :: 0 <= w < |p.workers| && Holds(p.workers[w], ip)
    ensures forall ip :: ip in q.pulled && ip !in q.resolved ==> exists w :: 0 <= w < |q.workers| && Holds(q.workers[w], ip)
  {
    forall ip | ip in q.pulled && ip !in q.resolved
      ensures exists w :: 0 <= w < |q.workers| && Holds(q.workers[w], ip)
    {
      var w :| 0 <= w < |p.workers| && Holds(p.workers[w], ip);
      assert Holds(q.workers[w], ip);
    }
  }

  lemma {:induction false} InvRun(targets: seq<Ip>, workers: nat, schedule: seq<Event>)
    requires NoDup(targets)
    ensures Inv(Run(Init(targets, workers), schedule), targets)
    ensures |Run(Init(targets, workers), schedule).workers| == MinNat(workers, |targets|)
    decreases |schedule|
  {
    if schedule == [] {
      InvInit(targets, workers);
    } else {
      InvRun(targets, workers, schedule[..|schedule| - 1]);
      InvNext(Run(Init(targets, workers), schedule[..|schedule| - 1]), schedule[|schedule| - 1], targets);
    }
  }

  function HeldIps(ws: seq<Worker>): set<Ip> {
    if ws == [] then {}
    else HeldIps(ws[1..]) + (if ws[0].Pulled? || ws[0].Looking? || ws[0].Answered? then {ws[0].ip} else {})
  }

  lemma {:induction false} HeldIpsBound(ws: seq<Worker>)
    ensures |HeldIps(ws)| <= |ws|
    ensures forall w, ip :: 0 <= w < |ws| && Holds(ws[w], ip) ==> ip in HeldIps(ws)
  {
    if ws != [] {
      HeldIpsBound(ws[1..]);
      forall w, ip | 0 <= w < |ws| && Holds(ws[w], ip) ensures ip in HeldIps(ws) {
        if w > 0 { assert Holds(ws[1..][w - 1], ip); }
      }
    }
  }

  /** Snapshot theorem: whatever the interleaving and wherever the deadline falls,
      no address is dequeued twice, answers come only from started lookups of real
      targets, no more addresses can be stuck than there are workers, and once every
      worker has returned nothing is left unresolved. */
  lemma {:induction false} Snapshot(targets: seq<Ip>, workers: nat, schedule: seq<Event>)
    requires NoDup(targets)
    ensures var p := Run(Init(targets, workers), schedule);
            && NoDup(p.pulled)
            && p.resolved.Keys <= p.started <= Elems(p.pulled) <= Elems(targets)
            && |p.started - p.resolved.Keys| <= MinNat(workers, |targets|)
            && (workers > 0 && AllDone(p) ==> p.resolved.Keys == p.started == Elems(targets))
  {
    InvRun(targets, workers, schedule);
    InvFacts(Run(Init(targets, workers), schedule), targets);
  }

  lemma InvFacts(p: Pool, targets: seq<Ip>)
    requires NoDup(targets) && Inv(p, targets)
    ensures NoDup(p.pulled) && Elems(p.pulled) <= Elems(targets)
    ensures |p.started - p.resolved.Keys| <= |p.workers|
    ensures AllDone(p) && (targets == [] || p.workers != []) ==> p.resolved.Keys == p.started == Elems(targets)
  {
    assert forall i :: 0 <= i < |p.pulled| ==> p.pulled[i] == targets[i];
    HeldIpsBound(p.workers);
    assert p.started - p.resolved.Keys <= HeldIps(p.workers);
    SubsetSize(p.started - p.resolved.Keys, HeldIps(p.workers));
    if AllDone(p) && (targets == [] || p.workers != []) {
      AllDoneResolved(p, targets);
    }
  }

  lemma AllDoneResolved(p: Pool, targets: seq<Ip>)
    requires Inv(p, targets) && AllDone(p) && (targets == [] || p.workers != [])
    ensures p.resolved.Keys == p.started == Elems(targets)
  {
    assert p.pulled == targets by {
      if p.workers != [] {
        assert WorkerOk(p, p.workers[0]);
      }
    }
    assert Elems(p.pulled) <= p.resolved.Keys;
  }

  /** Every worker has seen the empty queue and returned. */
  predicate AllDone(p: Pool) {
    forall w :: 0 <= w < |p.workers| ==> p.workers[w].Finished?
  }

  lemma {:induction false} SubsetSize<T>(a: set<T>, b: set<T>)
    requires a <= b
    ensures |a| <= |b|
  {
    if a != {} {
      var x :| x in a;
      SubsetSize(a - {x}, b - {x});
    }
  }

  // ---------------------------------------------------------------- enough time answers everything

  lemma RunSnoc(p: Pool, front: seq<Event>, last: Event)
    ensures Run(p, front + [last]) == Next(Run(p, front), last)
  {
    assert (front + [last])[..|front|] == front;
  }

  /** One address after the other, all by the first worker. */
  function Round(name: string): seq<Event> {
    [Get(0), Mark(0), Reply(0, name), Publish(0)]
  }

  lemma RoundRuns(p: Pool, front: seq<Event>, name: string)
    ensures Run(p, front + Round(name)) == Next(Next(Next(Next(Run(p, front), Get(0)), Mark(0)), Reply(0, name)), Publish(0))
  {
    var a, b, c := front + [Get(0)], front + [Get(0), Mark(0)], front + [Get(0), Mark(0), Reply(0, name)];
    assert a + [Mark(0)] == b && b + [Reply(0, name)] == c && c + [Publish(0)] == front + Round(name);
    hide Run, Next;
    RunSnoc(p, front, Get(0));
    RunSnoc(p, a, Mark(0));
    RunSnoc(p, b, Reply(0, name));
    RunSnoc(p, c, Publish(0));
  }

  /** A round takes the head of the queue and answers it. */
  lemma RoundAnswers(q: Pool, name: string)
    requires q.queue != [] && q.workers != [] && q.workers[0] == Idle
    ensures Next(Next(Next(Next(q, Get(0)), Mark(0)), Reply(0, name)), Publish(0)) ==
            Pool(q.queue[1..], q.pulled + [q.queue[0]], q.workers, q.started + {q.queue[0]}, q.resolved[q.queue[0] := name])
  {
    var ip := q.queue[0];
    var a := Next(q, Get(0));
    assert a == Pool(q.queue[1..], q.pulled + [ip], q.workers[0 := Pulled(ip)], q.started, q.resolved);
    var b := Next(a, Mark(0));
    assert b == Pool(a.queue, a.pulled, q.workers[0 := Looking(ip)], q.started + {ip}, q.resolved);
    var c := Next(b, Reply(0, name));
    assert c == Pool(a.queue, a.pulled, q.workers[0 := Worker.Answered(ip, name)], b.started, q.resolved);
    assert q.workers[0 := Idle] == q.workers;
  }

  lemma {:induction false} Rounds(targets: seq<Ip>, workers: nat, names: Ip -> string, n: nat) returns (schedule: seq<Event>)
    requires NoDup(targets) && workers > 0 && n <= |targets|
    ensures var p := Run(Init(targets, workers), schedule);
            && p.queue == targets[n..] && p.workers == Init(targets, workers).workers && p.started == Elems(targets[..n])
            && forall ip :: Lookup(p.resolved, ip) == if ip in targets[..n] then Some(names(ip)) else None
    decreases n
  {
    if n == 0 {
      schedule := [];
    } else {
      var front := Rounds(targets, workers, names, n - 1);
      var ip := targets[n - 1];
      RoundRuns(Init(targets, workers), front, names(ip));
      RoundAnswers(Run(Init(targets, workers), front), names(ip));
      schedule := front + Round(names(ip));
      assert targets[n - 1..][1..] == targets[n..] && targets[..n] == targets[..n - 1] + [ip];
    }
  }

  lemma {:induction false} AllReturn(p: Pool, front: seq<Event>, n: nat) returns (schedule: seq<Event>)
    requires var q := Run(p, front); q.queue == [] && n <= |q.workers| && forall w :: 0 <= w < |q.workers| ==> q.workers[w] == Idle
    ensures var q, r := Run(p, front), Run(p, schedule);
            && r.resolved == q.resolved && r.started == q.started && r.queue == [] && |r.workers| == |q.workers|
            && forall w :: 0 <= w < |r.workers| ==> r.workers[w] == if w < n then Finished else Idle
    decreases n
  {
    if n == 0 {
      schedule := front;
    } else {
      var before := AllReturn(p, front, n - 1);
      RunSnoc(p, before, Get(n - 1));
      schedule := before + [Get(n - 1)];
    }
  }

  /** Nothing but the deadline keeps a name away: with at least one worker, for any names
      the resolver may reply there is a schedule that ends with every worker returned and
      exactly the targets answered, each by its name. */
  lemma EveryAnswerPossible(targets: seq<Ip>, workers: nat, names: Ip -> string) returns (schedule: seq<Event>)
    requires NoDup(targets) && workers > 0
    ensures var p := Run(Init(targets, workers), schedule);
            && AllDone(p) && p.started == Elems(targets)
            && forall ip :: Lookup(p.resolved, ip) == if ip in targets then Some(names(ip)) else None
  {
    var front := Rounds(targets, workers, names, |targets|);
    assert targets[..|targets|] == targets && targets[|targets|..] == [];
    var q := Run(Init(targets, workers), front);
    schedule := AllReturn(Init(targets, workers), front, |q.workers|);
  }

  // ---------------------------------------------------------------- which names are published

  /** After the first k events worker w is in state s, and event k is e. */
  predicate Meets(targets: seq<Ip>, workers: nat, schedule: seq<Event>, k: int, e: Event, s: Worker) {
    0 <= k < |schedule| && schedule[k] == e
    && var p := Run(Init(targets, workers), schedule[..k]); e.w < |p.workers| && p.workers[e.w] == s
  }

  /** A worker that was looking the address up got this name as its reply. */
  ghost predicate Replied(targets: seq<Ip>, workers: nat, schedule: seq<Event>, n: nat, w: nat, ip: Ip, name: string) {
    exists k :: k < n && Meets(targets, workers, schedule, k, Reply(w, name), Looking(ip))
  }

  /** A worker with that answer published it before the deadline. */
  ghost predicate Heard(targets: seq<Ip>, workers: nat, schedule: seq<Event>, ip: Ip, name: string) {
    exists k, w :: Meets(targets, workers, schedule, k, Publish(w), Worker.Answered(ip, name))
  }

  /** A worker marked the address as begun. */
  ghost predicate Begun(targets: seq<Ip>, workers: nat, schedule: seq<Event>, ip: Ip) {
    exists k, w :: Meets(targets, workers, schedule, k, Mark(w), Pulled(ip))
  }

  lemma MeetsEarlier(targets: seq<Ip>, workers: nat, front: seq<Event>, last: Event, k: int, e: Event, s: Worker)
    ensures k < |front| ==> (Meets(targets, workers, front, k, e, s) <==> Meets(targets, workers, front + [last], k, e, s))
    ensures Meets(targets, workers, front + [last], |front|, e, s) <==>
            e == last && var p := Run(Init(targets, workers), front); e.w < |p.workers| && p.workers[e.w] == s
  {
    hide Run;
    assert (front + [last])[..|front|] == front;
    if 0 <= k < |front| { assert (front + [last])[..k] == front[..k]; }
  }

  /** Answers in hand are replies. */
  lemma {:induction false} AnswersAreReplies(targets: seq<Ip>, workers: nat, schedule: seq<Event>, w: nat, ip: Ip, name: string)
    requires var p := Run(Init(targets, workers), schedule); w < |p.workers| && p.workers[w] == Worker.Answered(ip, name)
    ensures Replied(targets, workers, schedule, |schedule|, w, ip, name)
    decreases |schedule|
  {
    if schedule != [] {
      var front, last := schedule[..|schedule| - 1], schedule[|schedule| - 1];
      assert schedule == front + [last];
      RunSnoc(Init(targets, workers), front, last);
      var p := Run(Init(targets, workers), front);
      hide Run;
      if w < |p.workers| && p.workers[w] == Worker.Answered(ip, name) {
        AnswersAreReplies(targets, workers, front, w, ip, name);
        var k :| k < |front| && Meets(targets, workers, front, k, Reply(w, name), Looking(ip));
        MeetsEarlier(targets, workers, front, last, k, Reply(w, name), Looking(ip));
      } else {
        assert last == Reply(w, name) && p.workers[w] == Looking(ip);
        MeetsEarlier(targets, workers, front, last, |front|, Reply(w, name), Looking(ip));
      }
    }
  }

  /** What is returned, in terms of the events: an address has a name exactly if a worker
      published it, the name is the reply that worker got before, and an address is started
      exactly if a worker marked it. */
  lemma NamesAreReplies(targets: seq<Ip>, workers: nat, schedule: seq<Event>)
    requires NoDup(targets)
    ensures var p := Run(Init(targets, workers), schedule);
            && (forall ip, name :: Lookup(p.resolved, ip) == Some(name) <==> Heard(targets, workers, schedule, ip, name))
            && (forall ip :: ip in p.started <==> Begun(targets, workers, schedule, ip))
    ensures forall k: int, w, ip, name :: Meets(targets, workers, schedule, k, Publish(w), Worker.Answered(ip, name)) ==>
              k >= 0 && Replied(targets, workers, schedule, k, w, ip, name)
  {
    hide Run, Meets;
    forall ip, name
      ensures Lookup(Run(Init(targets, workers), schedule).resolved, ip) == Some(name) <==> Heard(targets, workers, schedule, ip, name)
    {
      NamesHeard(targets, workers, schedule, ip, name);
    }
    forall ip ensures ip in Run(Init(targets, workers), schedule).started <==> Begun(targets, workers, schedule, ip) {
      StartedBegun(targets, workers, schedule, ip);
    }
    forall k: int, w, ip, name | Meets(targets, workers, schedule, k, Publish(w), Worker.Answered(ip, name))
      ensures k >= 0 && Replied(targets, workers, schedule, k, w, ip, name)
    {
      PublishedReplied(targets, workers, schedule, k, w, ip, name);
    }
  }

  lemma PublishedReplied(targets: seq<Ip>, workers: nat, schedule: seq<Event>, k: int, w: nat, ip: Ip, name: string)
    requires Meets(targets, workers, schedule, k, Publish(w), Worker.Answered(ip, name))
    ensures k >= 0 && Replied(targets, workers, schedule, k, w, ip, name)
  {
    AnswersAreReplies(targets, workers, schedule[..k], w, ip, name);
    var j :| j < k && Meets(targets, workers, schedule[..k], j, Reply(w, name), Looking(ip));
    hide Run;
    MeetsInside(targets, workers, schedule[..k], j, Reply(w, name), Looking(ip));
    assert schedule[..k][..j] == schedule[..j];
    assert Meets(targets, workers, schedule, j, Reply(w, name), Looking(ip));
  }

  lemma {:induction false} NamesHeard(targets: seq<Ip>, workers: nat, schedule: seq<Event>, ip: Ip, name: string)
    requires NoDup(targets)
    ensures Lookup(Run(Init(targets, workers), schedule).resolved, ip) == Some(name) <==> Heard(targets, workers, schedule, ip, name)
    decreases |schedule|
  {
    if schedule != [] {
      var front, last := schedule[..|schedule| - 1], schedule[|schedule| - 1];
      assert schedule == front + [last];
      NamesHeard(targets, workers, front, ip, name);
      InvRun(targets, workers, front);
      RunSnoc(Init(targets, workers), front, last);
      HeardSnoc(targets, workers, front, last, ip, name);
      PublishesName(Run(Init(targets, workers), front), last, targets, ip, name);
    }
  }

  /** One event changes the name of an address only by publishing it. */
  lemma PublishesName(p: Pool, e: Event, targets: seq<Ip>, ip: Ip, name: string)
    requires Inv(p, targets)
    ensures Lookup(Next(p, e).resolved, ip) == Some(name) <==>
            Lookup(p.resolved, ip) == Some(name)
            || (e.Publish? && e.w < |p.workers| && p.workers[e.w] == Worker.Answered(ip, name))
  {
    if e.w < |p.workers| { assert WorkerOk(p, p.workers[e.w]); }
  }

  lemma HeardSnoc(targets: seq<Ip>, workers: nat, front: seq<Event>, last: Event, ip: Ip, name: string)
    ensures var p := Run(Init(targets, workers), front);
            Heard(targets, workers, front + [last], ip, name) <==>
            Heard(targets, workers, front, ip, name)
            || (last.Publish? && last.w < |p.workers| && p.workers[last.w] == Worker.Answered(ip, name))
  {
    hide Meets, Run;
    var s := Worker.Answered(ip, name);
    if k, w :| Meets(targets, workers, front, k, Publish(w), s) {
      MeetsInside(targets, workers, front, k, Publish(w), s);
      MeetsEarlier(targets, workers, front, last, k, Publish(w), s);
    }
    if k, w :| Meets(targets, workers, front + [last], k, Publish(w), s) {
      MeetsInside(targets, workers, front + [last], k, Publish(w), s);
      MeetsEarlier(targets, workers, front, last, k, Publish(w), s);
    }
    MeetsEarlier(targets, workers, front, last, |front|, Publish(last.w), s);
  }

  lemma MeetsInside(targets: seq<Ip>, workers: nat, schedule: seq<Event>, k: int, e: Event, s: Worker)
    requires Meets(targets, workers, schedule, k, e, s)
    ensures 0 <= k < |schedule|
  {
  }

  lemma {:induction false} StartedBegun(targets: seq<Ip>, workers: nat, schedule: seq<Event>, ip: Ip)
    ensures ip in Run(Init(targets, workers), schedule).started <==> Begun(targets, workers, schedule, ip)
    decreases |schedule|
  {
    if schedule != [] {
      var front, last := schedule[..|schedule| - 1], schedule[|schedule| - 1];
      assert schedule == front + [last];
      StartedBegun(targets, workers, front, ip);
      RunSnoc(Init(targets, workers), front, last);
      BegunSnoc(targets, workers, front, last, ip);
    }
  }

  lemma BegunSnoc(targets: seq<Ip>, workers: nat, front: seq<Event>, last: Event, ip: Ip)
    ensures var p := Run(Init(targets, workers), front);
            Begun(targets, workers, front + [last], ip) <==>
            Begun(targets, workers, front, ip) || (last.Mark? && last.w < |p.workers| && p.workers[last.w] == Pulled(ip))
  {
    hide Meets, Run;
    if k, w :| Meets(targets, workers, front, k, Mark(w), Pulled(ip)) {
      MeetsInside(targets, workers, front, k, Mark(w), Pulled(ip));
      MeetsEarlier(targets, workers, front, last, k, Mark(w), Pulled(ip));
    }
    if k, w :| Meets(targets, workers, front + [last], k, Mark(w), Pulled(ip)) {
      MeetsInside(targets, workers, front + [last], k, Mark(w), Pulled(ip));
      MeetsEarlier(targets, workers, front, last, k, Mark(w), Pulled(ip));
    }
    MeetsEarlier(targets, workers, front, last, |front|, Mark(last.w), Pulled(ip));
  }

  /** The resolver itself: play the schedule up to the deadline on mutable state and
      copy out what has landed. Each event runs one critical section of one worker. */
  method ResolveParallel(targets: seq<Ip>, workers: nat, schedule: seq<Event>)
    returns (resolved: map<Ip, string>, started: set<Ip>)
    ensures resolved == Run(Init(targets, workers), schedule).resolved
    ensures started == Run(Init(targets, workers), schedule).started
  {
    var queue := targets;
    ghost var pulled: seq<Ip> := [];
    var threads := seq(MinNat(workers, |targets|), _ => Idle);
    resolved, started := map[], {};
    var i := 0;
    while i < |schedule|
      invariant 0 <= i <= |schedule|
      invariant Pool(queue, pulled, threads, started, resolved) == Run(Init(targets, workers), schedule[..i])
    {
      var e := schedule[i];
      assert schedule[..i + 1][..i] == schedule[..i];
      if e.w < |threads| {
        match (e, threads[e.w]) {
          case (Get(w), Idle) =>
            if queue == [] {
              threads := threads[w := Finished];
            } else {
              var ip := queue[0];
              queue, pulled := queue[1..], pulled + [ip];
              threads := threads[w := Pulled(ip)];
            }
          case (Mark(w), Pulled(ip)) =>
            started := started + {ip};
            threads := threads[w := Looking(ip)];
          case (Reply(w, name), Looking(ip)) =>
            threads := threads[w := Answered(ip, name)];
          case (Publish(w), Answered(ip, name)) =>
            resolved := resolved[ip := name];
            threads := threads[w := Idle];
          case _ =>
        }
      }
      i := i + 1;
    }
    assert schedule[..i] == schedule;
  }
}
