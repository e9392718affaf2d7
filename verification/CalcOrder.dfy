/** The order in which calculated gauges are evaluated (calculator.py): how a source's
    references are read out of its time expression, and the round-based topological
    sort over them. */
module CalcOrder {
  import opened Common
  import opened Observations

  /** A calculated source; a missing time expression is the empty string. */
  datatype Source = Source(id: int, name: string, dtype: DataType, expression: string, timeExpression: string)

  /** source_to_gauge and gauge_id_to_name. */
  datatype Links = Links(gaugeOf: map<int, int>, nameOf: map<int, string>)

  // ---------------------------------------------------------------- reading references

  predicate IsSpace(c: char) {
    c == ' ' || 9 as char <= c <= 13 as char || 28 as char <= c <= 31 as char
  }

  /** str.split(): the non-empty words of s, `word` being the one under way. */
  function Words(s: string, word: string): seq<string> {
    if s == "" then (if word == "" then [] else [word])
    else if IsSpace(s[0]) then (if word == "" then [] else [word]) + Words(s[1..], "")
    else Words(s[1..], word + [s[0]])
  }

  /** str.split("::"): the pieces of s, `piece` being the one under way. */
  function Pieces(s: string, piece: string): (ps: seq<string>)
    ensures |ps| >= 1
  {
    if s == "" then [piece]
    else if "::" <= s then [piece] + Pieces(s[2..], "")
    else Pieces(s[1..], piece + [s[0]])
  }

  /** A text without spaces is one word. */
  lemma {:induction false} OneWord(s: string, word: string)
    requires Spaceless(s)
    ensures Words(s, word) == if word + s == "" then [] else [word + s]
  {
    if s != "" {
      OneWord(s[1..], word + [s[0]]);
      assert word + s == (word + [s[0]]) + s[1..];
    } else {
      assert word + s == word;
    }
  }

  predicate Colonless(s: string) {
    forall i :: 0 <= i < |s| ==> s[i] != ':'
  }

  lemma NotColonFirst(s: string)
    requires s != "" && s[0] != ':'
    ensures !("::" <= s)
  {
    assert "::"[0] == ':';
  }

  predicate Spaceless(s: string) {
    forall i :: 0 <= i < |s| ==> !IsSpace(s[i])
  }

  /** Splitting takes a colon-free prefix off a joined text. */
  lemma {:induction false} FirstPiece(a: string, rest: string, piece: string)
    requires Colonless(a)
    ensures Pieces(a + "::" + rest, piece) == [piece + a] + Pieces(rest, "")
    ensures Pieces(a, piece) == [piece + a]
  {
    var s := a + "::" + rest;
    if a == "" {
      assert s[..2] == "::" && s[2..] == rest && piece + a == piece;
    } else {
      assert s[0] == a[0] && s[1..] == a[1..] + "::" + rest;
      NotColonFirst(s);
      NotColonFirst(a);
      FirstPiece(a[1..], rest, piece + [a[0]]);
      assert piece + a == (piece + [a[0]]) + a[1..];
    }
  }

  function Refs(timeExpression: string): seq<string> {
    Words(timeExpression, "")
  }

  /** The gauge a reference is evaluated against: the second part of three or more, the
      first of two, none for fewer. */
  function ReadGauge(ref: string): Option<string> {
    var ps := Pieces(ref, "");
    if |ps| >= 3 then Some(ps[1]) else if |ps| == 2 then Some(ps[0]) else None
  }

  /** The gauge a reference counts as a dependency on: references of four or more parts
      are skipped. */
  function DepGauge(ref: string): Option<string> {
    var ps := Pieces(ref, "");
    if |ps| == 3 then Some(ps[1]) else if |ps| == 2 then Some(ps[0]) else None
  }

  function GaugeName(links: Links, s: Source): string {
    GetOr(links.nameOf, GetOr(links.gaugeOf, s.id, -1), "")
  }

  function GaugeNames(links: Links, sources: seq<Source>): set<string> {
    set s | s in sources :: GaugeName(links, s)
  }

  /** _get_calc_deps over the references from position k on. */
  function DepsFrom(refs: seq<string>, own: string, calcNames: set<string>): (deps: seq<string>)
    ensures forall d :: d in deps <==>
              d in calcNames && d != own && exists i :: 0 <= i < |refs| && DepGauge(refs[i]) == Some(d)
  {
    if refs == [] then []
    else
      var d := DepGauge(refs[0]);
      var rest := DepsFrom(refs[1..], own, calcNames);
      assert forall i :: 0 <= i < |refs| - 1 ==> refs[1..][i] == refs[i + 1];
      assert forall i :: 1 <= i < |refs| ==> refs[i] == refs[1..][i - 1];
      if d.Some? && d.value in calcNames && d.value != own then [d.value] + rest else rest
  }

  function Deps(links: Links, calcNames: set<string>, s: Source): seq<string> {
    DepsFrom(Refs(s.timeExpression), GaugeName(links, s), calcNames)
  }

  /** Every other calculated gauge a source reads is one of its dependencies exactly
      when no reference of four or more parts names one that shorter references miss. */
  lemma DepsCoverReadsIff(links: Links, calcNames: set<string>, s: Source)
    ensures var refs := Refs(s.timeExpression);
            (forall i :: 0 <= i < |refs| && ReadGauge(refs[i]).Some?
               && ReadGauge(refs[i]).value in calcNames && ReadGauge(refs[i]).value != GaugeName(links, s)
               ==> ReadGauge(refs[i]).value in Deps(links, calcNames, s))
            <==>
            (forall i :: 0 <= i < |refs| && |Pieces(refs[i], "")| >= 4
               && Pieces(refs[i], "")[1] in calcNames && Pieces(refs[i], "")[1] != GaugeName(links, s)
               ==> exists k :: 0 <= k < |refs| && DepGauge(refs[k]) == Some(Pieces(refs[i], "")[1]))
  {
    var refs := Refs(s.timeExpression);
    forall i | 0 <= i < |refs| && ReadGauge(refs[i]).Some? && |Pieces(refs[i], "")| < 4
      ensures DepGauge(refs[i]) == ReadGauge(refs[i])
    {
    }
  }

  /** A single reference is read whole, and parts at its first double colon. */
  lemma OneRef(a: string, rest: string)
    requires Colonless(a) && Spaceless(a) && Spaceless(rest)
    ensures Refs(a + "::" + rest) == [a + "::" + rest]
    ensures Pieces(a + "::" + rest, "") == [a] + Pieces(rest, "")
  {
    OneWord(a + "::" + rest, "");
    assert "" + (a + "::" + rest) == a + "::" + rest;
    Split(a, rest);
  }

  lemma Split(a: string, rest: string)
    requires Colonless(a)
    ensures Pieces(a + "::" + rest, "") == [a] + Pieces(rest, "") && Pieces(a, "") == [a]
  {
    FirstPiece(a, rest, "");
    assert "" + a == a;
  }

  /** A reference key::gauge::type::more is read from its gauge but orders nothing. */
  lemma FourPartsOrderNothing(links: Links, calcNames: set<string>, s: Source, key: string, gauge: string, dtype: string, more: string)
    requires Colonless(key) && Colonless(gauge) && Colonless(dtype) && Colonless(more)
    requires Spaceless(key) && Spaceless(gauge + "::" + (dtype + "::" + more))
    requires s.timeExpression == key + "::" + (gauge + "::" + (dtype + "::" + more))
    ensures Refs(s.timeExpression) == [s.timeExpression] && ReadGauge(s.timeExpression) == Some(gauge)
    ensures forall d :: d !in Deps(links, calcNames, s)
  {
    OneRef(key, gauge + "::" + (dtype + "::" + more));
    Split(gauge, dtype + "::" + more);
    Split(dtype, more);
    Split(more, "");
    assert Pieces(s.timeExpression, "") == [key, gauge, dtype, more];
    assert DepGauge(s.timeExpression) == None;
  }

  // ---------------------------------------------------------------- order and cycles

  /** Each dependency is the gauge of some source earlier in the order. */
  ghost predicate Ordered(links: Links, calcNames: set<string>, order: seq<Source>) {
    forall i, d :: 0 <= i < |order| && d in Deps(links, calcNames, order[i]) ==> Emitted(links, order[..i], d)
  }

  ghost predicate Emitted(links: Links, done: seq<Source>, gauge: string) {
    gauge != "" && exists s :: s in done && GaugeName(links, s) == gauge
  }

  /** No member of a blocked set can ever run first: each waits for a gauge all of
      whose sources are in the set (or for the empty name, which nothing provides). */
  ghost predicate Blocked(links: Links, sources: seq<Source>, b: set<Source>) {
    var calcNames := GaugeNames(links, sources);
    && b != {}
    && (forall s :: s in b ==> s in sources)
    && (forall s :: s in b ==> exists d :: d in Deps(links, calcNames, s) && OnlyIn(links, sources, b, d))
  }

  ghost predicate OnlyIn(links: Links, sources: seq<Source>, b: set<Source>, gauge: string) {
    gauge != "" ==> forall t :: t in sources && GaugeName(links, t) == gauge ==> t in b
  }

  lemma DepKnown(links: Links, calcNames: set<string>, s: Source, d: string)
    requires d in Deps(links, calcNames, s)
    ensures d in calcNames && d != GaugeName(links, s)
  {
  }

  /** What the first member of a set waits for comes from outside the set. */
  lemma FirstWaitsOutside(links: Links, calcNames: set<string>, order: seq<Source>, b: set<Source>, i: nat, d: string) returns (t: Source)
    requires Ordered(links, calcNames, order) && i < |order| && d in Deps(links, calcNames, order[i])
    requires forall j :: 0 <= j < i ==> order[j] !in b
    ensures d != "" && t in multiset(order) && GaugeName(links, t) == d && t !in b
  {
    hide Deps;
    assert Emitted(links, order[..i], d);
    t :| t in order[..i] && GaugeName(links, t) == d;
  }

  /** A complete order leaves no blocked set: look at its first member to run. */
  lemma OrderedNotBlocked(links: Links, sources: seq<Source>, order: seq<Source>, b: set<Source>)
    requires Ordered(links, GaugeNames(links, sources), order) && multiset(order) == multiset(sources)
    ensures !Blocked(links, sources, b)
  {
    hide Deps, Ordered;
    if Blocked(links, sources, b) {
      var s :| s in b;
      assert s in multiset(order);
      var i := FirstIn(order, b);
      var d :| d in Deps(links, GaugeNames(links, sources), order[i]) && OnlyIn(links, sources, b, d);
      var t := FirstWaitsOutside(links, GaugeNames(links, sources), order, b, i, d);
      assert false;
    }
  }

  lemma {:induction false} FirstIn(order: seq<Source>, b: set<Source>) returns (i: nat)
    requires exists s :: s in b && s in order
    ensures i < |order| && order[i] in b && forall j :: 0 <= j < i ==> order[j] !in b
  {
    if order[0] in b {
      i := 0;
    } else {
      var s :| s in b && s in order;
      assert s in order[1..];
      var k := FirstIn(order[1..], b);
      i := k + 1;
      assert forall j :: 1 <= j < i ==> order[j] == order[1..][j - 1];
    }
  }

  datatype TopoResult = Sorted(order: seq<Source>) | Circular(names: seq<string>)

  /** The names in the error message: the gauge's, or the source's own if it has none. */
  function ReportNames(links: Links, sources: seq<Source>): seq<string> {
    seq(|sources|, i requires 0 <= i < |sources| =>
      GetOr(links.nameOf, GetOr(links.gaugeOf, sources[i].id, -1), sources[i].name))
  }

  /** The sort returns an order of all the sources in which every dependency comes
      first, or raises; it raises exactly when some set of sources is blocked. The
      budget of n + 1 rounds never cuts it short. */
  method TopoSort(sources: seq<Source>, links: Links) returns (res: TopoResult)
    ensures res.Sorted? ==>
              multiset(res.order) == multiset(sources) && Ordered(links, GaugeNames(links, sources), res.order)
    ensures res.Circular? <==> exists b :: Blocked(links, sources, b)
    ensures res.Circular? ==> exists rest :: Blocked(links, sources, Elems(rest)) && res.names == ReportNames(links, rest)
  {
    hide Deps, Blocked, Ordered, ResolvedNames, GaugeNames, GaugeName, ReportNames;
    var calcNames := GaugeNames(links, sources);
    var sorted: seq<Source> := [];
    NothingSorted(links, calcNames);
    var remaining := sources;
    var resolved: set<string> := {};
    var maxIterations := |remaining| + 1;
    while remaining != [] && maxIterations > 0
      invariant multiset(sorted) + multiset(remaining) == multiset(sources)
      invariant Ordered(links, calcNames, sorted)
      invariant resolved == ResolvedNames(links, sorted)
      invariant |remaining| < maxIterations
      decreases maxIterations
    {
      maxIterations := maxIterations - 1;
      var progress, nextRemaining := false, [];
      ghost var round := remaining;
      var i := 0;
      while i < |remaining|
        invariant 0 <= i <= |remaining|
        invariant multiset(sorted) + multiset(nextRemaining) + multiset(remaining[i..]) == multiset(sources)
        invariant Ordered(links, calcNames, sorted)
        invariant resolved == ResolvedNames(links, sorted)
        invariant |nextRemaining| <= i && (progress ==> |nextRemaining| < i)
        invariant !progress ==> nextRemaining == remaining[..i]
        invariant !progress ==> forall s :: s in nextRemaining ==> exists d :: d in Deps(links, calcNames, s) && d !in resolved
      {
        var source := remaining[i];
        assert remaining[i..] == [source] + remaining[i + 1..];
        var deps := Deps(links, calcNames, source);
        if forall d | d in deps :: d in resolved {
          OrderedSnoc(links, calcNames, sorted, source);
          sorted := sorted + [source];
          var gauge := GaugeName(links, source);
          if gauge != "" {
            resolved := resolved + {gauge};
          }
          progress := true;
        } else {
          nextRemaining := nextRemaining + [source];
        }
        i := i + 1;
      }
      assert remaining[i..] == [] && remaining[..i] == remaining;
      if !progress {
        StuckIsBlocked(links, sources, sorted, remaining);
        return Circular(ReportNames(links, remaining));
      }
      remaining := nextRemaining;
    }
    forall b ensures !Blocked(links, sources, b) {
      OrderedNotBlocked(links, sources, sorted, b);
    }
    return Sorted(sorted);
  }

  ghost function ResolvedNames(links: Links, done: seq<Source>): set<string> {
    set s | s in done && GaugeName(links, s) != "" :: GaugeName(links, s)
  }

  lemma NothingSorted(links: Links, calcNames: set<string>)
    ensures Ordered(links, calcNames, []) && ResolvedNames(links, []) == {}
  {
  }

  lemma OrderedSnoc(links: Links, calcNames: set<string>, sorted: seq<Source>, source: Source)
    requires Ordered(links, calcNames, sorted)
    requires forall d :: d in Deps(links, calcNames, source) ==> d in ResolvedNames(links, sorted)
    ensures Ordered(links, calcNames, sorted + [source])
    ensures ResolvedNames(links, sorted + [source]) == ResolvedNames(links, sorted)
              + if GaugeName(links, source) != "" then {GaugeName(links, source)} else {}
  {
    hide Deps;
    var longer := sorted + [source];
    forall i, d | 0 <= i < |longer| && d in Deps(links, calcNames, longer[i]) ensures Emitted(links, longer[..i], d) {
      if i < |sorted| {
        assert longer[..i] == sorted[..i] && Emitted(links, sorted[..i], d);
      } else {
        assert longer[..i] == sorted;
        assert Emitted(links, sorted, d);
      }
    }
  }

  /** When a round makes no progress, what remains is a blocked set. */
  lemma StuckIsBlocked(links: Links, sources: seq<Source>, sorted: seq<Source>, remaining: seq<Source>)
    requires remaining != [] && multiset(sorted) + multiset(remaining) == multiset(sources)
    requires forall s :: s in remaining ==>
               exists d :: d in Deps(links, GaugeNames(links, sources), s) && d !in ResolvedNames(links, sorted)
    ensures Blocked(links, sources, Elems(remaining))
  {
    var b := Elems(remaining);
    assert remaining[0] in b;
    forall s | s in b ensures s in sources {
      assert s in multiset(remaining) && s in multiset(sources);
    }
    forall s | s in b ensures exists d :: d in Deps(links, GaugeNames(links, sources), s) && OnlyIn(links, sources, b, d) {
      var d :| d in Deps(links, GaugeNames(links, sources), s) && d !in ResolvedNames(links, sorted);
      forall t | d != "" && t in sources && GaugeName(links, t) == d ensures t in b {
        assert t in multiset(sources);
      }
      assert OnlyIn(links, sources, b, d);
    }
  }

  // ---------------------------------------------------------------- cycles

  /** The usual setting: two calculated sources linked to gauges sit on different ones. */
  ghost predicate OneCalcPerGauge(links: Links, sources: seq<Source>) {
    forall s, t :: s in sources && t in sources && GaugeName(links, s) == GaugeName(links, t) != "" ==> s == t
  }

  /** The source waits for a gauge without a name, which nothing ever provides. */
  predicate WaitsForNoName(links: Links, sources: seq<Source>, s: Source) {
    s in sources && "" in Deps(links, GaugeNames(links, sources), s)
  }

  ghost predicate AllNamed(links: Links, sources: seq<Source>) {
    forall s :: s in sources ==> !WaitsForNoName(links, sources, s)
  }

  /** A walk along dependencies: each source waits for the gauge of the next. */
  ghost predicate Walk(links: Links, sources: seq<Source>, w: seq<Source>) {
    && (forall i :: 0 <= i < |w| ==> w[i] in sources)
    && (forall i :: 0 <= i < |w| - 1 ==> GaugeName(links, w[i + 1]) in Deps(links, GaugeNames(links, sources), w[i]))
  }

  /** A dependency cycle, first source repeated at the end; it passes through at least
      two sources because a source's own gauge is never a dependency. */
  ghost predicate Cycle(links: Links, sources: seq<Source>, w: seq<Source>) {
    Walk(links, sources, w) && |w| >= 3 && w[0] == w[|w| - 1]
  }

  lemma CycleBlocks(links: Links, sources: seq<Source>, w: seq<Source>)
    requires OneCalcPerGauge(links, sources) && AllNamed(links, sources) && Cycle(links, sources, w)
    ensures Blocked(links, sources, Elems(w))
  {
    hide Deps;
    var b := Elems(w);
    var calcNames := GaugeNames(links, sources);
    assert w[0] in b;
    forall s | s in b ensures exists d :: d in Deps(links, calcNames, s) && OnlyIn(links, sources, b, d) {
      var i :| 0 <= i < |w| && w[i] == s;
      var k := if i == |w| - 1 then 0 else i;
      assert w[k] == s && w[k + 1] in b && w[k + 1] in sources;
      assert GaugeName(links, w[k + 1]) in Deps(links, calcNames, s);
      assert OnlyIn(links, sources, b, GaugeName(links, w[k + 1]));
    }
  }

  /** Inside a blocked set one can always walk on. */
  lemma {:induction false} WalkOn(links: Links, sources: seq<Source>, b: set<Source>, n: nat) returns (w: seq<Source>)
    requires AllNamed(links, sources) && Blocked(links, sources, b)
    ensures |w| == n + 1 && Walk(links, sources, w) && forall i :: 0 <= i < |w| ==> w[i] in b
  {
    hide Deps;
    if n == 0 {
      var s :| s in b;
      w := [s];
    } else {
      var v := WalkOn(links, sources, b, n - 1);
      var s := v[n - 1];
      var d :| d in Deps(links, GaugeNames(links, sources), s) && OnlyIn(links, sources, b, d);
      DepKnown(links, GaugeNames(links, sources), s, d);
      assert d != "";
      var t :| t in sources && GaugeName(links, t) == d;
      w := v + [t];
    }
  }

  /** A sequence longer than the set it is drawn from repeats itself. */
  lemma {:induction false} Pigeonhole(w: seq<Source>, b: set<Source>) returns (i: nat, j: nat)
    requires |w| > |b| && forall k :: 0 <= k < |w| ==> w[k] in b
    ensures i < j < |w| && w[i] == w[j]
  {
    var last := w[|w| - 1];
    if k :| 0 <= k < |w| - 1 && w[k] == last {
      i, j := k, |w| - 1;
    } else {
      i, j := Pigeonhole(w[..|w| - 1], b - {last});
    }
  }

  lemma StepsApart(links: Links, sources: seq<Source>, w: seq<Source>, i: nat, j: nat)
    requires Walk(links, sources, w) && i < j < |w| && w[i] == w[j]
    ensures j >= i + 2
  {
    hide Deps;
    assert GaugeName(links, w[i + 1]) in Deps(links, GaugeNames(links, sources), w[i]);
    DepKnown(links, GaugeNames(links, sources), w[i], GaugeName(links, w[i + 1]));
  }

  lemma BlockedHasCycle(links: Links, sources: seq<Source>, b: set<Source>) returns (c: seq<Source>)
    requires AllNamed(links, sources) && Blocked(links, sources, b)
    ensures Cycle(links, sources, c)
  {
    hide Deps, Blocked;
    var w := WalkOn(links, sources, b, |b|);
    var i, j := Pigeonhole(w, b);
    StepsApart(links, sources, w, i, j);
    c := w[i..j + 1];
    assert forall k :: 0 <= k < |c| ==> c[k] == w[i + k];
  }

  /** With one calculated source per gauge the sort raises exactly on a dependency cycle of
      two or more sources or a reference to a gauge without a name that some calculated
      source linked to no gauge seems to provide. */
  lemma CircularIff(links: Links, sources: seq<Source>)
    requires OneCalcPerGauge(links, sources)
    ensures (exists b :: Blocked(links, sources, b)) <==>
            (exists w :: Cycle(links, sources, w)) || exists s :: WaitsForNoName(links, sources, s)
  {
    if s :| WaitsForNoName(links, sources, s) {
      NoNameBlocks(links, sources, s);
    } else {
      if b :| Blocked(links, sources, b) {
        var c := BlockedHasCycle(links, sources, b);
      }
      if w :| Cycle(links, sources, w) {
        CycleBlocks(links, sources, w);
      }
    }
  }

  lemma NoNameBlocks(links: Links, sources: seq<Source>, s: Source)
    requires WaitsForNoName(links, sources, s)
    ensures Blocked(links, sources, {s})
  {
    hide Deps;
    assert OnlyIn(links, sources, {s}, "");
  }

  /** For instance without any cycle: a reference with an empty gauge name, next to a
      calculated source that is linked to no gauge. */
  lemma EmptyNameBlocks(links: Links, lost: Source, s: Source, dtype: string)
    requires GaugeName(links, lost) == "" && GaugeName(links, s) != ""
    requires Colonless(dtype) && Spaceless(dtype) && s.timeExpression == "" + "::" + dtype
    ensures Blocked(links, [lost, s], {s})
  {
    OneRef("", dtype);
    Split(dtype, "");
    var sources := [lost, s];
    assert lost in sources;
    assert Refs(s.timeExpression)[0] == s.timeExpression && DepGauge(s.timeExpression) == Some("");
    assert "" in Deps(links, GaugeNames(links, sources), s);
    assert OnlyIn(links, sources, {s}, "");
  }
}
