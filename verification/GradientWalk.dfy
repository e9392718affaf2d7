/** The greedy walk over elevation bins that yields the gradient profile
    (docs/one-offs/compute_reach_gradient.py). */
module GradientWalk {
  import opened Common
  import opened Rounding
  import opened GradientBins

  type Bins = seq<Option<Bin>>

  /** A stretch from bin `at` to bin `at + n`, before rounding. */
  datatype Window = Window(at: nat, n: nat, significant: bool, drop: real)

  /** One row of the profile as it is stored. */
  datatype Sample = Sample(dMi: real, lat: real, lon: real, grad: real, wMi: real, significant: bool)

  // ---------------------------------------------------------------- significance

  function Variance(bins: Bins, i: nat, j: nat): real
    requires i < |bins| && j < |bins| && bins[i].Some? && bins[j].Some?
  {
    bins[i].value.variance + bins[j].value.variance
  }

  function Drop(bins: Bins, i: nat, j: nat): real
    requires i < |bins| && j < |bins| && bins[i].Some? && bins[j].Some?
  {
    bins[i].value.mean - bins[j].value.mean
  }

  /** drop >= m * sqrt(v), without the root. */
  predicate Exceeds(drop: real, m: real, v: real) {
    if m >= 0.0 then drop >= 0.0 && drop * drop >= m * m * v else drop >= 0.0 || drop * drop <= m * m * v
  }

  lemma SquaresOrder(x: real, y: real)
    requires x >= 0.0 && y >= 0.0
    ensures x >= y <==> x * x >= y * y
  {
    if x >= y {
      ProductOrder(y, y, x);
      ProductOrder(x, y, x);
    } else {
      SquaresStrict(x, y);
    }
  }

  lemma SquaresStrict(x: real, y: real)
    requires 0.0 <= x < y
    ensures x * x < y * y
  {
    var e := y - x;
    assert e * e > 0.0 && x * e >= 0.0;
    assert y * y == x * x + 2.0 * (x * e) + e * e;
  }

  lemma ProductOrder(a: real, b: real, c: real)
    requires a >= 0.0 && b <= c
    ensures a * b <= a * c
  {
    assert a * (c - b) >= 0.0;
  }

  lemma SquareOfProduct(m: real, root: real)
    ensures (m * root) * (m * root) == m * m * (root * root)
  {
    var p := m * root;
    assert p * p == m * (root * p);
    assert root * p == m * (root * root);
    assert m * (m * (root * root)) == m * m * (root * root);
  }

  /** With sigma_drop the root of the summed variances, the test is the program's. */
  lemma ExceedsIsThreshold(drop: real, m: real, v: real, sigmaDrop: real)
    requires sigmaDrop >= 0.0 && sigmaDrop * sigmaDrop == v
    ensures Exceeds(drop, m, v) <==> drop >= m * sigmaDrop
  {
    SquareOfProduct(m, sigmaDrop);
    var t := m * sigmaDrop;
    if m >= 0.0 {
      assert t >= 0.0;
      if drop >= 0.0 { SquaresOrder(drop, t); }
    } else {
      assert t <= 0.0;
      if drop < 0.0 {
        SquaresOrder(-t, -drop);
        assert (-t) * (-t) == t * t && (-drop) * (-drop) == drop * drop;
      }
    }
  }

  predicate Clears(bins: Bins, m: real, i: nat, n: nat)
    requires i < |bins| && bins[i].Some? && i + n < |bins|
  {
    bins[i + n].Some? && Exceeds(Drop(bins, i, i + n), m, Variance(bins, i, i + n))
  }

  // ---------------------------------------------------------------- the walk as a function

  /** The lengths the search tries: range(1, min(max_n, n_bins - i)). */
  function Limit(bins: Bins, maxN: nat, i: nat): (l: nat)
    requires i < |bins|
    ensures i + l <= |bins|
  {
    MinNat(maxN, |bins| - i)
  }

  function FirstClear(bins: Bins, m: real, maxN: nat, i: nat, n: nat): (r: Option<nat>)
    requires i < |bins| && bins[i].Some?
    ensures r.Some? ==> n <= r.value < Limit(bins, maxN, i) && Clears(bins, m, i, r.value)
                        && forall k :: n <= k < r.value ==> !Clears(bins, m, i, k)
    ensures r.None? ==> forall k :: n <= k < Limit(bins, maxN, i) ==> !Clears(bins, m, i, k)
    decreases Limit(bins, maxN, i) - n
  {
    if n >= Limit(bins, maxN, i) then None
    else if Clears(bins, m, i, n) then Some(n)
    else FirstClear(bins, m, maxN, i, n + 1)
  }

  /** The largest length up to n whose end bin has samples; 0 if there is none. */
  function LastSampled(bins: Bins, i: nat, n: nat): (r: nat)
    requires i + n < |bins|
    ensures r <= n && (r > 0 ==> bins[i + r].Some?)
    ensures forall j :: i + r < j <= i + n ==> bins[j].None?
  {
    if n == 0 || bins[i + n].Some? then n else LastSampled(bins, i, n - 1)
  }

  /** The window the walk takes from a bin with samples; None: it stops. */
  function Next(bins: Bins, m: real, maxN: nat, i: nat): (w: Option<Window>)
    requires i + 1 < |bins| && bins[i].Some?
    ensures w.Some? ==> w.value.at == i && 1 <= w.value.n && i + w.value.n < |bins| && bins[i + w.value.n].Some?
  {
    var n := FirstClear(bins, m, maxN, i, 1);
    if n.Some? then Some(Window(i, n.value, true, Drop(bins, i, i + n.value)))
    else
      var k := LastSampled(bins, i, MinNat(maxN, |bins| - 1 - i));
      if k == 0 then None else Some(Window(i, k, false, MaxReal(0.0, Drop(bins, i, i + k))))
  }

  function Walk(bins: Bins, m: real, maxN: nat, i: nat): seq<Window>
    decreases |bins| - i
  {
    if i + 1 >= |bins| then []
    else if bins[i].None? then Walk(bins, m, maxN, i + 1)
    else
      var w := Next(bins, m, maxN, i);
      if w.None? then [] else [w.value] + Walk(bins, m, maxN, i + w.value.n)
  }

  // ---------------------------------------------------------------- what a row says

  function Decimals(x: real, scale: real): real
    requires scale > 0.0
  {
    RoundHalfEven(x * scale) as real / scale
  }

  function Width(w: Window, dl: real): real {
    w.n as real * dl
  }

  function Middle(w: Window, dl: real): real {
    (w.at as real + w.n as real / 2.0) * dl
  }

  /** The unrounded gradient: never below zero. */
  function Gradient(w: Window, dl: real): real
    requires w.n >= 1 && dl > 0.0
  {
    WidthPositive(w, dl);
    MaxReal(0.0, w.drop / Width(w, dl))
  }

  lemma WidthPositive(w: Window, dl: real)
    requires w.n >= 1 && dl > 0.0
    ensures Width(w, dl) > 0.0
  {
  }

  /** c is a bin with samples as near to the window's middle as any, the lower of two. */
  predicate NearestToMiddle(bins: Bins, w: Window, c: nat)
    requires w.at + w.n < |bins|
  {
    var mid := w.at + w.n / 2;
    && w.at <= c <= w.at + w.n && bins[c].Some?
    && forall k :: 0 <= k < |bins| && bins[k].Some? ==>
         AbsInt(c - mid) < AbsInt(k - mid) || (AbsInt(c - mid) == AbsInt(k - mid) && c <= k)
  }

  predicate Figures(w: Window, dl: real, s: Sample)
    requires w.n >= 1 && dl > 0.0
  {
    && s.dMi == Decimals(Middle(w, dl), 10000.0)
    && s.grad == Decimals(Gradient(w, dl), 10.0)
    && s.wMi == Decimals(Width(w, dl), 10000.0)
    && s.significant == w.significant
  }

  predicate Coordinates(bins: Bins, c: nat, s: Sample) {
    && c < |bins| && bins[c].Some?
    && s.lat == Decimals(bins[c].value.lat, 1000000.0) && s.lon == Decimals(bins[c].value.lon, 1000000.0)
  }

  ghost predicate Describes(bins: Bins, dl: real, w: Window, s: Sample)
    requires dl > 0.0
  {
    && w.n >= 1 && w.at + w.n < |bins| && Figures(w, dl, s)
    && exists c: nat :: NearestToMiddle(bins, w, c) && Coordinates(bins, c, s)
  }

  // ---------------------------------------------------------------- the code

  /** The outward search for coordinates. It cannot fail: at the latest it reaches the bin
      the window starts in. */
  method NearbyCoordinates(bins: Bins, at: nat, n: nat) returns (c: nat)
    requires n >= 1 && at + n < |bins| && bins[at].Some?
    ensures forall w: Window :: w.at == at && w.n == n ==> NearestToMiddle(bins, w, c)
  {
    var mid := at + n / 2;
    if bins[mid].Some? { return mid; }
    assert AbsInt(at - mid) == n / 2;
    for off := 1 to n
      invariant off <= n / 2 && forall k :: 0 <= k < |bins| && bins[k].Some? ==> AbsInt(k - mid) >= off
    {
      if mid - off >= 0 && bins[mid - off].Some? { return mid - off; }
      if mid + off < |bins| && bins[mid + off].Some? { return mid + off; }
    }
    assert false;
  }

  /** The search of one round: the shortest clearing length, else the longest one that ends
      in a bin with samples; 0 when there is none. */
  method Choose(bins: Bins, m: real, maxN: nat, i: nat) returns (significant: bool, chosenN: nat, chosenDrop: real)
    requires i + 1 < |bins| && bins[i].Some?
    ensures Next(bins, m, maxN, i) == if chosenN == 0 then None else Some(Window(i, chosenN, significant, chosenDrop))
  {
    hide Exceeds;
    significant, chosenN, chosenDrop := false, 0, 0.0;
    var n := 1;
    while n < Limit(bins, maxN, i)
      invariant n >= 1 && FirstClear(bins, m, maxN, i, 1) == FirstClear(bins, m, maxN, i, n)
    {
      var j := i + n;
      if bins[j].Some? {
        var drop := Drop(bins, i, j);
        if Exceeds(drop, m, Variance(bins, i, j)) {
          return true, n, drop;
        }
      }
      n := n + 1;
    }
    n := MinNat(maxN, |bins| - 1 - i);
    var j := i + n;
    while j > i && bins[j].None?
      invariant i <= j < |bins| && LastSampled(bins, i, n) == LastSampled(bins, i, j - i)
    {
      j := j - 1;
    }
    if j > i {
      chosenN := j - i;
      chosenDrop := MaxReal(0.0, Drop(bins, i, j));
    }
  }

  method Row(bins: Bins, dl: real, w: Window) returns (s: Sample)
    requires w.n >= 1 && w.at + w.n < |bins| && bins[w.at].Some? && dl > 0.0
    ensures Describes(bins, dl, w, s)
  {
    hide Decimals, Gradient, NearestToMiddle;
    var grad := Gradient(w, dl);
    var c := NearbyCoordinates(bins, w.at, w.n);
    InTheWindow(bins, w, c);
    s := Sample(Decimals(Middle(w, dl), 10000.0),
                Decimals(bins[c].value.lat, 1000000.0), Decimals(bins[c].value.lon, 1000000.0),
                Decimals(grad, 10.0), Decimals(Width(w, dl), 10000.0), w.significant);
    assert Figures(w, dl, s) && Coordinates(bins, c, s);
  }

  lemma InTheWindow(bins: Bins, w: Window, c: nat)
    requires w.at + w.n < |bins| && NearestToMiddle(bins, w, c)
    ensures c < |bins| && bins[c].Some?
  {
  }

  method WalkBins(bins: Bins, m: real, maxN: nat, dl: real) returns (samples: seq<Sample>)
    requires dl > 0.0 && maxN >= 1
    ensures Profiled(bins, m, maxN, dl, samples)
  {
    hide *;
    samples := [];
    ghost var windows: seq<Window> := [];
    var nBins := |bins|;
    var i := 0;
    NoRows(bins, dl);
    while i < nBins - 1
      invariant 0 <= i
      invariant windows + Walk(bins, m, maxN, i) == Walk(bins, m, maxN, 0)
      invariant Rows(bins, dl, windows, samples)
    {
      WalkStep(bins, m, maxN, i);
      if bins[i].None? {
        i := i + 1;
        continue;
      }
      var significant, chosenN, chosenDrop := Choose(bins, m, maxN, i);
      if chosenN == 0 {
        AllRows(bins, m, maxN, dl, windows, samples);
        return;
      }
      var w := Window(i, chosenN, significant, chosenDrop);
      WindowFits(bins, m, maxN, w);
      var s := Row(bins, dl, w);
      OneMoreRow(bins, dl, windows, samples, w, s);
      assert windows + ([w] + Walk(bins, m, maxN, i + chosenN)) == (windows + [w]) + Walk(bins, m, maxN, i + chosenN);
      samples := samples + [s];
      windows := windows + [w];
      i := i + chosenN;
    }
    WalkEnd(bins, m, maxN, i);
    AllRows(bins, m, maxN, dl, windows, samples);
  }

  ghost predicate Rows(bins: Bins, dl: real, windows: seq<Window>, samples: seq<Sample>)
    requires dl > 0.0
  {
    |samples| == |windows| && forall k :: 0 <= k < |windows| ==> Describes(bins, dl, windows[k], samples[k])
  }

  lemma NoRows(bins: Bins, dl: real)
    requires dl > 0.0
    ensures Rows(bins, dl, [], [])
  {
  }

  lemma OneMoreRow(bins: Bins, dl: real, windows: seq<Window>, samples: seq<Sample>, w: Window, s: Sample)
    requires dl > 0.0 && Rows(bins, dl, windows, samples) && Describes(bins, dl, w, s)
    ensures Rows(bins, dl, windows + [w], samples + [s])
  {
    hide Describes;
  }

  lemma AllRows(bins: Bins, m: real, maxN: nat, dl: real, windows: seq<Window>, samples: seq<Sample>)
    requires dl > 0.0 && Rows(bins, dl, windows, samples) && windows + [] == Walk(bins, m, maxN, 0)
    ensures Profiled(bins, m, maxN, dl, samples)
  {
    hide Describes, Walk;
    assert windows + [] == windows;
  }

  lemma WindowFits(bins: Bins, m: real, maxN: nat, w: Window)
    requires w.at + 1 < |bins| && bins[w.at].Some? && Next(bins, m, maxN, w.at) == Some(w)
    ensures w.n >= 1 && w.at + w.n < |bins|
  {
  }

  /** One row for each window of the walk, in order. */
  ghost predicate Profiled(bins: Bins, m: real, maxN: nat, dl: real, samples: seq<Sample>)
    requires dl > 0.0
  {
    Rows(bins, dl, Walk(bins, m, maxN, 0), samples)
  }

  lemma WalkStep(bins: Bins, m: real, maxN: nat, i: nat)
    requires i + 1 < |bins|
    ensures Walk(bins, m, maxN, i) ==
            if bins[i].None? then Walk(bins, m, maxN, i + 1)
            else if Next(bins, m, maxN, i).None? then []
            else [Next(bins, m, maxN, i).value] + Walk(bins, m, maxN, i + Next(bins, m, maxN, i).value.n)
  {
  }

  lemma WalkEnd(bins: Bins, m: real, maxN: nat, i: nat)
    requires i + 1 >= |bins|
    ensures Walk(bins, m, maxN, i) == []
  {
  }

  // ---------------------------------------------------------------- what the windows are

  /** Where a window ends. */
  function End(w: Window): nat {
    w.at + w.n
  }

  /** The window is the one the walk takes from its start. */
  predicate Taken(bins: Bins, m: real, maxN: nat, w: Window) {
    w.at + 1 < |bins| && bins[w.at].Some? && Next(bins, m, maxN, w.at) == Some(w)
  }

  /** Each window starts in the bin where the one before ended. */
  predicate Linked(ws: seq<Window>) {
    forall k :: 0 < k < |ws| ==> ws[k].at == End(ws[k - 1])
  }

  function FirstSampled(bins: Bins, i: nat): (f: nat)
    ensures i <= f
    ensures f < |bins| ==> bins[f].Some?
    ensures forall k :: i <= k < f && k < |bins| ==> bins[k].None?
    decreases |bins| - i
  {
    if i >= |bins| || bins[i].Some? then i else FirstSampled(bins, i + 1)
  }

  /** The windows form a chain that starts in the first bin with samples. */
  lemma {:induction false} WalkIsChain(bins: Bins, m: real, maxN: nat, i: nat)
    ensures var ws := Walk(bins, m, maxN, i); Linked(ws) && (ws != [] ==> ws[0].at == FirstSampled(bins, i))
    ensures forall k :: 0 <= k < |Walk(bins, m, maxN, i)| ==> Taken(bins, m, maxN, Walk(bins, m, maxN, i)[k])
    decreases |bins| - i
  {
    hide Walk, Next;
    if i + 1 >= |bins| {
      WalkEnd(bins, m, maxN, i);
    } else {
      WalkStep(bins, m, maxN, i);
      if bins[i].None? {
        WalkIsChain(bins, m, maxN, i + 1);
      } else if Next(bins, m, maxN, i).Some? {
        var w := Next(bins, m, maxN, i).value;
        WalkIsChain(bins, m, maxN, End(w));
        assert Taken(bins, m, maxN, w);
        assert FirstSampled(bins, End(w)) == End(w);
      }
    }
  }

  /** Both ends of a window have samples; a significant one is the shortest whose drop clears
      the noise, one that is not was taken because no length tried clears it, and then it is
      the longest of at most maxN bins that ends in samples. */
  lemma WindowIsMinimal(bins: Bins, m: real, maxN: nat, w: Window)
    requires Taken(bins, m, maxN, w)
    ensures 1 <= w.n <= maxN && End(w) < |bins| && bins[w.at].Some? && bins[End(w)].Some?
    ensures w.significant ==> Clears(bins, m, w.at, w.n) && w.n < maxN && w.drop == Drop(bins, w.at, End(w))
    ensures w.significant ==> forall n :: 1 <= n < w.n ==> !Clears(bins, m, w.at, n)
    ensures !w.significant ==> w.drop == MaxReal(0.0, Drop(bins, w.at, End(w)))
    ensures !w.significant ==> forall n :: 1 <= n < maxN && w.at + n < |bins| ==> !Clears(bins, m, w.at, n)
    ensures !w.significant ==> forall j :: End(w) < j <= w.at + maxN && j < |bins| ==> bins[j].None?
  {
    hide Clears, Drop;
    var n := FirstClear(bins, m, maxN, w.at, 1);
  }

  /** A window of the full maxN bins is never reported as significant, however steep: with a
      search limited to one bin nothing ever is. */
  lemma FullLengthNeverSignificant() returns (bins: Bins, w: Window)
    ensures Taken(bins, 3.0, 1, w) && !w.significant && Clears(bins, 3.0, w.at, w.n)
  {
    bins := [Some(Bin(900.0, 1.0, 44.0, -122.0)), Some(Bin(100.0, 1.0, 44.1, -122.0))];
    w := Window(0, 1, false, 800.0);
    assert FirstClear(bins, 3.0, 1, 0, 1) == None;
    assert LastSampled(bins, 0, 1) == 1;
  }

  // ---------------------------------------------------------------- where the walk stops

  /** The bin the walk stands in at the end. */
  function LastStop(bins: Bins, ws: seq<Window>): nat {
    if ws == [] then FirstSampled(bins, 0) else End(ws[|ws| - 1])
  }

  lemma {:induction false} StopsAtEmptyRun(bins: Bins, m: real, maxN: nat, i: nat, j: nat)
    requires FirstSampled(bins, i) < |bins|
    requires var ws := Walk(bins, m, maxN, i);
             var e := if ws == [] then FirstSampled(bins, i) else End(ws[|ws| - 1]);
             e < j <= e + maxN && j < |bins|
    ensures bins[j].None?
    decreases |bins| - i
  {
    hide Walk, Clears;
    if i + 1 < |bins| {
      WalkStep(bins, m, maxN, i);
      if bins[i].None? {
        StopsAtEmptyRun(bins, m, maxN, i + 1, j);
      } else if Next(bins, m, maxN, i).Some? {
        var w := Next(bins, m, maxN, i).value;
        var rest := Walk(bins, m, maxN, End(w));
        assert FirstSampled(bins, End(w)) == End(w);
        StopsAtEmptyRun(bins, m, maxN, End(w), j);
      }
    } else {
      WalkEnd(bins, m, maxN, i);
    }
  }

  /** maxN empty bins in a row between bins with samples. */
  predicate EmptyRunAfter(bins: Bins, maxN: nat, r: nat) {
    r + maxN < |bins| && FirstSampled(bins, 0) <= r && FirstSampled(bins, r + maxN + 1) < |bins|
    && forall j :: r < j <= r + maxN ==> bins[j].None?
  }

  lemma {:induction false} NeverCrosses(bins: Bins, m: real, maxN: nat, i: nat, r: nat, k: nat)
    requires EmptyRunAfter(bins, maxN, r) && FirstSampled(bins, i) <= r && k < |Walk(bins, m, maxN, i)|
    ensures End(Walk(bins, m, maxN, i)[k]) <= r
    decreases |bins| - i
  {
    hide Walk, Clears;
    if i + 1 >= |bins| {
      WalkEnd(bins, m, maxN, i);
    } else {
      WalkStep(bins, m, maxN, i);
      if bins[i].None? {
        NeverCrosses(bins, m, maxN, i + 1, r, k);
      } else {
        var w := Next(bins, m, maxN, i).value;
        WindowIsMinimal(bins, m, maxN, w);
        assert End(w) <= r;
        assert FirstSampled(bins, End(w)) == End(w);
        if k > 0 { NeverCrosses(bins, m, maxN, End(w), r, k - 1); }
      }
    }
  }

  /** Exactly when the profile ends before the last bin with samples: at least maxN bins in
      a row between samples are empty. */
  lemma StopsShortIff(bins: Bins, m: real, maxN: nat)
    requires FirstSampled(bins, 0) < |bins| && maxN >= 1
    ensures SamplesBeyond(bins, LastStop(bins, Walk(bins, m, maxN, 0))) <==> exists r: nat :: EmptyRunAfter(bins, maxN, r)
  {
    hide *;
    var e := LastStop(bins, Walk(bins, m, maxN, 0));
    if SamplesBeyond(bins, e) { RunWhereItStops(bins, m, maxN); }
    if r: nat :| EmptyRunAfter(bins, maxN, r) { StopsBeforeRun(bins, m, maxN, r); }
  }

  predicate SamplesBeyond(bins: Bins, e: nat) {
    exists j :: e < j < |bins| && bins[j].Some?
  }

  lemma RunWhereItStops(bins: Bins, m: real, maxN: nat)
    requires FirstSampled(bins, 0) < |bins| && maxN >= 1
    requires SamplesBeyond(bins, LastStop(bins, Walk(bins, m, maxN, 0)))
    ensures EmptyRunAfter(bins, maxN, LastStop(bins, Walk(bins, m, maxN, 0)))
  {
    hide Walk, Clears, Next;
    var ws := Walk(bins, m, maxN, 0);
    var e := LastStop(bins, ws);
    StopsAfterStart(bins, m, maxN);
    forall t | e < t <= e + maxN && t < |bins| ensures bins[t].None? {
      StopsAtEmptyRun(bins, m, maxN, 0, t);
    }
    var j :| e < j < |bins| && bins[j].Some?;
    assert FirstSampled(bins, e + maxN + 1) <= j;
  }

  lemma StopsAfterStart(bins: Bins, m: real, maxN: nat)
    ensures LastStop(bins, Walk(bins, m, maxN, 0)) >= FirstSampled(bins, 0)
  {
    hide Walk, Taken, FirstSampled;
    WalkIsChain(bins, m, maxN, 0);
    var ws := Walk(bins, m, maxN, 0);
    if ws != [] { StopIsLater(ws); }
  }

  lemma StopsBeforeRun(bins: Bins, m: real, maxN: nat, r: nat)
    requires maxN >= 1 && EmptyRunAfter(bins, maxN, r)
    ensures SamplesBeyond(bins, LastStop(bins, Walk(bins, m, maxN, 0)))
  {
    hide Walk;
    var ws := Walk(bins, m, maxN, 0);
    if ws != [] { NeverCrosses(bins, m, maxN, 0, r, |ws| - 1); }
    var j := FirstSampled(bins, r + maxN + 1);
    assert LastStop(bins, ws) < j < |bins| && bins[j].Some?;
  }

  /** The walk never stands before its first window. */
  lemma {:induction false} StopIsLater(ws: seq<Window>)
    requires ws != [] && Linked(ws)
    ensures End(ws[|ws| - 1]) >= ws[0].at
  {
    if |ws| > 1 {
      var front := ws[..|ws| - 1];
      assert Linked(front);
      StopIsLater(front);
    }
  }

  // ---------------------------------------------------------------- conservation of the drop

  /** Gradient times width, summed: the drop the profile shows. */
  function ShownDrop(ws: seq<Window>, dl: real): real
    requires dl > 0.0 && forall k :: 0 <= k < |ws| ==> ws[k].n >= 1
  {
    if ws == [] then 0.0
    else ShownDrop(ws[..|ws| - 1], dl) + Gradient(ws[|ws| - 1], dl) * Width(ws[|ws| - 1], dl)
  }

  lemma GradientTimesWidth(w: Window, dl: real)
    requires w.n >= 1 && dl > 0.0
    ensures Gradient(w, dl) * Width(w, dl) == MaxReal(0.0, w.drop)
  {
    WidthPositive(w, dl);
    Quotient(w.drop, Width(w, dl));
  }

  lemma Quotient(x: real, y: real)
    requires y > 0.0
    ensures (x / y) * y == x && (x >= 0.0 <==> x / y >= 0.0)
  {
  }

  predicate EndsSampled(bins: Bins, w: Window) {
    w.n >= 1 && End(w) < |bins| && bins[w.at].Some? && bins[End(w)].Some?
  }

  /** The true drop between the window's ends, negative when it leads uphill. */
  function WindowDrop(bins: Bins, w: Window): real
    requires EndsSampled(bins, w)
  {
    Drop(bins, w.at, End(w))
  }

  ghost predicate Chain(bins: Bins, m: real, maxN: nat, ws: seq<Window>) {
    && Linked(ws)
    && (forall k :: 0 <= k < |ws| ==> EndsSampled(bins, ws[k]))
    && (forall k :: 0 <= k < |ws| ==> Taken(bins, m, maxN, ws[k]))
  }

  lemma WalkChain(bins: Bins, m: real, maxN: nat)
    ensures Chain(bins, m, maxN, Walk(bins, m, maxN, 0))
  {
    hide Walk, Next;
    WalkIsChain(bins, m, maxN, 0);
    var ws := Walk(bins, m, maxN, 0);
    forall k | 0 <= k < |ws| ensures EndsSampled(bins, ws[k]) { WindowIsMinimal(bins, m, maxN, ws[k]); }
  }

  lemma ShownIsClamped(bins: Bins, m: real, maxN: nat, w: Window, dl: real)
    requires EndsSampled(bins, w) && Taken(bins, m, maxN, w) && dl > 0.0
    ensures Gradient(w, dl) * Width(w, dl) == MaxReal(0.0, WindowDrop(bins, w))
  {
    hide Taken, Gradient, Width, Drop;
    WindowIsMinimal(bins, m, maxN, w);
    GradientTimesWidth(w, dl);
  }

  /** From the first window's start to the last one's end. */
  function TrueDrop(bins: Bins, ws: seq<Window>): real
    requires ws != [] && EndsSampled(bins, ws[0]) && EndsSampled(bins, ws[|ws| - 1])
  {
    Drop(bins, ws[0].at, End(ws[|ws| - 1]))
  }

  lemma DropAdds(bins: Bins, ws: seq<Window>)
    requires |ws| > 1 && Linked(ws) && forall k :: 0 <= k < |ws| ==> EndsSampled(bins, ws[k])
    ensures var front := ws[..|ws| - 1];
            Linked(front) && EndsSampled(bins, front[0]) && EndsSampled(bins, front[|front| - 1])
            && TrueDrop(bins, ws) == TrueDrop(bins, front) + WindowDrop(bins, ws[|ws| - 1])
  {
    var front := ws[..|ws| - 1];
    assert front[0] == ws[0] && front[|front| - 1] == ws[|ws| - 2];
    assert ws[|ws| - 1].at == End(ws[|ws| - 2]);
  }

  predicate Downhill(bins: Bins, w: Window) {
    EndsSampled(bins, w) && WindowDrop(bins, w) >= 0.0
  }

  /** The shown drop is at least the true drop between the ends of the profile, and equals it
      exactly when no window leads uphill. */
  lemma {:induction false} DropConserved(bins: Bins, m: real, maxN: nat, ws: seq<Window>, dl: real)
    requires Chain(bins, m, maxN, ws) && ws != [] && dl > 0.0
    ensures ShownDrop(ws, dl) >= TrueDrop(bins, ws)
    ensures ShownDrop(ws, dl) == TrueDrop(bins, ws) <==> forall k :: 0 <= k < |ws| ==> Downhill(bins, ws[k])
  {
    hide Taken, Gradient, Width, WindowDrop, TrueDrop, EndsSampled;
    var w, front := ws[|ws| - 1], ws[..|ws| - 1];
    ShownIsClamped(bins, m, maxN, w, dl);
    if front == [] {
      assert ShownDrop(front, dl) == 0.0;
      OneWindow(bins, ws);
    } else {
      DropAdds(bins, ws);
      assert forall k :: 0 <= k < |front| ==> front[k] == ws[k];
      DropConserved(bins, m, maxN, front, dl);
    }
  }

  lemma OneWindow(bins: Bins, ws: seq<Window>)
    requires |ws| == 1 && EndsSampled(bins, ws[0])
    ensures TrueDrop(bins, ws) == WindowDrop(bins, ws[0])
  {
  }

  /** With a non-negative threshold only windows that are not significant can lead uphill. */
  lemma UphillIsInsignificant(bins: Bins, m: real, maxN: nat, w: Window)
    requires Taken(bins, m, maxN, w) && m >= 0.0
    ensures EndsSampled(bins, w) && (!Downhill(bins, w) ==> !w.significant && w.drop == 0.0)
  {
    WindowIsMinimal(bins, m, maxN, w);
  }

  /** For the profile of any bins: what it shows is at least the true drop between its ends,
      and exactly that if and only if no window leads uphill. */
  lemma ProfileConservesDrop(bins: Bins, m: real, maxN: nat, dl: real)
    requires dl > 0.0 && Walk(bins, m, maxN, 0) != []
    ensures var ws := Walk(bins, m, maxN, 0);
            && Chain(bins, m, maxN, ws)
            && ShownDrop(ws, dl) >= TrueDrop(bins, ws)
            && (ShownDrop(ws, dl) == TrueDrop(bins, ws) <==> forall k :: 0 <= k < |ws| ==> Downhill(bins, ws[k]))
  {
    hide Walk, Downhill, TrueDrop, Taken;
    WalkChain(bins, m, maxN);
    DropConserved(bins, m, maxN, Walk(bins, m, maxN, 0), dl);
  }
}
