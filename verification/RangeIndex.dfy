/** Sorted-interval lookup of addresses in published network lists
    (ip_reputation.py, privacy_relays.py). */
module RangeIndex {
  import opened Common

  /** A listed network as an address interval; `tag` is the row's payload. */
  datatype Range = Range(lo: int, hi: int, tag: seq<string>)

  /** A row that parsed: address family, address, number of host bits (RFC 4632,
      section 3.1), payload. Comments, blanks and unparsable rows are None. */
  datatype Net = Net(v6: bool, address: nat, hostBits: nat, tag: seq<string>)

  /** ip_network(..., strict=False): host bits of the address are cleared. */
  function RangeOf(n: Net): (r: Range)
    ensures r.lo <= n.address <= r.hi
  {
    var size := Pow2(n.hostBits);
    Range(size * (n.address / size), size * (n.address / size) + size - 1, n.tag)
  }

  predicate Covers(r: Range, x: int) {
    r.lo <= x <= r.hi
  }

  /** Tuple order on the first two fields. */
  predicate NotAfter(a: Range, b: Range) {
    a.lo < b.lo || (a.lo == b.lo && a.hi <= b.hi)
  }

  predicate Sorted(rs: seq<Range>) {
    forall i, j :: 0 <= i < j < |rs| ==> NotAfter(rs[i], rs[j])
  }

  /** An aligned power-of-two block. */
  ghost predicate IsBlock(r: Range) {
    exists k, q :: BlockAt(r, k, q)
  }

  predicate BlockAt(r: Range, k: nat, q: int) {
    r.lo == Pow2(k) * q && r.hi == r.lo + Pow2(k) - 1
  }

  lemma RangeIsBlock(n: Net)
    ensures IsBlock(RangeOf(n))
  {
    assert BlockAt(RangeOf(n), n.hostBits, n.address / Pow2(n.hostBits));
  }

  /** The range of a network is the one aligned block of 2^hostBits addresses that contains
      the address it was written with. */
  lemma RangeIsTheBlock(n: Net, r: Range)
    ensures r == RangeOf(n) <==> r.tag == n.tag && Covers(r, n.address) && exists q :: BlockAt(r, n.hostBits, q)
  {
    var size := Pow2(n.hostBits);
    assert BlockAt(RangeOf(n), n.hostBits, n.address / size);
    if q :| BlockAt(r, n.hostBits, q) && Covers(r, n.address) {
      SameQuotient(n.address, size, q);
    }
  }

  lemma SameQuotient(x: nat, size: nat, q: int)
    requires size > 0 && size * q <= x <= size * q + size - 1
    ensures x / size == q
  {
    var p := x / size;
    assert size * p <= x < size * p + size;
    assert size * (p + 1) == size * p + size && size * (q + 1) == size * q + size;
    if p < q { MulLe(size, p + 1, q); } else if q < p { MulLe(size, q + 1, p); }
  }

  lemma {:induction false} Pow2Splits(k: nat, n: nat) returns (m: nat)
    requires k <= n
    ensures m >= 1 && Pow2(n) == Pow2(k) * m
    decreases n - k
  {
    if k == n {
      m := 1;
    } else {
      var h := Pow2Splits(k + 1, n);
      m := 2 * h;
      assert Pow2(k) * (2 * h) == 2 * Pow2(k) * h;
    }
  }

  lemma MulLe(a: nat, p: int, q: int)
    requires p <= q
    ensures a * p <= a * q
  {
    assert a * (q - p) >= 0;
    assert a * (q - p) == a * q - a * p;
  }

  /** Steps of one size: p is before x, at or after x + m, or in between. */
  lemma StepsOf(size: nat, p: int, x: int, m: int)
    ensures p < x ==> size * p + size <= size * x
    ensures p >= x + m ==> size * x + size * m <= size * p
    ensures x <= p < x + m ==> size * x <= size * p && size * p + size <= size * x + size * m
  {
    assert size * (p + 1) == size * p + size && size * (x + m) == size * x + size * m;
    if p < x { MulLe(size, p + 1, x); }
    if p >= x + m { MulLe(size, x + m, p); }
    if x <= p < x + m {
      MulLe(size, x, p);
      MulLe(size, p + 1, x + m);
    }
  }

  lemma Regroup(a: int, b: int, c: int)
    ensures (a * b) * c == a * (b * c)
  {
  }

  /** A small block lies inside a big one, before it or after it. */
  lemma SmallInBig(a: Range, k: nat, p: int, b: Range, n: nat, q: int)
    requires k <= n && BlockAt(a, k, p) && BlockAt(b, n, q)
    ensures a.hi < b.lo || b.hi < a.lo || (b.lo <= a.lo && a.hi <= b.hi)
  {
    var size := Pow2(k);
    var m := Pow2Splits(k, n);
    Regroup(size, m, q);
    var x := m * q;
    StepsOf(size, p, x, m);
    assert b.lo == size * x;
  }

  /** Any two networks are nested or disjoint. */
  lemma NestedOrDisjoint(a: Range, b: Range)
    requires IsBlock(a) && IsBlock(b)
    ensures a.hi < b.lo || b.hi < a.lo || (b.lo <= a.lo && a.hi <= b.hi) || (a.lo <= b.lo && b.hi <= a.hi)
  {
    var k, p :| BlockAt(a, k, p);
    var n, q :| BlockAt(b, n, q);
    if k <= n { SmallInBig(a, k, p, b, n, q); } else { SmallInBig(b, n, q, a, k, p); }
  }

  // ---------------------------------------------------------------- building the index

  function Insert(r: Range, rs: seq<Range>): (ins: seq<Range>)
    ensures forall x :: x in ins <==> x == r || x in rs
  {
    if rs == [] || NotAfter(r, rs[0]) then [r] + rs
    else
      assert rs == [rs[0]] + rs[1..];
      [rs[0]] + Insert(r, rs[1..])
  }

  lemma {:induction false} InsertKeeps(r: Range, rs: seq<Range>)
    ensures multiset(Insert(r, rs)) == multiset(rs) + multiset{r}
  {
    if rs != [] && !NotAfter(r, rs[0]) {
      InsertKeeps(r, rs[1..]);
      assert rs == [rs[0]] + rs[1..];
    }
  }

  lemma SortedHead(h: Range, rs: seq<Range>)
    requires Sorted(rs) && forall x :: x in rs ==> NotAfter(h, x)
    ensures Sorted([h] + rs)
  {
    hide NotAfter;
    forall i, j | 0 <= i < j < |rs| + 1 ensures NotAfter(([h] + rs)[i], ([h] + rs)[j]) {
      assert ([h] + rs)[j] == rs[j - 1] && rs[j - 1] in rs;
      if i > 0 { assert ([h] + rs)[i] == rs[i - 1]; }
    }
  }

  lemma {:induction false} InsertSorts(r: Range, rs: seq<Range>)
    requires Sorted(rs)
    ensures Sorted(Insert(r, rs))
  {
    if rs != [] {
      var tail := rs[1..];
      assert Sorted(tail);
      forall x | x in tail ensures NotAfter(rs[0], x) {
        var i :| 0 <= i < |tail| && tail[i] == x;
        assert rs[i + 1] == x;
      }
      if NotAfter(r, rs[0]) {
        forall x | x in rs ensures NotAfter(r, x) { if x != rs[0] { assert rs == [rs[0]] + tail; } }
        SortedHead(r, rs);
      } else {
        InsertSorts(r, tail);
        SortedHead(rs[0], Insert(r, tail));
      }
    }
  }

  method SortRanges(rs: seq<Range>) returns (out: seq<Range>)
    ensures Sorted(out) && multiset(out) == multiset(rs)
  {
    out := [];
    var i := 0;
    while i < |rs|
      invariant 0 <= i <= |rs|
      invariant Sorted(out) && multiset(out) == multiset(rs[..i])
    {
      InsertSorts(rs[i], out);
      InsertKeeps(rs[i], out);
      out := Insert(rs[i], out);
      assert rs[..i + 1] == rs[..i] + [rs[i]];
      i := i + 1;
    }
    assert rs[..i] == rs;
  }

  /** The networks of one family, in file order. */
  function OfFamily(rows: seq<Option<Net>>, v6: bool): seq<Range> {
    if rows == [] then []
    else
      var front := OfFamily(rows[..|rows| - 1], v6);
      var row := rows[|rows| - 1];
      if row.Some? && row.value.v6 == v6 then front + [RangeOf(row.value)] else front
  }

  lemma {:induction false} FamilyBlocks(rows: seq<Option<Net>>, v6: bool)
    ensures forall r :: r in OfFamily(rows, v6) ==> IsBlock(r)
  {
    if rows != [] {
      FamilyBlocks(rows[..|rows| - 1], v6);
      var row := rows[|rows| - 1];
      if row.Some? { RangeIsBlock(row.value); }
    }
  }

  /** The parse loop: skip what is not a network, split by family, sort. */
  method ParseRanges(rows: seq<Option<Net>>) returns (v4: seq<Range>, v6: seq<Range>)
    ensures Sorted(v4) && multiset(v4) == multiset(OfFamily(rows, false))
    ensures Sorted(v6) && multiset(v6) == multiset(OfFamily(rows, true))
  {
    v4, v6 := [], [];
    var i := 0;
    while i < |rows|
      invariant 0 <= i <= |rows|
      invariant v4 == OfFamily(rows[..i], false) && v6 == OfFamily(rows[..i], true)
    {
      assert rows[..i + 1][..i] == rows[..i];
      if rows[i].Some? {
        var entry := RangeOf(rows[i].value);
        if rows[i].value.v6 { v6 := v6 + [entry]; } else { v4 := v4 + [entry]; }
      }
      i := i + 1;
    }
    assert rows[..i] == rows;
    v4 := SortRanges(v4);
    v6 := SortRanges(v6);
  }

  // ---------------------------------------------------------------- lookup

  function Los(rs: seq<Range>): (los: seq<int>)
    ensures |los| == |rs|
  {
    seq(|rs|, i requires 0 <= i < |rs| => rs[i].lo)
  }

  /** bisect.bisect_right. */
  method BisectRight(a: seq<int>, x: int) returns (idx: nat)
    requires forall i, j :: 0 <= i < j < |a| ==> a[i] <= a[j]
    ensures idx <= |a|
    ensures forall i :: 0 <= i < idx ==> a[i] <= x
    ensures forall i :: idx <= i < |a| ==> x < a[i]
  {
    var lo, hi := 0, |a|;
    while lo < hi
      invariant 0 <= lo <= hi <= |a|
      invariant forall i :: 0 <= i < lo ==> a[i] <= x
      invariant forall i :: hi <= i < |a| ==> x < a[i]
    {
      var mid := (lo + hi) / 2;
      if x < a[mid] { hi := mid; } else { lo := mid + 1; }
    }
    idx := lo;
  }

  /** The number of ranges that start at or before x. */
  function Rank(rs: seq<Range>, x: int): (n: nat)
    requires Sorted(rs)
    ensures n <= |rs| && forall i :: 0 <= i < |rs| ==> (i < n <==> rs[i].lo <= x)
  {
    if rs == [] then 0
    else
      var n := Rank(rs[..|rs| - 1], x);
      if rs[|rs| - 1].lo <= x then |rs| else n
  }

  lemma RankUnique(rs: seq<Range>, x: int, n: nat)
    requires Sorted(rs) && n <= |rs| && forall i :: 0 <= i < |rs| ==> (i < n <==> rs[i].lo <= x)
    ensures n == Rank(rs, x)
  {
    var m := Rank(rs, x);
    assert m < |rs| ==> (m < n <==> rs[m].lo <= x);
    assert n < |rs| ==> (n < m <==> rs[n].lo <= x);
  }

  /** Only the last range starting at or before x is looked at. */
  function Found(rs: seq<Range>, x: int): Option<Range>
    requires Sorted(rs)
  {
    var n := Rank(rs, x);
    if n > 0 && Covers(rs[n - 1], x) then Some(rs[n - 1]) else None
  }

  /** The list scanned from end to end. */
  ghost predicate Covered(rs: seq<Range>, x: int) {
    exists r :: r in rs && Covers(r, x)
  }

  /** A hit always names a listed network that contains the address. */
  lemma HitIsListed(rs: seq<Range>, x: int)
    requires Sorted(rs) && Found(rs, x).Some?
    ensures Found(rs, x).value in rs && Covers(Found(rs, x).value, x) && Covered(rs, x)
  {
  }

  ghost predicate StartsAt(rs: seq<Range>, x: int) {
    exists r :: r in rs && r.lo == x
  }

  /** The index answers exactly as the scan does. */
  ghost predicate Complete(rs: seq<Range>) {
    Sorted(rs) && forall x :: Covered(rs, x) ==> Found(rs, x).Some?
  }

  /** What can be checked on the list: right after the longest network at each start,
      either nothing is listed or another network begins. */
  ghost predicate NoGapAfter(rs: seq<Range>) {
    forall i :: 0 <= i < |rs| ==> !GapAfter(rs, i)
  }

  ghost predicate GapAfter(rs: seq<Range>, i: nat)
    requires i < |rs|
  {
    && LongestAtStart(rs, i)
    && Covered(rs, rs[i].hi + 1) && !StartsAt(rs, rs[i].hi + 1)
  }

  predicate LongestAtStart(rs: seq<Range>, i: nat)
    requires i < |rs|
  {
    forall k :: 0 <= k < |rs| && rs[k].lo == rs[i].lo ==> rs[k].hi <= rs[i].hi
  }

  lemma InOrder(rs: seq<Range>, i: nat, j: nat)
    requires Sorted(rs) && i <= j < |rs|
    ensures NotAfter(rs[i], rs[j])
  {
  }

  lemma NonEmptyBlock(r: Range)
    requires IsBlock(r)
    ensures r.lo <= r.hi
  {
  }

  /** A missed address lies beyond the range the index looked at, and then so does the
      first address after that range, at which nothing begins. */
  lemma MissShowsGap(rs: seq<Range>, x: int) returns (i: nat)
    requires Sorted(rs) && (forall r :: r in rs ==> IsBlock(r)) && Covered(rs, x) && Found(rs, x).None?
    ensures i < |rs| && GapAfter(rs, i)
  {
    var r :| r in rs && Covers(r, x);
    var j :| 0 <= j < |rs| && rs[j] == r;
    var n := Rank(rs, x);
    assert j < n;
    i := n - 1;
    var c := rs[i];
    assert c in rs && c.lo <= x;
    InOrder(rs, j, i);
    NestedOrDisjoint(r, c);
    NonEmptyBlock(c);
    assert Covers(r, c.hi + 1);
    forall k | 0 <= k < |rs| && rs[k].lo == c.lo ensures rs[k].hi <= c.hi {
      assert k <= i;
      InOrder(rs, k, i);
    }
    forall k | 0 <= k < |rs| ensures rs[k].lo != c.hi + 1 {
      if k <= i { InOrder(rs, k, i); } else { assert x < rs[k].lo; }
    }
  }

  /** A gap after a range is an address that is covered and missed. */
  lemma GapIsMissed(rs: seq<Range>, i: nat)
    requires Sorted(rs) && (forall r :: r in rs ==> IsBlock(r))
    requires i < |rs| && GapAfter(rs, i)
    ensures Found(rs, rs[i].hi + 1).None?
  {
    var c, x := rs[i], rs[i].hi + 1;
    assert c in rs;
    NonEmptyBlock(c);
    var n := Rank(rs, x);
    assert i < n;
    var p := rs[n - 1];
    assert p in rs && p.lo <= x;
    InOrder(rs, i, n - 1);
    if c.lo < p.lo { NestedOrDisjoint(p, c); }
  }

  /** Exact condition: the index agrees with the scan at every address if and only if no
      range that is longest at its start is followed by covered space where nothing starts. */
  lemma CompleteIff(rs: seq<Range>)
    requires Sorted(rs) && forall r :: r in rs ==> IsBlock(r)
    ensures Complete(rs) <==> NoGapAfter(rs)
  {
    hide IsBlock, Covered, StartsAt, Found, GapAfter;
    if x :| Covered(rs, x) && Found(rs, x).None? {
      var i := MissShowsGap(rs, x);
    }
    if i :| 0 <= i < |rs| && GapAfter(rs, i) {
      GapIsMissed(rs, i);
      GapIsCovered(rs, i);
    }
  }

  lemma GapIsCovered(rs: seq<Range>, i: nat)
    requires i < |rs| && GapAfter(rs, i)
    ensures Covered(rs, rs[i].hi + 1)
  {
  }

  /** A block inside a bigger one hides the rest of the bigger one. */
  lemma NestedListMisses()
    ensures (var rs := [Range(0, 255, []), Range(16, 31, [])];
             Sorted(rs) && IsBlock(rs[0]) && IsBlock(rs[1]) && Covered(rs, 40) && Found(rs, 40) == None)
  {
    var rs := [Range(0, 255, []), Range(16, 31, [])];
    assert Pow2(3) == 8 && Pow2(4) == 16;
    assert Pow2(6) == 64 && Pow2(8) == 256;
    assert BlockAt(rs[0], 8, 0) && BlockAt(rs[1], 4, 1);
    assert rs[0] in rs && Covers(rs[0], 40);
    RankUnique(rs, 40, 2);
  }

  ghost predicate Inside(a: Range, b: Range) {
    b.lo <= a.lo && a.hi <= b.hi && (a.lo, a.hi) != (b.lo, b.hi)
  }

  lemma NextStarts(rs: seq<Range>, i: nat)
    requires i < |rs| && (forall r :: r in rs ==> IsBlock(r)) && Covered(rs, rs[i].hi + 1)
    requires forall a, b :: a in rs && b in rs ==> !Inside(a, b)
    ensures StartsAt(rs, rs[i].hi + 1)
  {
    hide IsBlock;
    var c := rs[i];
    var r :| r in rs && Covers(r, c.hi + 1);
    assert c in rs && !Inside(c, r) && !Inside(r, c);
    NestedOrDisjoint(r, c);
    NonEmptyBlock(c);
    assert r in rs && r.lo == c.hi + 1;
  }

  /** In particular a list without networks inside networks loses nothing. */
  lemma FlatListComplete(rs: seq<Range>)
    requires Sorted(rs) && forall r :: r in rs ==> IsBlock(r)
    requires forall a, b :: a in rs && b in rs ==> !Inside(a, b)
    ensures Complete(rs)
  {
    forall i | 0 <= i < |rs| ensures !GapAfter(rs, i) {
      if Covered(rs, rs[i].hi + 1) { NextStarts(rs, i); }
    }
    CompleteIff(rs);
  }

  // ---------------------------------------------------------------- from rows to answers

  /** Some row of the file names a network of this family that contains the address. */
  ghost predicate Listed(rows: seq<Option<Net>>, v6: bool, x: int) {
    exists n :: Some(n) in rows && n.v6 == v6 && Covers(RangeOf(n), x)
  }

  /** No listed network lies strictly inside another of its family. */
  ghost predicate Flat(rows: seq<Option<Net>>, v6: bool) {
    forall n, m :: Some(n) in rows && Some(m) in rows && n.v6 == v6 && m.v6 == v6 ==> !Inside(RangeOf(n), RangeOf(m))
  }

  /** The range, payload included, is that of some row of the file. */
  ghost predicate FromRow(rows: seq<Option<Net>>, v6: bool, r: Range) {
    exists n :: Some(n) in rows && n.v6 == v6 && RangeOf(n) == r
  }

  lemma {:induction false} InFamily(rows: seq<Option<Net>>, v6: bool, r: Range)
    ensures r in OfFamily(rows, v6) <==> FromRow(rows, v6, r)
  {
    if rows != [] {
      var init, row := rows[..|rows| - 1], rows[|rows| - 1];
      InFamily(init, v6, r);
      assert rows == init + [row];
      if row.Some? && row.value.v6 == v6 && RangeOf(row.value) == r {
        assert Some(row.value) in rows;
      }
    }
  }

  /** The module-level tables of one process: filled once, then only read. */
  class Index {
    var loaded: bool
    var v4: seq<Range>
    var v6: seq<Range>
    var v4Los: seq<int>
    var v6Los: seq<int>

    ghost predicate Valid()
      reads this
    {
      Sorted(v4) && Sorted(v6) && v4Los == Los(v4) && v6Los == Los(v6)
    }

    /** The tables hold exactly the networks of these rows. */
    ghost predicate Holds(rows: seq<Option<Net>>)
      reads this
    {
      multiset(v4) == multiset(OfFamily(rows, false)) && multiset(v6) == multiset(OfFamily(rows, true))
    }

    constructor ()
      ensures Valid() && !loaded && Holds([])
    {
      loaded := false;
      v4, v6, v4Los, v6Los := [], [], [], [];
    }

    /** `body` is the list's text as parsed rows, None when neither disk nor network had it. */
    method EnsureLoaded(body: Option<seq<Option<Net>>>)
      requires Valid()
      modifies this
      ensures Valid() && loaded
      ensures old(loaded) ==> v4 == old(v4) && v6 == old(v6)
      ensures !old(loaded) ==> Holds(if body.Some? then body.value else [])
    {
      if loaded { return; }
      loaded := true;
      if body.None? {
        v4, v6, v4Los, v6Los := [], [], [], [];
        return;
      }
      v4, v6 := ParseRanges(body.value);
      v4Los, v6Los := Los(v4), Los(v6);
    }

    /** `address` is None for text that is not an address. */
    method Find(address: Option<(bool, int)>) returns (r: Option<Range>)
      requires Valid()
      ensures address.None? ==> r.None?
      ensures address.Some? ==> r == Found(if address.value.0 then v6 else v4, address.value.1)
    {
      if address.None? { return None; }
      var ranges, los := if address.value.0 then v6 else v4, if address.value.0 then v6Los else v4Los;
      if ranges == [] { return None; }
      assert forall i :: 0 <= i < |ranges| ==> los[i] == ranges[i].lo;
      var idx := BisectRight(los, address.value.1);
      RankUnique(ranges, address.value.1, idx);
      if idx == 0 { return None; }
      var c := ranges[idx - 1];
      return if Covers(c, address.value.1) then Some(c) else None;
    }
  }

  lemma SameElements(s: seq<Range>, t: seq<Range>)
    requires multiset(s) == multiset(t)
    ensures forall r :: r in s <==> r in t
  {
    forall r ensures r in s <==> r in t {
      assert r in s <==> r in multiset(s);
      assert r in t <==> r in multiset(t);
    }
  }

  lemma ListedIsCovered(rows: seq<Option<Net>>, v6: bool, rs: seq<Range>, x: int)
    requires multiset(rs) == multiset(OfFamily(rows, v6))
    ensures Covered(rs, x) <==> Listed(rows, v6, x)
  {
    SameElements(rs, OfFamily(rows, v6));
    if Covered(rs, x) {
      var r :| r in rs && Covers(r, x);
      InFamily(rows, v6, r);
    }
    if Listed(rows, v6, x) {
      var n :| Some(n) in rows && n.v6 == v6 && Covers(RangeOf(n), x);
      InFamily(rows, v6, RangeOf(n));
      assert RangeOf(n) in rs;
    }
  }

  /** The table built from any file, asked about any address: a hit is a listed network
      containing it; on a list without nesting a listed address is never missed. */
  lemma {:induction false} LookupIsScan(rows: seq<Option<Net>>, v6: bool, rs: seq<Range>, x: int)
    requires Sorted(rs) && multiset(rs) == multiset(OfFamily(rows, v6))
    ensures Found(rs, x).Some? ==> FromRow(rows, v6, Found(rs, x).value) && Covers(Found(rs, x).value, x)
    ensures Found(rs, x).Some? ==> Listed(rows, v6, x)
    ensures Flat(rows, v6) ==> (Found(rs, x).Some? <==> Listed(rows, v6, x))
  {
    hide Found, Covered, Listed, RangeOf, IsBlock, Inside, Covers;
    ListedIsCovered(rows, v6, rs, x);
    if Found(rs, x).Some? {
      HitIsListed(rs, x);
      InFamily(rows, v6, Found(rs, x).value);
    }
    SameElements(rs, OfFamily(rows, v6));
    FamilyBlocks(rows, v6);
    if Flat(rows, v6) {
      forall a, b | a in rs && b in rs ensures !Inside(a, b) {
        InFamily(rows, v6, a);
        InFamily(rows, v6, b);
      }
      FlatListComplete(rs);
    }
  }
}
