/** Rewriting the references of a calc expression into placeholders by text
    replacement, longest reference first (calculator.py, _substitute_placeholders). */
module CalcText {
  import opened Common
  import opened Decimal

  /** The characters gauge references are made of. */
  predicate IsRefChar(c: char) {
    'a' <= c <= 'z' || 'A' <= c <= 'Z' || '0' <= c <= '9' || c == '_' || c == ':'
  }

  predicate RefChars(s: string) {
    forall i :: 0 <= i < |s| ==> IsRefChar(s[i])
  }

  predicate OccursAt(s: string, part: string, i: int) {
    0 <= i <= |s| - |part| && s[i..i + |part|] == part
  }

  ghost predicate Contains(s: string, part: string) {
    exists i :: OccursAt(s, part, i)
  }

  predicate ColonsAt(s: string, i: int) {
    0 <= i < |s| - 1 && s[i] == ':' && s[i + 1] == ':'
  }

  /** The text has a double colon. */
  ghost predicate HasColons(s: string) {
    exists i :: ColonsAt(s, i)
  }

  /** str.replace for a non-empty `was`: leftmost, non-overlapping. */
  function ReplaceAll(s: string, was: string, now: string): string
    requires was != ""
  {
    if |s| < |was| then s
    else if was <= s then now + ReplaceAll(s[|was|..], was, now)
    else [s[0]] + ReplaceAll(s[1..], was, now)
  }

  // ---------------------------------------------------------------- texts as tokens

  /** A text is a list of maximal runs of reference characters and single others. */
  datatype Token = Word(text: string) | Mark(c: char)

  predicate TokenOk(t: Token) {
    match t
    case Word(text) => text != "" && RefChars(text)
    case Mark(c) => !IsRefChar(c)
  }

  /** Tokens are well formed and no two words touch, so runs are maximal. */
  predicate WellFormed(ts: seq<Token>) {
    && (forall i :: 0 <= i < |ts| ==> TokenOk(ts[i]))
    && (forall i :: 0 <= i < |ts| - 1 ==> ts[i].Mark? || ts[i + 1].Mark?)
  }

  function Render(ts: seq<Token>): string {
    if ts == [] then ""
    else (match ts[0] case Word(text) => text case Mark(c) => [c]) + Render(ts[1..])
  }

  /** Every text is the rendering of a well-formed token list. */
  function Tokens(s: string): (ts: seq<Token>)
    ensures WellFormed(ts) && Render(ts) == s
  {
    if s == "" then []
    else
      var rest := Tokens(s[1..]);
      if !IsRefChar(s[0]) then [Mark(s[0])] + rest
      else if rest != [] && rest[0].Word? then
        var ts := [Word([s[0]] + rest[0].text)] + rest[1..];
        assert ts[1..] == rest[1..] && s == [s[0]] + s[1..];
        ts
      else [Word([s[0]])] + rest
  }

  /** Token-wise substitution of whole words. */
  function Substitute(ts: seq<Token>, names: map<string, string>): (us: seq<Token>)
    ensures |us| == |ts|
    ensures forall i :: 0 <= i < |ts| ==>
              us[i] == if ts[i].Word? && ts[i].text in names then Word(names[ts[i].text]) else ts[i]
  {
    if ts == [] then []
    else [if ts[0].Word? && ts[0].text in names then Word(names[ts[0].text]) else ts[0]] + Substitute(ts[1..], names)
  }

  lemma ReplaceStep(s: string, was: string, now: string)
    requires was != "" && s != "" && !(was <= s)
    ensures ReplaceAll(s, was, now) == [s[0]] + ReplaceAll(s[1..], was, now)
  {
    if |s| < |was| { assert s == [s[0]] + s[1..]; }
  }

  lemma NoMatchHere(r: string, rest: string, was: string)
    requires was != "" && RefChars(was) && r != "" && !OccursAt(r, was, 0)
    requires rest == "" || !IsRefChar(rest[0])
    ensures !(was <= r + rest)
  {
    var s := r + rest;
    if |was| <= |r| {
      assert s[..|was|] == r[0..0 + |was|];
    } else if |was| <= |s| {
      assert s[|r|] == rest[0] && IsRefChar(was[|r|]);
    }
  }

  /** Text after a word cannot lend characters to a match that begins in the word. */
  lemma {:induction false} SkipWord(r: string, rest: string, was: string, now: string)
    requires was != "" && RefChars(was) && RefChars(r) && !Contains(r, was)
    requires rest == "" || !IsRefChar(rest[0])
    ensures ReplaceAll(r + rest, was, now) == r + ReplaceAll(rest, was, now)
  {
    var s := r + rest;
    if r == "" {
      assert s == rest;
    } else {
      NoMatchHere(r, rest, was);
      ReplaceStep(s, was, now);
      assert s[1..] == r[1..] + rest && s[0] == r[0];
      NotInTail(r, was);
      SkipWord(r[1..], rest, was, now);
      assert [r[0]] + (r[1..] + ReplaceAll(rest, was, now)) == r + ReplaceAll(rest, was, now);
    }
  }

  lemma NotInTail(r: string, was: string)
    requires r != "" && !Contains(r, was)
    ensures !Contains(r[1..], was)
  {
    forall i | 0 <= i <= |r[1..]| - |was| ensures !OccursAt(r[1..], was, i) {
      assert !OccursAt(r, was, i + 1);
      assert r[1..][i..i + |was|] == r[i + 1..i + 1 + |was|];
    }
  }

  lemma TailWellFormed(ts: seq<Token>)
    requires WellFormed(ts) && ts != []
    ensures WellFormed(ts[1..])
    ensures ts[0].Word? ==> Render(ts[1..]) == "" || !IsRefChar(Render(ts[1..])[0])
  {
    if |ts| > 1 && ts[0].Word? {
      assert ts[1].Mark? && TokenOk(ts[1]) && Render(ts[1..])[0] == ts[1].c;
    }
  }

  /** Well-formed tokens are those of their text. */
  lemma {:induction false} TokensUnique(ts: seq<Token>)
    requires WellFormed(ts)
    ensures Tokens(Render(ts)) == ts
  {
    if ts != [] {
      TailWellFormed(ts);
      TokensUnique(ts[1..]);
      var rest := Render(ts[1..]);
      match ts[0] {
        case Mark(c) =>
          assert Render(ts) == [c] + rest && ([c] + rest)[1..] == rest;
        case Word(w) =>
          WordFirst(w, rest, ts[1..]);
      }
    }
  }

  lemma {:induction false} WordFirst(w: string, rest: string, ts: seq<Token>)
    requires w != "" && RefChars(w) && Tokens(rest) == ts && (ts == [] || ts[0].Mark?)
    ensures Tokens(w + rest) == [Word(w)] + ts
  {
    var s := w + rest;
    assert s[0] == w[0] && s[1..] == w[1..] + rest;
    if |w| == 1 {
      assert w[1..] + rest == rest;
      assert w == [w[0]];
    } else {
      WordFirst(w[1..], rest, ts);
      assert w == [w[0]] + w[1..];
    }
  }

  /** One textual replacement is one token-wise substitution, as long as the reference
      occurs inside no other word. */
  lemma {:induction false} ReplaceIsSubstitute(ts: seq<Token>, was: string, now: string)
    requires WellFormed(ts) && was != "" && RefChars(was)
    requires forall i :: 0 <= i < |ts| && ts[i].Word? && ts[i].text != was ==> !Contains(ts[i].text, was)
    ensures ReplaceAll(Render(ts), was, now) == Render(Substitute(ts, map[was := now]))
  {
    if ts != [] {
      TailWellFormed(ts);
      ReplaceIsSubstitute(ts[1..], was, now);
      var rest := Render(ts[1..]);
      assert Substitute(ts, map[was := now])[1..] == Substitute(ts[1..], map[was := now]);
      match ts[0]
      case Word(r) =>
        if r == was {
          var s := r + rest;
          assert was <= s && s[|was|..] == rest;
        } else {
          SkipWord(r, rest, was, now);
        }
      case Mark(c) =>
        var s := [c] + rest;
        assert s[0] == c && s[1..] == rest;
        assert !(was <= s) by { assert IsRefChar(was[0]); }
        ReplaceStep(s, was, now);
    }
  }

  // ---------------------------------------------------------------- longest first

  /** sorted(keys, key=len, reverse=True), stable: each key goes after those at least as long. */
  function InsertByLength(k: string, sorted: seq<string>): (r: seq<string>)
    ensures forall x :: x in r <==> x == k || x in sorted
  {
    if sorted == [] || |sorted[0]| < |k| then [k] + sorted
    else
      assert sorted == [sorted[0]] + sorted[1..];
      [sorted[0]] + InsertByLength(k, sorted[1..])
  }

  function LongestFirst(keys: seq<string>): (r: seq<string>)
    ensures forall x :: x in r <==> x in keys
  {
    if keys == [] then []
    else
      assert keys == keys[..|keys| - 1] + [keys[|keys| - 1]];
      InsertByLength(keys[|keys| - 1], LongestFirst(keys[..|keys| - 1]))
  }

  predicate Descending(keys: seq<string>) {
    forall i, j :: 0 <= i < j < |keys| ==> |keys[i]| >= |keys[j]|
  }

  lemma {:induction false} InsertByLengthElems(k: string, sorted: seq<string>)
    ensures multiset(InsertByLength(k, sorted)) == multiset(sorted) + multiset{k}
  {
    if sorted != [] {
      assert sorted == [sorted[0]] + sorted[1..];
      InsertByLengthElems(k, sorted[1..]);
    }
  }

  lemma {:induction false} InsertByLengthSorts(k: string, sorted: seq<string>)
    requires Descending(sorted)
    ensures Descending(InsertByLength(k, sorted))
    ensures forall j :: 0 <= j < |InsertByLength(k, sorted)| ==>
              |InsertByLength(k, sorted)[j]| <= if sorted != [] && |sorted[0]| >= |k| then |sorted[0]| else |k|
  {
    if sorted != [] && |sorted[0]| >= |k| {
      InsertByLengthSorts(k, sorted[1..]);
    }
  }

  /** The keys of one length, in order. */
  function OfLength(keys: seq<string>, n: nat): seq<string> {
    if keys == [] then [] else (if |keys[0]| == n then [keys[0]] else []) + OfLength(keys[1..], n)
  }

  lemma {:induction false} OfLengthSnoc(keys: seq<string>, k: string, n: nat)
    ensures OfLength(keys + [k], n) == OfLength(keys, n) + if |k| == n then [k] else []
  {
    if keys == [] {
      assert keys + [k] == [k];
    } else {
      assert (keys + [k])[1..] == keys[1..] + [k];
      OfLengthSnoc(keys[1..], k, n);
    }
  }

  lemma {:induction false} NoneOfLength(keys: seq<string>, n: nat)
    requires forall i :: 0 <= i < |keys| ==> |keys[i]| < n
    ensures OfLength(keys, n) == []
  {
    if keys != [] { NoneOfLength(keys[1..], n); }
  }

  lemma {:induction false} InsertByLengthStable(k: string, sorted: seq<string>, n: nat)
    requires Descending(sorted)
    ensures OfLength(InsertByLength(k, sorted), n) == OfLength(sorted, n) + if |k| == n then [k] else []
  {
    if sorted == [] || |sorted[0]| < |k| {
      assert InsertByLength(k, sorted) == [k] + sorted && ([k] + sorted)[1..] == sorted;
      if |k| == n { NoneOfLength(sorted, n); }
    } else {
      InsertByLengthStable(k, sorted[1..], n);
      assert InsertByLength(k, sorted)[1..] == InsertByLength(k, sorted[1..]);
    }
  }

  /** Longest first, none lost, and keys of one length in their old order. */
  lemma {:induction false} LongestFirstSorts(keys: seq<string>)
    ensures Descending(LongestFirst(keys)) && multiset(LongestFirst(keys)) == multiset(keys)
    ensures forall n :: OfLength(LongestFirst(keys), n) == OfLength(keys, n)
  {
    if keys != [] {
      var front, k := keys[..|keys| - 1], keys[|keys| - 1];
      assert keys == front + [k];
      assert LongestFirst(keys) == InsertByLength(k, LongestFirst(front));
      hide LongestFirst, InsertByLength, Descending, OfLength;
      LongestFirstSorts(front);
      InsertByLengthSorts(k, LongestFirst(front));
      InsertByLengthElems(k, LongestFirst(front));
      forall n ensures OfLength(LongestFirst(keys), n) == OfLength(keys, n) {
        OfLengthSnoc(front, k, n);
        InsertByLengthStable(k, LongestFirst(front), n);
      }
    }
  }

  function Placeholder(i: nat): (p: string)
    ensures |p| >= 3 && p[..2] == "_v" && p[2..] == Digits(i)
  {
    "_v" + Digits(i)
  }

  lemma PlaceholderFacts(i: nat)
    ensures RefChars(Placeholder(i)) && !HasColons(Placeholder(i))
  {
    var p := Placeholder(i);
    assert p[0] == "_v"[0] && p[1] == "_v"[1];
    assert forall k :: 2 <= k < |p| ==> p[k] == Digits(i)[k - 2];
  }

  lemma PlaceholdersDiffer(i: nat, j: nat)
    requires Placeholder(i) == Placeholder(j)
    ensures i == j
  {
    assert Digits(i) == Placeholder(i)[2..] == Digits(j);
    DigitsInjective(i, j);
  }

  /** The placeholder of each of the first n references. */
  function Naming(order: seq<string>, n: nat): (names: map<string, string>)
    requires n <= |order|
    ensures names.Keys == Elems(order[..n])
  {
    if n == 0 then map[]
    else
      assert order[..n] == order[..n - 1] + [order[n - 1]];
      Naming(order, n - 1)[order[n - 1] := Placeholder(n - 1)]
  }

  lemma {:induction false} NamingAt(order: seq<string>, n: nat, i: nat)
    requires i < n <= |order| && NoDup(order)
    ensures order[i] in Naming(order, n) && Naming(order, n)[order[i]] == Placeholder(i)
  {
    if i < n - 1 { NamingAt(order, n - 1, i); }
  }

  lemma NamingIndex(order: seq<string>, n: nat, k: string) returns (i: nat)
    requires n <= |order| && NoDup(order) && k in Naming(order, n)
    ensures i < n && order[i] == k && Naming(order, n)[k] == Placeholder(i)
  {
    assert k in order[..n];
    i :| i < n && order[i] == k;
    NamingAt(order, n, i);
  }

  /** What a caller can check: references are words with a double colon, and every word
      of the expression with a double colon is one of them. */
  ghost predicate RefsCovered(keys: seq<string>, ts: seq<Token>) {
    && NoDup(keys)
    && (forall k :: k in keys ==> RefChars(k) && HasColons(k))
    && (forall i :: 0 <= i < |ts| && ts[i].Word? && HasColons(ts[i].text) ==> ts[i].text in keys)
  }

  /** The replacement loop over the first n references of the order. */
  function Replaced(s: string, order: seq<string>, n: nat): string
    requires n <= |order| && forall k :: k in order ==> k != ""
  {
    if n == 0 then s
    else
      assert order[n - 1] in order;
      ReplaceAll(Replaced(s, order, n - 1), order[n - 1], Placeholder(n - 1))
  }

  lemma ContainsTransfers(s: string, part: string)
    requires Contains(s, part) && HasColons(part)
    ensures HasColons(s)
  {
    var i :| OccursAt(s, part, i);
    var j :| ColonsAt(part, j);
    assert s[i + j] == s[i..i + |part|][j] && s[i + j + 1] == s[i..i + |part|][j + 1];
    assert ColonsAt(s, i + j);
  }

  lemma ContainsFits(s: string, part: string)
    requires Contains(s, part) && |s| <= |part|
    ensures s == part
  {
    var i :| OccursAt(s, part, i);
    assert i == 0 && s[0..|part|] == s;
  }

  /** A word that still has a double colon is one of the references not yet replaced. */
  lemma {:induction false} LeftOver(ts: seq<Token>, order: seq<string>, n: nat, i: nat)
    requires n <= |order| && RefsCovered(order, ts) && i < |ts|
    requires Substitute(ts, Naming(order, n))[i].Word? && HasColons(Substitute(ts, Naming(order, n))[i].text)
    ensures exists m :: n <= m < |order| && order[m] == Substitute(ts, Naming(order, n))[i].text
  {
    var text := Substitute(ts, Naming(order, n))[i].text;
    if ts[i].text in Naming(order, n) {
      var m := NamingIndex(order, n, ts[i].text);
      PlaceholderFacts(m);
      assert false;
    } else {
      assert forall q :: 0 <= q < n ==> order[q] in order[..n];
      var m :| 0 <= m < |order| && order[m] == text;
      assert m >= n;
    }
  }

  /** The next reference, no longer than those before, occurs inside no other word. */
  lemma {:induction false} NoStrayMatch(ts: seq<Token>, order: seq<string>, n: nat, i: nat)
    requires n < |order| && Descending(order) && RefsCovered(order, ts) && i < |ts|
    requires Substitute(ts, Naming(order, n))[i].Word? && Substitute(ts, Naming(order, n))[i].text != order[n]
    ensures !Contains(Substitute(ts, Naming(order, n))[i].text, order[n])
  {
    var text := Substitute(ts, Naming(order, n))[i].text;
    if Contains(text, order[n]) {
      ContainsTransfers(text, order[n]);
      LeftOver(ts, order, n, i);
      ContainsFits(text, order[n]);
      assert false;
    }
  }

  lemma {:induction false} SubstituteWellFormed(ts: seq<Token>, order: seq<string>, n: nat)
    requires WellFormed(ts) && n <= |order| && NoDup(order)
    ensures WellFormed(Substitute(ts, Naming(order, n)))
  {
    var us := Substitute(ts, Naming(order, n));
    forall i | 0 <= i < |us| ensures TokenOk(us[i]) && (us[i].Mark? <==> ts[i].Mark?) {
      assert TokenOk(ts[i]);
      if ts[i].Word? && ts[i].text in Naming(order, n) {
        var m := NamingIndex(order, n, ts[i].text);
        PlaceholderFacts(m);
      }
    }
  }

  lemma SubstituteMore(ts: seq<Token>, order: seq<string>, n: nat)
    requires n < |order| && NoDup(order) && HasColons(order[n])
    ensures Substitute(Substitute(ts, Naming(order, n)), map[order[n] := Placeholder(n)]) == Substitute(ts, Naming(order, n + 1))
  {
    var a := Substitute(Substitute(ts, Naming(order, n)), map[order[n] := Placeholder(n)]);
    var b := Substitute(ts, Naming(order, n + 1));
    forall i | 0 <= i < |ts| ensures a[i] == b[i] {
      if ts[i].Word? && ts[i].text in Naming(order, n) {
        var m := NamingIndex(order, n, ts[i].text);
        NamingAt(order, n + 1, m);
        PlaceholderFacts(m);
      }
    }
  }

  /** One more reference, the longest of those left. */
  lemma NextReplacement(ts: seq<Token>, order: seq<string>, n: nat)
    requires WellFormed(ts) && n < |order| && Descending(order) && RefsCovered(order, ts) && order[n] != ""
    ensures ReplaceAll(Render(Substitute(ts, Naming(order, n))), order[n], Placeholder(n))
            == Render(Substitute(ts, Naming(order, n + 1)))
  {
    hide Descending, Naming, WellFormed, Contains, HasColons, Render, Placeholder, ReplaceAll, Substitute;
    var us := Substitute(ts, Naming(order, n));
    assert order[n] in order && RefChars(order[n]) && HasColons(order[n]);
    SubstituteWellFormed(ts, order, n);
    forall i | 0 <= i < |us| && us[i].Word? && us[i].text != order[n] ensures !Contains(us[i].text, order[n]) {
      NoStrayMatch(ts, order, n, i);
    }
    ReplaceIsSubstitute(us, order[n], Placeholder(n));
    SubstituteMore(ts, order, n);
  }

  /** Longest-first textual replacement is token-wise substitution, even when one
      reference is part of another. */
  lemma {:induction false} LongestFirstIsTokenwise(ts: seq<Token>, order: seq<string>, n: nat)
    requires WellFormed(ts) && n <= |order| && Descending(order) && RefsCovered(order, ts)
    requires forall k :: k in order ==> k != ""
    ensures Replaced(Render(ts), order, n) == Render(Substitute(ts, Naming(order, n)))
  {
    hide Descending, RefsCovered, WellFormed, Render, Placeholder, ReplaceAll;
    if n == 0 {
      assert Substitute(ts, map[]) == ts;
    } else {
      hide Substitute;
      LongestFirstIsTokenwise(ts, order, n - 1);
      assert order[n - 1] in order;
      NextReplacement(ts, order, n - 1);
    }
  }

  // ---------------------------------------------------------------- greatest( and least(

  predicate EndsWith(s: string, w: string) {
    |s| >= |w| && s[|s| - |w|..] == w
  }

  function Swap(s: string, w: string, v: string): string {
    if EndsWith(s, w) then s[..|s| - |w|] + v else s
  }

  predicate BeforeParen(ts: seq<Token>, i: nat) {
    i + 1 < |ts| && ts[i + 1] == Mark('(')
  }

  /** Each word right before an opening parenthesis has its ending w changed to v. */
  function SwapCalls(ts: seq<Token>, w: string, v: string): (us: seq<Token>)
    ensures |us| == |ts|
    ensures forall i :: 0 <= i < |ts| ==>
              us[i] == if ts[i].Word? && BeforeParen(ts, i) then Word(Swap(ts[i].text, w, v)) else ts[i]
  {
    if ts == [] then []
    else
      assert forall i :: 0 < i < |ts| ==> (BeforeParen(ts, i) <==> BeforeParen(ts[1..], i - 1));
      [if ts[0].Word? && BeforeParen(ts, 0) then Word(Swap(ts[0].text, w, v)) else ts[0]] + SwapCalls(ts[1..], w, v)
  }

  lemma NoCallHere(r: string, rest: string, w: string)
    requires w != "" && RefChars(w) && r != "" && RefChars(r)
    requires rest == "" || !IsRefChar(rest[0])
    requires r != w || rest == "" || rest[0] != '('
    ensures !(w + "(" <= r + rest)
  {
    var s, was := r + rest, w + "(";
    assert was[|w|] == '(';
    if |w| < |r| {
      assert s[|w|] == r[|w|] && IsRefChar(r[|w|]);
    } else if |was| <= |s| {
      assert s[|r|] == rest[0];
      if |w| > |r| { assert was[|r|] == w[|r|] && IsRefChar(w[|r|]); }
      if |w| == |r| && was == s[..|was|] { assert s[..|w|] == r && was[..|w|] == w; }
    }
  }

  lemma EndsWithTail(r: string, w: string)
    requires r != ""
    ensures r == w ==> EndsWith(r, w)
    ensures EndsWith(r[1..], w) ==> EndsWith(r, w)
  {
    if EndsWith(r[1..], w) { assert r[1..][|r[1..]| - |w|..] == r[|r| - |w|..]; }
  }

  /** A word that is not a call of w is passed over. */
  lemma {:induction false} SkipUncalled(r: string, rest: string, w: string, v: string)
    requires w != "" && RefChars(w) && RefChars(r)
    requires rest == "" || !IsRefChar(rest[0])
    requires !EndsWith(r, w) || rest == "" || rest[0] != '('
    ensures ReplaceAll(r + rest, w + "(", v + "(") == r + ReplaceAll(rest, w + "(", v + "(")
  {
    var s, was, now := r + rest, w + "(", v + "(";
    if r == "" {
      assert s == rest;
    } else {
      EndsWithTail(r, w);
      NoCallHere(r, rest, w);
      hide EndsWith, ReplaceAll;
      ReplaceStep(s, was, now);
      FirstOfTwo(r, rest);
      SkipUncalled(r[1..], rest, w, v);
      FirstOfTwo(r, ReplaceAll(rest, was, now));
    }
  }

  lemma FirstOfTwo(a: string, b: string)
    requires a != ""
    ensures (a + b)[0] == a[0] && (a + b)[1..] == a[1..] + b
    ensures [a[0]] + (a[1..] + b) == a + b
  {
  }

  /** A call of a word ending in w has that ending replaced. */
  lemma {:induction false} SwapAtCall(p: string, rest: string, w: string, v: string)
    requires w != "" && RefChars(w) && RefChars(p)
    ensures ReplaceAll(p + w + "(" + rest, w + "(", v + "(") == p + v + "(" + ReplaceAll(rest, w + "(", v + "(")
  {
    var s, was, now := p + w + "(" + rest, w + "(", v + "(";
    if p == "" {
      assert was <= s && s[|was|..] == rest;
      assert p + v + "(" + ReplaceAll(rest, was, now) == now + ReplaceAll(rest, was, now);
    } else {
      assert s == (p + w) + ("(" + rest);
      NoCallHere(p + w, "(" + rest, w);
      ReplaceStep(s, was, now);
      assert s[1..] == p[1..] + w + "(" + rest && s[0] == p[0];
      SwapAtCall(p[1..], rest, w, v);
      hide ReplaceAll;
      assert [p[0]] + (p[1..] + v + "(" + ReplaceAll(rest, was, now)) == p + v + "(" + ReplaceAll(rest, was, now);
    }
  }

  lemma SwapHead(p: string, rest: string, w: string, v: string)
    requires w != "" && RefChars(w) && RefChars(p)
    ensures ReplaceAll((p + w) + ("(" + rest), w + "(", v + "(") == (p + v) + ReplaceAll("(" + rest, w + "(", v + "(")
  {
    hide ReplaceAll;
    var tail := ReplaceAll(rest, w + "(", v + "(");
    SwapAtCall(p, rest, w, v);
    assert (p + w) + ("(" + rest) == p + w + "(" + rest;
    assert IsRefChar(w[0]) && (w + "(")[0] == w[0];
    SkipMark('(', rest, w + "(", v + "(");
    assert ReplaceAll("(" + rest, w + "(", v + "(") == "(" + tail;
    assert p + v + "(" + tail == (p + v) + ("(" + tail);
  }

  lemma SkipMark(c: char, rest: string, was: string, now: string)
    requires was != "" && was[0] != c
    ensures ReplaceAll([c] + rest, was, now) == [c] + ReplaceAll(rest, was, now)
  {
    var s := [c] + rest;
    assert s[0] == c && s[1..] == rest;
    ReplaceStep(s, was, now);
  }

  /** Replacing "w(" by "v(" changes exactly the names right before a parenthesis. */
  lemma {:induction false} ReplaceIsSwapCalls(ts: seq<Token>, w: string, v: string)
    requires WellFormed(ts) && w != "" && RefChars(w)
    ensures ReplaceAll(Render(ts), w + "(", v + "(") == Render(SwapCalls(ts, w, v))
  {
    if ts != [] {
      TailWellFormed(ts);
      ReplaceIsSwapCalls(ts[1..], w, v);
      var rest := Render(ts[1..]);
      var us := SwapCalls(ts, w, v);
      assert us[1..] == SwapCalls(ts[1..], w, v) by {
        assert forall i :: 0 < i < |ts| ==> (BeforeParen(ts, i) <==> BeforeParen(ts[1..], i - 1));
      }
      match ts[0]
      case Mark(c) =>
        assert TokenOk(ts[0]) && IsRefChar(w[0]) && (w + "(")[0] == w[0];
        SkipMark(c, rest, w + "(", v + "(");
      case Word(r) =>
        assert TokenOk(ts[0]);
        if BeforeParen(ts, 0) && EndsWith(r, w) {
          assert ts[1..][1..] == ts[2..] && rest == "(" + Render(ts[2..]);
          assert r == r[..|r| - |w|] + w;
          SwapHead(r[..|r| - |w|], Render(ts[2..]), w, v);
        } else {
          if rest != "" && rest[0] == '(' { assert ts[1] == Mark('('); }
          SkipUncalled(r, rest, w, v);
        }
    }
  }

  // ---------------------------------------------------------------- the whole rewriting

  function SwapFn(s: string): string {
    Swap(Swap(s, "greatest", "max"), "least", "min")
  }

  function RewriteToken(t: Token, call: bool, names: map<string, string>): Token {
    match t
    case Mark(_) => t
    case Word(text) =>
      var named := if text in names then names[text] else text;
      Word(if call then SwapFn(named) else named)
  }

  /** Token-wise rewriting; `call` says whether the last token is followed by a parenthesis. */
  function Rewrite(ts: seq<Token>, call: bool, names: map<string, string>): (us: seq<Token>)
    ensures |us| == |ts|
    ensures forall i :: 0 <= i < |ts| ==>
              us[i] == RewriteToken(ts[i], if i + 1 < |ts| then ts[i + 1] == Mark('(') else call, names)
  {
    seq(|ts|, i requires 0 <= i < |ts| => RewriteToken(ts[i], if i + 1 < |ts| then ts[i + 1] == Mark('(') else call, names))
  }

  lemma SameParens(ts: seq<Token>, us: seq<Token>)
    requires |ts| == |us| && forall i :: 0 <= i < |ts| ==> (us[i] == ts[i] || (us[i].Word? && ts[i].Word?))
    ensures forall i :: 0 <= i < |ts| ==> (BeforeParen(us, i) <==> BeforeParen(ts, i))
  {
  }

  lemma ParenMeans(ts: seq<Token>, i: nat)
    requires i < |ts|
    ensures BeforeParen(ts, i) == if i + 1 < |ts| then ts[i + 1] == Mark('(') else false
  {
  }

  lemma RewriteIsThreePasses(ts: seq<Token>, names: map<string, string>)
    ensures SwapCalls(SwapCalls(Substitute(ts, names), "greatest", "max"), "least", "min") == Rewrite(ts, false, names)
  {
    var a := Substitute(ts, names);
    SameParens(ts, a);
    var b := SwapCalls(a, "greatest", "max");
    SameParens(ts, b);
    hide BeforeParen, Swap;
    var c, d := SwapCalls(b, "least", "min"), Rewrite(ts, false, names);
    forall i | 0 <= i < |ts| ensures c[i] == d[i] {
      assert BeforeParen(ts, i) == BeforeParen(a, i) == BeforeParen(b, i);
      assert d[i] == RewriteToken(ts[i], BeforeParen(ts, i), names) by { ParenMeans(ts, i); }
    }
  }

  lemma {:induction false} SwapWellFormed(ts: seq<Token>, w: string, v: string)
    requires WellFormed(ts) && v != "" && RefChars(v)
    ensures WellFormed(SwapCalls(ts, w, v))
  {
    var us := SwapCalls(ts, w, v);
    forall i | 0 <= i < |us| ensures TokenOk(us[i]) && (us[i].Mark? <==> ts[i].Mark?) {
      assert TokenOk(ts[i]);
    }
  }

  /** What _substitute_placeholders returns as text. */
  function RewriteText(s: string, keys: seq<string>): string
    requires forall k :: k in keys ==> k != ""
  {
    ReplaceAll(ReplaceAll(Replaced(s, LongestFirst(keys), |LongestFirst(keys)|), "greatest(", "max("), "least(", "min(")
  }

  function Names(keys: seq<string>): map<string, string> {
    Naming(LongestFirst(keys), |LongestFirst(keys)|)
  }

  lemma NoDupSameElems(a: seq<string>, b: seq<string>)
    requires multiset(a) == multiset(b) && NoDup(a)
    ensures NoDup(b) && Elems(a) == Elems(b)
  {
    forall x | x in a || x in b ensures x in a && x in b {
      assert x in multiset(a) && x in multiset(b);
    }
    forall i, j | 0 <= i < j < |b| ensures b[i] != b[j] {
      if b[i] == b[j] {
        TwiceCounts(b, i, j);
        OnceCounts(a, b[i]);
        assert false;
      }
    }
  }

  lemma TwiceCounts(s: seq<string>, i: nat, j: nat)
    requires i < j < |s| && s[i] == s[j]
    ensures multiset(s)[s[i]] >= 2
  {
    assert s == s[..i] + [s[i]] + s[i + 1..j] + [s[j]] + s[j + 1..];
  }

  lemma {:induction false} OnceCounts(s: seq<string>, x: string)
    requires NoDup(s)
    ensures multiset(s)[x] <= 1
  {
    if s != [] {
      assert s == [s[0]] + s[1..];
      OnceCounts(s[1..], x);
      assert s[0] !in multiset(s[1..]);
    }
  }

  /** The order of the references is a reordering, so the condition carries over. */
  lemma OrderCovered(keys: seq<string>, ts: seq<Token>)
    requires RefsCovered(keys, ts)
    ensures RefsCovered(LongestFirst(keys), ts) && Descending(LongestFirst(keys))
    ensures forall k :: k in keys <==> k in LongestFirst(keys)
  {
    LongestFirstSorts(keys);
    NoDupSameElems(keys, LongestFirst(keys));
    assert forall k :: k in keys <==> k in Elems(keys);
    assert forall k :: k in LongestFirst(keys) <==> k in Elems(LongestFirst(keys));
  }

  lemma ColonsNonEmpty(k: string)
    requires HasColons(k)
    ensures k != ""
  {
  }

  /** Main result on texts: for every expression text whose double-colon words are all
      references, the textual rewriting equals the token-wise one. */
  lemma TextRewriteIsTokenwise(s: string, keys: seq<string>)
    requires RefsCovered(keys, Tokens(s)) && (forall k :: k in keys ==> k != "")
    ensures RewriteText(s, keys) == Render(Rewrite(Tokens(s), false, Names(keys)))
  {
    TokensRewrite(Tokens(s), keys);
  }

  lemma TokensRewrite(ts: seq<Token>, keys: seq<string>)
    requires WellFormed(ts) && RefsCovered(keys, ts) && (forall k :: k in keys ==> k != "")
    ensures RewriteText(Render(ts), keys) == Render(Rewrite(ts, false, Names(keys)))
  {
    hide Render, ReplaceAll, SwapCalls, Substitute, Rewrite, WellFormed, LongestFirst, Naming, Replaced, HasColons;
    OrderCovered(keys, ts);
    var order := LongestFirst(keys);
    LongestFirstIsTokenwise(ts, order, |order|);
    var a := Substitute(ts, Names(keys));
    SubstituteWellFormed(ts, order, |order|);
    assert "greatest" + "(" == "greatest(" && "max" + "(" == "max(" && "least" + "(" == "least(" && "min" + "(" == "min(";
    ReplaceIsSwapCalls(a, "greatest", "max");
    SwapWellFormed(a, "greatest", "max");
    ReplaceIsSwapCalls(SwapCalls(a, "greatest", "max"), "least", "min");
    RewriteIsThreePasses(ts, Names(keys));
  }

  /** The method itself: the rewritten text, and the value of each placeholder. */
  method SubstitutePlaceholders(expression: string, keys: seq<string>, values: map<string, real>)
    returns (expr: string, placeholderValues: map<string, real>)
    requires NoDup(keys) && (forall k :: k in keys ==> k != "" && k in values)
    ensures expr == RewriteText(expression, keys)
    ensures placeholderValues == PlaceholderValues(LongestFirst(keys), |LongestFirst(keys)|, values)
  {
    var order := LongestFirst(keys);
    expr, placeholderValues := expression, map[];
    var i := 0;
    while i < |order|
      invariant 0 <= i <= |order|
      invariant expr == Replaced(expression, order, i)
      invariant placeholderValues == PlaceholderValues(order, i, values)
    {
      var ref := order[i];
      assert ref in order;
      var placeholder := Placeholder(i);
      expr := ReplaceAll(expr, ref, placeholder);
      placeholderValues := placeholderValues[placeholder := values[ref]];
      i := i + 1;
    }
    expr := ReplaceAll(expr, "greatest(", "max(");
    expr := ReplaceAll(expr, "least(", "min(");
  }

  function PlaceholderValues(order: seq<string>, n: nat, values: map<string, real>): (m: map<string, real>)
    requires n <= |order| && forall k :: k in order ==> k in values
    ensures forall p :: p in m ==> exists i :: 0 <= i < n && p == Placeholder(i)
  {
    if n == 0 then map[]
    else
      assert order[n - 1] in order;
      PlaceholderValues(order, n - 1, values)[Placeholder(n - 1) := values[order[n - 1]]]
  }

  /** Distinct references get distinct placeholders, so each keeps its own value. */
  lemma {:induction false} PlaceholderValueAt(order: seq<string>, n: nat, i: nat, values: map<string, real>)
    requires i < n <= |order| && forall k :: k in order ==> k in values
    ensures Placeholder(i) in PlaceholderValues(order, n, values)
    ensures order[i] in order && PlaceholderValues(order, n, values)[Placeholder(i)] == values[order[i]]
  {
    if i < n - 1 {
      PlaceholderValueAt(order, n - 1, i, values);
      if Placeholder(i) == Placeholder(n - 1) { PlaceholdersDiffer(i, n - 1); }
    }
  }
}
