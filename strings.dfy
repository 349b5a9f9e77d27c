/** The optional value used wherever the source has `null` or `undefined`. */
module Wrappers {
  datatype Option<+T> = None | Some(value: T)
}

/**
 * The few JavaScript string operations the routing code relies on:
 * `split` on a one-character separator, `join`, `startsWith`, the first
 * occurrence of a substring (`indexOf`), `replace` with a string pattern
 * (first occurrence only), `trim` and `substring(0, n)`.
 */
module Strings {
  import opened Wrappers

  /** `s.split(sep)`: the pieces between separators; never an empty list. */
  function Split(s: string, sep: char): (parts: seq<string>)
    ensures |parts| >= 1
    decreases |s|
  {
    if s == [] then [[]]
    else if s[0] == sep then [[]] + Split(s[1..], sep)
    else
      var rest := Split(s[1..], sep);
      [[s[0]] + rest[0]] + rest[1..]
  }

  /** No part holds the separator, and there is more than one part exactly when `s` holds it. */
  lemma {:induction false} SplitParts(s: string, sep: char)
    ensures forall k :: 0 <= k < |Split(s, sep)| ==> sep !in Split(s, sep)[k]
    ensures |Split(s, sep)| == 1 <==> sep !in s
    decreases |s|
  {
    if s != [] {
      SplitParts(s[1..], sep);
      var rest := Split(s[1..], sep);
      if s[0] == sep {
        assert Split(s, sep) == [[]] + rest;
      } else {
        SplitStep(s, sep);
        var parts := Split(s, sep);
        assert parts[0] == [s[0]] + rest[0] && parts[1..] == rest[1..];
        assert sep !in rest[0];
        assert forall k :: 1 <= k < |parts| ==> parts[k] == rest[k];
        assert s == [s[0]] + s[1..];
      }
    }
  }

  /** `parts.join(sep)`. */
  function Join(parts: seq<string>, sep: char): string
  {
    if |parts| == 0 then []
    else if |parts| == 1 then parts[0]
    else parts[0] + [sep] + Join(parts[1..], sep)
  }

  predicate StartsWith(s: string, prefix: string)
  {
    |prefix| <= |s| && s[..|prefix|] == prefix
  }

  predicate OccursAt(s: string, pat: string, i: nat)
  {
    i + |pat| <= |s| && s[i..i + |pat|] == pat
  }

  /** The first index at or after `from` where `pat` occurs in `s`. */
  function FindFrom(s: string, pat: string, from: nat): (r: Option<nat>)
    ensures r.Some? ==> from <= r.value && OccursAt(s, pat, r.value)
    decreases |s| - from
  {
    if from + |pat| > |s| then None
    else if s[from..from + |pat|] == pat then Some(from)
    else FindFrom(s, pat, from + 1)
  }

  /** The index found is the first occurrence, and nothing found means no occurrence. */
  lemma {:induction false} FindFromIsFirst(s: string, pat: string, from: nat)
    ensures FindFrom(s, pat, from).Some? ==> forall j :: from <= j < FindFrom(s, pat, from).value ==> !OccursAt(s, pat, j)
    ensures FindFrom(s, pat, from).None? ==> forall j :: from <= j ==> !OccursAt(s, pat, j)
    decreases |s| - from
  {
    if from + |pat| <= |s| && s[from..from + |pat|] != pat {
      FindFromIsFirst(s, pat, from + 1);
    }
  }

  /** No match at `from` moves the search one place on. */
  lemma FindFromStep(s: string, pat: string, from: nat)
    requires from + |pat| <= |s| && s[from..from + |pat|] != pat
    ensures FindFrom(s, pat, from) == FindFrom(s, pat, from + 1)
  {
  }

  /** `s.indexOf(pat)`, with `None` for -1. */
  function IndexOf(s: string, pat: string): Option<nat>
  {
    FindFrom(s, pat, 0)
  }

  /** `s.replace(pat, rep)` for a string pattern: only the first occurrence. */
  function ReplaceFirst(s: string, pat: string, rep: string): string
  {
    match IndexOf(s, pat)
    case None => s
    case Some(k) => s[..k] + rep + s[k + |pat|..]
  }

  /** `s.substring(0, n)`. */
  function Take(s: string, n: nat): (r: string)
    ensures |r| <= n && StartsWith(s, r)
    ensures |r| == if n <= |s| then n else |s|
  {
    if n <= |s| then s[..n] else s
  }

  /** The characters `String.prototype.trim` removes: ECMAScript WhiteSpace and LineTerminator. */
  predicate IsJsWhitespace(c: char)
  {
    || c == '\t' || c == '\n' || c == '\U{000B}' || c == '\U{000C}' || c == '\r' || c == ' '
    || c == '\U{00A0}' || c == '\U{1680}' || ('\U{2000}' <= c <= '\U{200A}')
    || c == '\U{2028}' || c == '\U{2029}' || c == '\U{202F}' || c == '\U{205F}'
    || c == '\U{3000}' || c == '\U{FEFF}'
  }

  function TrimStart(s: string): (r: string)
    ensures r == [] || !IsJsWhitespace(r[0])
    ensures |r| <= |s| && r == s[|s| - |r|..]
    ensures forall j :: 0 <= j < |s| - |r| ==> IsJsWhitespace(s[j])
    decreases |s|
  {
    if s != [] && IsJsWhitespace(s[0]) then TrimStart(s[1..]) else s
  }

  function TrimEnd(s: string): (r: string)
    ensures r == [] || !IsJsWhitespace(r[|r| - 1])
    ensures |r| <= |s| && r == s[..|r|]
    ensures forall j :: |r| <= j < |s| ==> IsJsWhitespace(s[j])
    decreases |s|
  {
    if s != [] && IsJsWhitespace(s[|s| - 1]) then TrimEnd(s[..|s| - 1]) else s
  }

  /** `s.trim()`. */
  function Trim(s: string): string
  {
    TrimEnd(TrimStart(s))
  }

  // ---------------------------------------------------------------------
  // split and join are inverse to each other

  lemma {:induction false} SplitPrefix(a: string, t: string, sep: char)
    requires sep !in a
    ensures Split(a + t, sep) == [a + Split(t, sep)[0]] + Split(t, sep)[1..]
    decreases |a|
  {
    if a == [] {
      var x := Split(t, sep);
      assert a + t == t && a + x[0] == x[0];
      assert x == [x[0]] + x[1..];
    } else {
      var x := Split(t, sep);
      var s := a + t;
      assert a[0] in a;
      assert s[0] == a[0] && s[1..] == a[1..] + t;
      SplitPrefix(a[1..], t, sep);
      var rest := Split(a[1..] + t, sep);
      assert rest == [a[1..] + x[0]] + x[1..];
      SplitStep(s, sep);
      assert [a[0]] + (a[1..] + x[0]) == ([a[0]] + a[1..]) + x[0];
      assert [a[0]] + a[1..] == a;
    }
  }

  /** A first character other than the separator joins the first part. */
  lemma SplitStep(s: string, sep: char)
    requires s != [] && s[0] != sep
    ensures Split(s, sep) == [[s[0]] + Split(s[1..], sep)[0]] + Split(s[1..], sep)[1..]
  {
  }

  /** A part put in front of at least one other part is joined to them by one separator. */
  lemma JoinCons(x: string, parts: seq<string>, sep: char)
    requires |parts| >= 1
    ensures Join([x] + parts, sep) == x + [sep] + Join(parts, sep)
  {
    var q := [x] + parts;
    assert q[0] == x && q[1..] == parts;
  }

  /** Putting a character in front of the first part puts it in front of the join. */
  lemma JoinConsHead(c: char, parts: seq<string>, sep: char)
    requires |parts| >= 1
    ensures Join([[c] + parts[0]] + parts[1..], sep) == [c] + Join(parts, sep)
  {
    var q := [[c] + parts[0]] + parts[1..];
    assert q[0] == [c] + parts[0] && q[1..] == parts[1..];
    if |parts| > 1 {
      assert Join(q, sep) == ([c] + parts[0]) + [sep] + Join(parts[1..], sep);
      assert Join(parts, sep) == parts[0] + [sep] + Join(parts[1..], sep);
    }
  }

  /** A separator-free piece followed by a separator splits off as one part. */
  lemma SplitCons(a: string, t: string, sep: char)
    requires sep !in a
    ensures Split(a + [sep] + t, sep) == [a] + Split(t, sep)
  {
    assert a + [sep] + t == a + ([sep] + t);
    SplitPrefix(a, [sep] + t, sep);
    assert ([sep] + t)[0] == sep && ([sep] + t)[1..] == t;
    assert Split([sep] + t, sep) == [[]] + Split(t, sep);
    assert a + [] == a;
  }

  lemma SplitNoSep(a: string, sep: char)
    requires sep !in a
    ensures Split(a, sep) == [a]
  {
    assert a + [] == a;
    SplitPrefix(a, [], sep);
  }

  /** Joining the parts of a split gives back the string. */
  lemma {:induction false} JoinSplit(s: string, sep: char)
    ensures Join(Split(s, sep), sep) == s
    decreases |s|
  {
    if s == [] {
    } else if s[0] == sep {
      JoinSplit(s[1..], sep);
      var rest := Split(s[1..], sep);
      var parts := [[]] + rest;
      assert parts[0] == [] && parts[1..] == rest;
      assert Join(parts, sep) == [] + [sep] + Join(rest, sep);
      assert [] + [sep] + s[1..] == s;
    } else {
      JoinSplit(s[1..], sep);
      SplitStep(s, sep);
      JoinConsHead(s[0], Split(s[1..], sep), sep);
      assert [s[0]] + s[1..] == s;
    }
  }

  /** Splitting a join of separator-free parts gives back the parts. */
  lemma {:induction false} SplitJoin(parts: seq<string>, sep: char)
    requires |parts| >= 1
    requires forall k :: 0 <= k < |parts| ==> sep !in parts[k]
    ensures Split(Join(parts, sep), sep) == parts
    decreases |parts|
  {
    if |parts| == 1 {
      SplitNoSep(parts[0], sep);
    } else {
      SplitJoin(parts[1..], sep);
      SplitCons(parts[0], Join(parts[1..], sep), sep);
    }
  }

  // ---------------------------------------------------------------------
  // searching in a concatenation

  /** An index found in `s`, moved by `n`. */
  function Shift(r: Option<nat>, n: nat): Option<nat>
  {
    match r
    case None => None
    case Some(k) => Some(n + k)
  }

  /**
   * When `pat` cannot start inside `p`, its first occurrence in `p + s` is its
   * first occurrence in `s`, shifted by `|p|`.
   */
  lemma {:induction false} FindAfterPrefix(p: string, s: string, pat: string, from: nat)
    requires from <= |p|
    requires |pat| > 0
    requires forall j :: from <= j < |p| ==> !OccursAt(p + s, pat, j)
    ensures FindFrom(p + s, pat, from) == Shift(IndexOf(s, pat), |p|)
    decreases |p| - from
  {
    if from < |p| {
      FindAfterPrefix(p, s, pat, from + 1);
    } else {
      ShiftFind(p, s, pat, 0);
    }
  }

  lemma {:induction false} ShiftFind(p: string, s: string, pat: string, i: nat)
    requires |pat| > 0
    ensures FindFrom(p + s, pat, |p| + i) == Shift(FindFrom(s, pat, i), |p|)
    decreases |s| - i
  {
    var q := p + s;
    var j := |p| + i;
    if i + |pat| > |s| {
      assert FindFrom(q, pat, j) == None;
      assert FindFrom(s, pat, i) == None;
      assert Shift(None, |p|) == None;
    } else {
      assert q[j..j + |pat|] == s[i..i + |pat|];
      if s[i..i + |pat|] != pat {
        FindFromStep(q, pat, j);
        FindFromStep(s, pat, i);
        ShiftFind(p, s, pat, i + 1);
        assert |p| + (i + 1) == j + 1;
      } else {
        assert FindFrom(q, pat, j) == Some(j);
        assert FindFrom(s, pat, i) == Some(i);
        assert Shift(Some(i), |p|) == Some(j);
      }
    }
  }

  /** A replacement whose pattern cannot start inside `p` leaves `p` alone. */
  lemma ReplaceAfterPrefix(p: string, s: string, pat: string, rep: string)
    requires |pat| > 0
    requires forall j :: 0 <= j < |p| ==> !OccursAt(p + s, pat, j)
    ensures ReplaceFirst(p + s, pat, rep) == p + ReplaceFirst(s, pat, rep)
  {
    FindAfterPrefix(p, s, pat, 0);
    if IndexOf(s, pat).Some? {
      ReplaceShifted(p, s, pat, rep, IndexOf(s, pat).value);
    }
  }

  lemma ReplaceShifted(p: string, s: string, pat: string, rep: string, k: nat)
    requires IndexOf(s, pat) == Some(k) && IndexOf(p + s, pat) == Some(|p| + k)
    ensures ReplaceFirst(p + s, pat, rep) == p + ReplaceFirst(s, pat, rep)
  {
    var q := p + s;
    ReplaceAt(s, pat, rep, k);
    ReplaceAt(q, pat, rep, |p| + k);
    var before, after := s[..k], s[k + |pat|..];
    SlicesOfAppend(p, s, k, k + |pat|);
    assert ReplaceFirst(q, pat, rep) == (p + before) + rep + after;
    AppendAssoc(p, before, rep, after);
  }

  /** Where the pattern is found, it is cut out and the replacement put in its place. */
  lemma ReplaceAt(s: string, pat: string, rep: string, k: nat)
    requires IndexOf(s, pat) == Some(k)
    ensures k + |pat| <= |s| && ReplaceFirst(s, pat, rep) == s[..k] + rep + s[k + |pat|..]
  {
  }

  lemma SlicesOfAppend(p: string, s: string, a: nat, b: nat)
    requires a <= b <= |s|
    ensures (p + s)[..|p| + a] == p + s[..a]
    ensures (p + s)[|p| + b..] == s[b..]
  {
  }

  lemma AppendAssoc(a: string, b: string, c: string, d: string)
    ensures (a + b) + c + d == a + (b + c + d)
  {
  }
}
