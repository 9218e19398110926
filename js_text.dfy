/** The parts of JavaScript's String built-ins that the font code relies on:
    `\s` and `trim`, ASCII case mapping, `includes`/`indexOf`, `replace` of a
    first occurrence or of every maximal run of a character class, `endsWith`,
    `split` on one character and `join`. */
module JsText {
  import opened Wrappers

  /** A code point matched by `\s` and removed by `trim`: the WhiteSpace and
      LineTerminator code points of ECMA-262 (section 12.2 and 12.3). */
  predicate IsSpace(c: char) {
    || c == '\t' || c == '\n' || c == '\U{B}' || c == '\U{C}' || c == '\r' || c == ' '
    || c == '\U{A0}' || c == '\U{1680}' || ('\U{2000}' <= c <= '\U{200A}')
    || c == '\U{2028}' || c == '\U{2029}' || c == '\U{202F}' || c == '\U{205F}'
    || c == '\U{3000}' || c == '\U{FEFF}'
  }

  predicate IsAsciiUpper(c: char) { 'A' <= c <= 'Z' }

  predicate IsAsciiLower(c: char) { 'a' <= c <= 'z' }

  predicate IsAsciiDigit(c: char) { '0' <= c <= '9' }

  /** `toLowerCase` of one character, for the ASCII letters. */
  function LowerChar(c: char): (r: char)
    ensures !IsAsciiUpper(r)
    ensures r == c || (IsAsciiUpper(c) && IsAsciiLower(r))
    ensures IsSpace(r) == IsSpace(c)
  {
    if IsAsciiUpper(c) then (c as int + 32) as char else c
  }

  /** `toUpperCase` of one character, for the ASCII letters. */
  function UpperChar(c: char): (r: char)
    ensures !IsAsciiLower(r)
    ensures r == c || (IsAsciiLower(c) && IsAsciiUpper(r))
    ensures IsSpace(r) == IsSpace(c)
  {
    if IsAsciiLower(c) then (c as int - 32) as char else c
  }

  function ToLower(s: string): string {
    seq(|s|, i requires 0 <= i < |s| => LowerChar(s[i]))
  }

  function ToUpper(s: string): string {
    seq(|s|, i requires 0 <= i < |s| => UpperChar(s[i]))
  }

  /** `t` occurs in `s` starting at position `k`. */
  predicate OccursAt(s: string, t: string, k: nat) {
    k + |t| <= |s| && s[k..k + |t|] == t
  }

  /** An occurrence past the first character is an occurrence in the tail. */
  lemma OccursInTail(s: string, t: string)
    requires s != []
    ensures forall k: nat {:trigger OccursAt(s, t, k)} :: 1 <= k <= |s| ==> OccursAt(s, t, k) == OccursAt(s[1..], t, k - 1)
  {
    forall k: nat | 1 <= k <= |s| ensures OccursAt(s, t, k) == OccursAt(s[1..], t, k - 1) {
      if k + |t| <= |s| {
        var u, v := s[k..k + |t|], s[1..][k - 1..k - 1 + |t|];
        assert |u| == |v|;
        assert forall m :: 0 <= m < |u| ==> u[m] == s[k + m] == v[m];
      }
    }
  }

  /** `s.indexOf(t)`: the first position where `t` occurs in `s`, None for -1. */
  function IndexOf(s: string, t: string): (r: Option<nat>)
    ensures r.Some? ==> OccursAt(s, t, r.value)
    ensures r.Some? ==> forall k :: 0 <= k < r.value ==> !OccursAt(s, t, k)
    ensures r.None? ==> forall k :: 0 <= k <= |s| ==> !OccursAt(s, t, k)
    decreases |s|
  {
    if OccursAt(s, t, 0) then Some(0)
    else if s == [] then None
    else
      var r' := IndexOf(s[1..], t);
      OccursInTail(s, t);
      match r'
      case None => None
      case Some(i) => Some(i + 1)
  }

  /** `s.includes(t)`. */
  predicate Includes(s: string, t: string) {
    IndexOf(s, t).Some?
  }

  /** A position found in a suffix, seen from `n` characters earlier. */
  function Shift(r: Option<nat>, n: nat): Option<nat> {
    match r
    case None => None
    case Some(i) => Some(i + n)
  }

  /** Where the pattern does not start at the first character, it is looked
      for one character further on. */
  lemma IndexOfPastFirst(s: string, t: string)
    requires s != [] && |t| > 0 && t[0] != s[0]
    ensures IndexOf(s, t) == Shift(IndexOf(s[1..], t), 1)
  {
    assert !OccursAt(s, t, 0);
  }

  /** A pattern whose first character is missing from a prefix is found in
      what follows it, shifted by the prefix. */
  lemma {:induction false} IndexOfSkip(a: string, b: string, t: string)
    requires |t| > 0 && t[0] !in a
    ensures IndexOf(a + b, t) == Shift(IndexOf(b, t), |a|)
    decreases |a|
  {
    if a == [] {
      assert a + b == b;
      assert Shift(IndexOf(b, t), 0) == IndexOf(b, t);
    } else {
      var rest := a[1..];
      var ab := a + b;
      assert ab[1..] == rest + b;
      IndexOfSkip(rest, b, t);
      IndexOfPastFirst(ab, t);
      var r0 := IndexOf(b, t);
      var r1 := IndexOf(rest + b, t);
      assert r1 == Shift(r0, |rest|);
      assert IndexOf(ab, t) == Shift(r1, 1);
    }
  }

  /** `s.replace(pattern, replacement)` with a string pattern: only the first
      occurrence is replaced. */
  function ReplaceFirst(s: string, pattern: string, replacement: string): string {
    match IndexOf(s, pattern)
    case None => s
    case Some(i) => s[..i] + replacement + s[i + |pattern|..]
  }

  /** `s.endsWith(suffix)`. */
  predicate EndsWith(s: string, suffix: string) {
    |suffix| <= |s| && s[|s| - |suffix|..] == suffix
  }

  /** `s` without its leading run of characters of the class `inRun`. */
  function DropRun(s: string, inRun: char -> bool): (r: string)
    ensures |r| <= |s| && r == s[|s| - |r|..]
    ensures r == [] || !inRun(r[0])
    ensures forall i :: 0 <= i < |s| - |r| ==> inRun(s[i])
    ensures s != [] && inRun(s[0]) ==> |r| < |s|
  {
    if s != [] && inRun(s[0]) then DropRun(s[1..], inRun) else s
  }

  /** `s.replace(/C+/g, x)` where `C` is the character class `inRun`: every
      maximal run of class characters becomes the single character `x`. */
  function ReplaceRuns(s: string, inRun: char -> bool, x: char): string
    decreases |s|
  {
    if s == [] then []
    else if inRun(s[0]) then [x] + ReplaceRuns(DropRun(s, inRun), inRun, x)
    else [s[0]] + ReplaceRuns(s[1..], inRun, x)
  }

  /** When the replacement character is itself of the class, the result holds
      `x` and characters outside the class only, never two `x` in a row, and
      starts with `x` exactly when `s` starts with a class character. */
  lemma {:induction false} ReplaceRunsShape(s: string, inRun: char -> bool, x: char)
    requires inRun(x)
    ensures var r := ReplaceRuns(s, inRun, x);
      && (|r| == 0 <==> |s| == 0)
      && (forall i :: 0 <= i < |r| ==> r[i] == x || !inRun(r[i]))
      && (forall i :: 0 <= i < |r| - 1 && r[i] == x ==> r[i + 1] != x)
      && (|r| > 0 ==> (r[0] == x <==> inRun(s[0])))
    decreases |s|
  {
    if s == [] {
    } else if inRun(s[0]) {
      var d := DropRun(s, inRun);
      ReplaceRunsShape(d, inRun, x);
    } else {
      ReplaceRunsShape(s[1..], inRun, x);
    }
  }

  /** When the replacement character is outside the class, no class character
      is left. */
  lemma {:induction false} ReplaceRunsClassFree(s: string, inRun: char -> bool, x: char)
    requires !inRun(x)
    ensures forall i :: 0 <= i < |ReplaceRuns(s, inRun, x)| ==> !inRun(ReplaceRuns(s, inRun, x)[i])
    decreases |s|
  {
    if s != [] {
      var t := if inRun(s[0]) then DropRun(s, inRun) else s[1..];
      ReplaceRunsClassFree(t, inRun, x);
      var r := ReplaceRuns(s, inRun, x);
      var rest := ReplaceRuns(t, inRun, x);
      assert r == (if inRun(s[0]) then [x] else [s[0]]) + rest;
    }
  }

  /** A property that `x` and every character of `s` have, every character
      of the result has. */
  lemma {:induction false} ReplaceRunsKeeps(s: string, inRun: char -> bool, x: char, ok: char -> bool)
    requires ok(x)
    requires forall i :: 0 <= i < |s| ==> ok(s[i])
    ensures forall i :: 0 <= i < |ReplaceRuns(s, inRun, x)| ==> ok(ReplaceRuns(s, inRun, x)[i])
    decreases |s|
  {
    if s != [] {
      var t := if inRun(s[0]) then DropRun(s, inRun) else s[1..];
      var k := |s| - |t|;
      assert t == s[k..];
      forall i | 0 <= i < |t| ensures ok(t[i]) {
        assert t[i] == s[k + i];
      }
      ReplaceRunsKeeps(t, inRun, x, ok);
      var r := ReplaceRuns(s, inRun, x);
      var rest := ReplaceRuns(t, inRun, x);
      assert r == (if inRun(s[0]) then [x] else [s[0]]) + rest;
    }
  }

  /** A string without class characters is left as it is. */
  lemma {:induction false} ReplaceRunsNone(s: string, inRun: char -> bool, x: char)
    requires forall i :: 0 <= i < |s| ==> !inRun(s[i])
    ensures ReplaceRuns(s, inRun, x) == s
    decreases |s|
  {
    if s != [] {
      ReplaceRunsNone(s[1..], inRun, x);
      assert [s[0]] + s[1..] == s;
    }
  }

  /** A pattern whose first character does not occur in `a` is first found
      right after `a`. */
  lemma {:induction false} IndexOfAfter(a: string, t: string)
    requires |t| > 0 && t[0] !in a
    ensures IndexOf(a + t, t) == Some(|a|)
  {
    if a == [] {
      assert a + t == t;
    } else {
      IndexOfAfter(a[1..], t);
      assert (a + t)[1..] == a[1..] + t;
      assert !(t <= a + t) by { assert (a + t)[0] == a[0]; }
    }
  }

  /** ... and replacing it with nothing gives `a` back. */
  lemma {:induction false} ReplaceFirstAfter(a: string, t: string)
    requires |t| > 0 && t[0] !in a
    ensures ReplaceFirst(a + t, t, "") == a
  {
    IndexOfAfter(a, t);
    assert (a + t)[..|a|] == a;
    assert (a + t)[|a| + |t|..] == [];
    assert a + "" + [] == a;
  }

  /** `s.trim()`: the WhiteSpace and LineTerminator code points removed at both ends. */
  function Trim(s: string): (r: string)
    ensures r == [] || (!IsSpace(r[0]) && !IsSpace(r[|r| - 1]))
  {
    TrimEnd(DropRun(s, IsSpace))
  }

  function TrimEnd(s: string): (r: string)
    ensures |r| <= |s| && r == s[..|r|]
    ensures r == [] || !IsSpace(r[|r| - 1])
    ensures r != [] && s != [] ==> r[0] == s[0]
  {
    if s != [] && IsSpace(s[|s| - 1]) then TrimEnd(s[..|s| - 1]) else s
  }

  /** `s.split(sep)` for a one-character separator: never empty, and no piece
      holds the separator. */
  function Split(s: string, sep: char): (parts: seq<string>)
    ensures |parts| >= 1
    ensures forall i :: 0 <= i < |parts| ==> sep !in parts[i]
  {
    if s == [] then [""]
    else
      var rest := Split(s[1..], sep);
      if s[0] == sep then [""] + rest
      else [[s[0]] + rest[0]] + rest[1..]
  }

  /** `parts.join(sep)`. */
  function Join(parts: seq<string>, sep: string): string {
    if |parts| == 0 then ""
    else if |parts| == 1 then parts[0]
    else parts[0] + sep + Join(parts[1..], sep)
  }

  /** `s.split(sep).pop()`: the piece after the last separator. */
  function LastPiece(s: string, sep: char): string {
    var parts := Split(s, sep);
    parts[|parts| - 1]
  }

  /** A string without the separator splits into itself alone. */
  lemma {:induction false} SplitWithoutSeparator(s: string, sep: char)
    requires sep !in s
    ensures Split(s, sep) == [s]
  {
    if s != [] {
      SplitWithoutSeparator(s[1..], sep);
      assert [s[0]] + s[1..] == s;
    }
  }

  /** Splitting distributes over a separator. */
  lemma {:induction false} SplitAround(a: string, b: string, sep: char)
    ensures Split(a + [sep] + b, sep) == Split(a, sep) + Split(b, sep)
  {
    if a == [] {
      assert a + [sep] + b == [sep] + b;
      assert ([sep] + b)[1..] == b;
    } else {
      assert (a + [sep] + b)[1..] == a[1..] + [sep] + b;
      SplitAround(a[1..], b, sep);
    }
  }

  /** `split` undoes `join` when no piece holds the separator. */
  lemma {:induction false} SplitJoin(parts: seq<string>, sep: char)
    requires |parts| >= 1
    requires forall i :: 0 <= i < |parts| ==> sep !in parts[i]
    ensures Split(Join(parts, [sep]), sep) == parts
  {
    if |parts| == 1 {
      SplitWithoutSeparator(parts[0], sep);
    } else {
      SplitJoin(parts[1..], sep);
      SplitWithoutSeparator(parts[0], sep);
      SplitAround(parts[0], Join(parts[1..], [sep]), sep);
      assert [parts[0]] + parts[1..] == parts;
    }
  }

  /** `join` undoes `split`. */
  lemma {:induction false} JoinSplit(s: string, sep: char)
    ensures Join(Split(s, sep), [sep]) == s
  {
    if s != [] {
      JoinSplit(s[1..], sep);
      var rest := Split(s[1..], sep);
      if s[0] == sep {
        assert ([""] + rest)[1..] == rest;
      } else {
        assert ([[s[0]] + rest[0]] + rest[1..])[1..] == rest[1..];
        if |rest| > 1 {
          assert rest == [rest[0]] + rest[1..];
        }
      }
    }
  }

  /** Every character of a join comes from a part or from the separator. */
  lemma {:induction false} JoinChars(parts: seq<string>, sep: string, ok: char -> bool)
    requires forall i, j :: 0 <= i < |parts| && 0 <= j < |parts[i]| ==> ok(parts[i][j])
    requires forall j :: 0 <= j < |sep| ==> ok(sep[j])
    ensures forall k :: 0 <= k < |Join(parts, sep)| ==> ok(Join(parts, sep)[k])
  {
    if |parts| > 1 {
      JoinChars(parts[1..], sep, ok);
      var rest := Join(parts[1..], sep);
      var r := parts[0] + sep + rest;
      forall k | 0 <= k < |r| ensures ok(r[k]) {
        if k < |parts[0]| {
          assert r[k] == parts[0][k];
        } else if k < |parts[0]| + |sep| {
          assert r[k] == sep[k - |parts[0]|];
        } else {
          assert r[k] == rest[k - |parts[0]| - |sep|];
        }
      }
    } else if |parts| == 1 {
      assert forall j :: 0 <= j < |parts[0]| ==> ok(parts[0][j]);
    }
  }

  /** The last piece is what follows the last separator. */
  lemma {:induction false} LastPieceAfterSeparator(a: string, b: string, sep: char)
    requires sep !in b
    ensures LastPiece(a + [sep] + b, sep) == b
  {
    SplitAround(a, b, sep);
    SplitWithoutSeparator(b, sep);
  }
}
