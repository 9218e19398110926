/** Integers to text and back, as JavaScript does it: `Number.prototype.toString(radix)`,
    `String(n)`, `Array.prototype.join` of numbers, and `parseInt` (ECMA-262 section 19.2.5). */
module JsNumber {
  import opened Wrappers
  import opened JsText

  /** The value of `c` as a digit of a radix up to 36, letters of either case. */
  function DigitValue(c: char): Option<nat> {
    if '0' <= c <= '9' then Some(c as int - '0' as int)
    else if 'a' <= c <= 'z' then Some(c as int - 'a' as int + 10)
    else if 'A' <= c <= 'Z' then Some(c as int - 'A' as int + 10)
    else None
  }

  predicate IsDigitIn(c: char, radix: nat) {
    DigitValue(c).Some? && DigitValue(c).value < radix
  }

  /** The digit character of `d` in `toString(radix)`: lower-case letters past 9. */
  function DigitChar(d: nat): (c: char)
    requires d < 36
    ensures DigitValue(c) == Some(d)
    ensures !IsSpace(c) && c != '-' && c != '+' && !IsAsciiUpper(c)
  {
    if d < 10 then ('0' as int + d) as char else ('a' as int + d - 10) as char
  }

  /** `n.toString(radix)` for a non-negative integer: at least one digit, and
      nothing but digits of that radix. */
  function NatToString(n: nat, radix: nat): (s: string)
    requires 2 <= radix <= 36
    ensures |s| >= 1
    ensures forall i :: 0 <= i < |s| ==> IsDigitIn(s[i], radix) && !IsSpace(s[i]) && s[i] != '-'
    decreases n
  {
    if n < radix then [DigitChar(n)]
    else
      DivisionStep(n, radix);
      var prefix := NatToString(n / radix, radix);
      var s := prefix + [DigitChar(n % radix)];
      assert forall i :: 0 <= i < |prefix| ==> s[i] == prefix[i];
      s
  }

  /** `String(n)` for an integer. */
  function IntToString(n: int): string {
    if n < 0 then "-" + NatToString(-n, 10) else NatToString(n, 10)
  }

  /** The length of the longest prefix of `s` made of digits of `radix`. */
  function DigitRunLength(s: string, radix: nat): (k: nat)
    ensures k <= |s|
    ensures forall i :: 0 <= i < k ==> IsDigitIn(s[i], radix)
    ensures k < |s| ==> !IsDigitIn(s[k], radix)
  {
    if s != [] && IsDigitIn(s[0], radix) then 1 + DigitRunLength(s[1..], radix) else 0
  }

  /** The value of a string of digits, most significant first. */
  function DigitsValue(ds: string, radix: nat): nat
    requires forall i :: 0 <= i < |ds| ==> IsDigitIn(ds[i], radix)
  {
    if ds == [] then 0
    else
      var last := ds[|ds| - 1];
      var init := ds[..|ds| - 1];
      assert IsDigitIn(last, radix);
      assert forall i :: 0 <= i < |init| ==> IsDigitIn(init[i], radix) by {
        forall i | 0 <= i < |init| ensures IsDigitIn(init[i], radix) {
          assert init[i] == ds[i];
        }
      }
      var high: nat := DigitsValue(init, radix);
      var low: nat := DigitValue(last).value;
      Product(high, radix);
      high * radix + low
  }

  /** `parseInt(s, radix)`, None standing for NaN: leading white space is
      skipped, one sign is read, then the longest run of digits; no digit at
      all is NaN. (With an explicit radix other than 16 no "0x" is stripped.) */
  function ParseIntRadix(s: string, radix: nat): Option<int>
    requires 2 <= radix <= 36
  {
    var t := DropRun(s, IsSpace);
    if t != [] && t[0] == '-' then
      match LeadingDigits(t[1..], radix)
      case None => None
      case Some(v) => Some(-(v as int))
    else if t != [] && t[0] == '+' then
      match LeadingDigits(t[1..], radix)
      case None => None
      case Some(v) => Some(v as int)
    else
      match LeadingDigits(t, radix)
      case None => None
      case Some(v) => Some(v as int)
  }

  /** The value of the longest run of digits at the start of `u`; None when
      `u` does not start with a digit. */
  function LeadingDigits(u: string, radix: nat): Option<nat> {
    var k := DigitRunLength(u, radix);
    if k == 0 then None else Some(DigitsValue(u[..k], radix))
  }

  /** `parseInt(s, 10)`. */
  function ParseInt(s: string): Option<int> {
    ParseIntRadix(s, 10)
  }

  lemma {:induction false} DigitsValueOfNatToString(n: nat, radix: nat)
    requires 2 <= radix <= 36
    ensures DigitsValue(NatToString(n, radix), radix) == n
    decreases n
  {
    if n < radix {
      var s := NatToString(n, radix);
      assert s == [DigitChar(n)];
      assert s[..0] == [];
      assert DigitsValue(s, radix) == DigitsValue([], radix) * radix + n;
    } else {
      var q, d := n / radix, n % radix;
      DivisionStep(n, radix);
      var prefix := NatToString(q, radix);
      var s := prefix + [DigitChar(d)];
      assert s == NatToString(n, radix);
      assert s[..|s| - 1] == prefix;
      assert DigitsValue(s, radix) == DigitsValue(prefix, radix) * radix + d;
      DigitsValueOfNatToString(q, radix);
      DivisionIdentity(n, radix);
    }
  }

  lemma Product(a: nat, b: nat)
    ensures a * b >= 0
  {
  }

  lemma {:induction false} DivisionIdentity(n: nat, radix: nat)
    requires radix > 0
    ensures (n / radix) * radix + n % radix == n
  {
  }

  lemma {:induction false} DivisionStep(n: nat, radix: nat)
    requires 2 <= radix <= n
    ensures n / radix < n && n % radix < radix
  {
  }

  lemma {:induction false} DigitRunOfDigits(s: string, rest: string, radix: nat)
    requires forall i :: 0 <= i < |s| ==> IsDigitIn(s[i], radix)
    requires rest == [] || !IsDigitIn(rest[0], radix)
    ensures DigitRunLength(s + rest, radix) == |s|
    decreases |s|
  {
    if s != [] {
      assert (s + rest)[1..] == s[1..] + rest;
      DigitRunOfDigits(s[1..], rest, radix);
    }
  }

  /** A run of digits followed by a non-digit reads as the run's value, with
      or without a leading minus sign. */
  lemma {:induction false} LeadingDigitRun(d: string, tail: string, radix: nat)
    requires |d| >= 1 && forall i :: 0 <= i < |d| ==> IsDigitIn(d[i], radix)
    requires tail == [] || !IsDigitIn(tail[0], radix)
    ensures LeadingDigits(d + tail, radix) == Some(DigitsValue(d, radix))
  {
    DigitRunOfDigits(d, tail, radix);
    assert (d + tail)[..|d|] == d;
  }

  /** A digit is neither white space nor a sign. */
  lemma DigitIsNotSign(c: char, radix: nat)
    requires IsDigitIn(c, radix)
    ensures !IsSpace(c) && c != '-' && c != '+'
  {
  }

  lemma {:induction false} ParseDigitRun(d: string, tail: string, radix: nat)
    requires 2 <= radix <= 36
    requires |d| >= 1 && forall i :: 0 <= i < |d| ==> IsDigitIn(d[i], radix)
    requires tail == [] || !IsDigitIn(tail[0], radix)
    ensures ParseIntRadix(d + tail, radix) == Some(DigitsValue(d, radix) as int)
  {
    var m := d + tail;
    LeadingDigitRun(d, tail, radix);
    assert m[0] == d[0];
    DigitIsNotSign(d[0], radix);
    assert DropRun(m, IsSpace) == m;
  }

  lemma {:induction false} NegativeDigitRun(d: string, tail: string, radix: nat)
    requires 2 <= radix <= 36
    requires |d| >= 1 && forall i :: 0 <= i < |d| ==> IsDigitIn(d[i], radix)
    requires tail == [] || !IsDigitIn(tail[0], radix)
    ensures ParseIntRadix("-" + d + tail, radix) == Some(-(DigitsValue(d, radix) as int))
  {
    var m := "-" + d + tail;
    LeadingDigitRun(d, tail, radix);
    assert m[0] == '-';
    assert !IsSpace(m[0]);
    var t := DropRun(m, IsSpace);
    assert t == m;
    assert m[1..] == d + tail;
    assert LeadingDigits(t[1..], radix) == Some(DigitsValue(d, radix));
  }

  /** `parseInt(n.toString(radix), radix)` gives `n` back. */
  lemma {:induction false} NatToStringRoundTrip(n: nat, radix: nat)
    requires 2 <= radix <= 36
    ensures ParseIntRadix(NatToString(n, radix), radix) == Some(n)
  {
    var s := NatToString(n, radix);
    ParseDigitRun(s, [], radix);
    assert s + [] == s;
    DigitsValueOfNatToString(n, radix);
  }

  /** `parseInt(String(n), 10)` gives `n` back, negative numbers included. */
  lemma {:induction false} IntToStringRoundTrip(n: int)
    ensures ParseInt(IntToString(n)) == Some(n)
  {
    var d := NatToString(if n < 0 then -n else n, 10);
    ParseDigitRun(d, [], 10);
    NegativeDigitRun(d, [], 10);
    assert d + [] == d;
    assert "-" + d + [] == "-" + d;
    DigitsValueOfNatToString(if n < 0 then -n else n, 10);
  }

  /** `parseInt` stops at the first character that is not a digit. */
  lemma {:induction false} ParseIntIgnoresTail(n: nat, tail: string)
    requires tail == [] || !IsDigitIn(tail[0], 10)
    ensures ParseInt(NatToString(n, 10) + tail) == Some(n)
  {
    ParseDigitRun(NatToString(n, 10), tail, 10);
    DigitsValueOfNatToString(n, 10);
  }

  /** The decimal strings of a list of numbers. */
  function Decimals(weights: seq<int>): (ss: seq<string>)
    ensures |ss| == |weights|
  {
    seq(|weights|, i requires 0 <= i < |weights| => IntToString(weights[i]))
  }

  /** `weights.join(sep)`. */
  function WeightList(weights: seq<int>, sep: char): string {
    Join(Decimals(weights), [sep])
  }

  /** Every piece read with `parseInt`; None when a piece is NaN. */
  function ParseEach(pieces: seq<string>): (r: Option<seq<int>>)
    ensures r.Some? ==> |r.value| == |pieces|
  {
    if pieces == [] then Some([])
    else match (ParseInt(pieces[0]), ParseEach(pieces[1..]))
      case (Some(w), Some(ws)) => Some([w] + ws)
      case _ => None
  }

  /** A list written by `join` read back: split on the separator, parse each piece. */
  function ParseWeightList(s: string, sep: char): Option<seq<int>> {
    ParseEach(Split(s, sep))
  }

  /** Pieces that each parse read as the list of their values. */
  lemma {:induction false} ParseEachAll(pieces: seq<string>, ws: seq<int>)
    requires |pieces| == |ws|
    requires forall i :: 0 <= i < |pieces| ==> ParseInt(pieces[i]) == Some(ws[i])
    ensures ParseEach(pieces) == Some(ws)
  {
    if pieces != [] {
      ParseEachAll(pieces[1..], ws[1..]);
      assert [ws[0]] + ws[1..] == ws;
    }
  }

  lemma {:induction false} ParseEachDecimals(weights: seq<int>)
    ensures ParseEach(Decimals(weights)) == Some(weights)
  {
    var ds := Decimals(weights);
    forall i | 0 <= i < |ds| ensures ParseInt(ds[i]) == Some(weights[i]) {
      IntToStringRoundTrip(weights[i]);
    }
    ParseEachAll(ds, weights);
  }

  lemma {:induction false} DecimalWithoutSeparator(n: int, sep: char)
    requires DigitValue(sep).None? && sep != '-'
    ensures sep !in IntToString(n)
  {
    var d := NatToString(if n < 0 then -n else n, 10);
    assert sep !in d;
  }

  /** A joined weight list holds only decimal digits, minus signs and the
      separator. */
  lemma {:induction false} WeightListChars(weights: seq<int>, sep: char)
    ensures forall k :: 0 <= k < |WeightList(weights, sep)| ==>
      var c := WeightList(weights, sep)[k]; IsAsciiDigit(c) || c == '-' || c == sep
  {
    var ds := Decimals(weights);
    var ok := (c: char) => IsAsciiDigit(c) || c == '-' || c == sep;
    forall i, j | 0 <= i < |ds| && 0 <= j < |ds[i]| ensures ok(ds[i][j]) {
      var n := weights[i];
      var d := NatToString(if n < 0 then -n else n, 10);
      if n < 0 {
        assert ds[i] == "-" + d;
        if j > 0 {
          assert ds[i][j] == d[j - 1];
          assert IsDigitIn(d[j - 1], 10);
        }
      } else {
        assert IsDigitIn(ds[i][j], 10);
      }
    }
    JoinChars(ds, [sep], ok);
  }

  /** A non-empty weight list joined with a separator that is neither a digit
      nor a minus sign reads back to the same weights. */
  lemma {:induction false} WeightListRoundTrip(weights: seq<int>, sep: char)
    requires |weights| >= 1
    requires DigitValue(sep).None? && sep != '-'
    ensures ParseWeightList(WeightList(weights, sep), sep) == Some(weights)
  {
    var ds := Decimals(weights);
    forall i | 0 <= i < |ds| ensures sep !in ds[i] {
      DecimalWithoutSeparator(weights[i], sep);
    }
    SplitJoin(ds, sep);
    ParseEachDecimals(weights);
  }
}
