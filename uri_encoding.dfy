/** `encodeURIComponent` (ECMA-262 section 19.2.6.5): every code point outside
    the unreserved set is written as the percent-escaped bytes of its UTF-8
    form (RFC 3629), with upper-case hexadecimal digits. A decoder is defined
    beside it as the partner of the round-trip lemma. */
module UriEncoding {
  import opened Wrappers

  type byte = b: int | 0 <= b < 256

  /** The characters `encodeURIComponent` leaves alone: ASCII letters and
      digits and `- _ . ! ~ * ' ( )`. */
  predicate IsUnreserved(c: char) {
    || ('A' <= c <= 'Z') || ('a' <= c <= 'z') || ('0' <= c <= '9')
    || c == '-' || c == '_' || c == '.' || c == '!' || c == '~' || c == '*'
    || c == '\'' || c == '(' || c == ')'
  }

  function HexDigit(d: nat): (c: char)
    requires d < 16
    ensures HexValue(c) == Some(d)
    ensures IsUnreserved(c) && c != '%'
  {
    if d < 10 then ('0' as int + d) as char else ('A' as int + d - 10) as char
  }

  /** The value of a hexadecimal digit of either case. */
  function HexValue(c: char): Option<nat> {
    if '0' <= c <= '9' then Some(c as int - '0' as int)
    else if 'A' <= c <= 'F' then Some(c as int - 'A' as int + 10)
    else if 'a' <= c <= 'f' then Some(c as int - 'a' as int + 10)
    else None
  }

  /** The UTF-8 bytes of one code point (RFC 3629 section 3). */
  function Utf8(c: char): (bs: seq<byte>)
    ensures 1 <= |bs| <= 4
  {
    var cp := c as int;
    if cp < 0x80 then [cp]
    else if cp < 0x800 then [0xC0 + cp / 64, 0x80 + cp % 64]
    else if cp < 0x10000 then [0xE0 + cp / 4096, 0x80 + (cp / 64) % 64, 0x80 + cp % 64]
    else [0xF0 + cp / 262144, 0x80 + (cp / 4096) % 64, 0x80 + (cp / 64) % 64, 0x80 + cp % 64]
  }

  /** The UTF-8 bytes of a whole string. */
  function Utf8String(s: string): seq<byte> {
    if s == [] then [] else Utf8(s[0]) + Utf8String(s[1..])
  }

  /** `%XY` for one byte. */
  function PercentByte(b: byte): string {
    ['%', HexDigit(b / 16), HexDigit(b % 16)]
  }

  function PercentBytes(bs: seq<byte>): (r: string)
    ensures |r| == 3 * |bs|
    ensures forall i :: 0 <= i < |r| ==> IsUnreserved(r[i]) || r[i] == '%'
  {
    if bs == [] then [] else PercentByte(bs[0]) + PercentBytes(bs[1..])
  }

  function EncodeChar(c: char): string {
    if IsUnreserved(c) then [c] else PercentBytes(Utf8(c))
  }

  /** `encodeURIComponent(s)`: only unreserved characters and `%` escapes. (A
      lone surrogate, which makes the built-in throw, is not a `char` here.) */
  function EncodeURIComponent(s: string): (r: string)
    ensures forall i :: 0 <= i < |r| ==> IsUnreserved(r[i]) || r[i] == '%'
  {
    if s == [] then [] else EncodeChar(s[0]) + EncodeURIComponent(s[1..])
  }

  /** Percent-decoding to bytes: `%XY` is one byte, an ASCII character is its
      own byte; anything else is malformed. */
  function PercentDecode(s: string): Option<seq<byte>>
    decreases |s|
  {
    if s == [] then Some([])
    else if s[0] == '%' then
      if |s| < 3 || HexValue(s[1]).None? || HexValue(s[2]).None? then None
      else
        var hi, lo := HexValue(s[1]).value, HexValue(s[2]).value;
        if hi >= 16 || lo >= 16 then None
        else match PercentDecode(s[3..])
          case None => None
          case Some(rest) => Some([hi * 16 + lo] + rest)
    else if s[0] as int < 0x80 then
      match PercentDecode(s[1..])
      case None => None
      case Some(rest) => Some([s[0] as int] + rest)
    else None
  }

  predicate IsContinuation(b: byte) { 0x80 <= b < 0xC0 }

  /** A code point the `char` type holds: not a surrogate, at most U+10FFFF. */
  predicate IsScalar(cp: int) { 0 <= cp < 0xD800 || 0xE000 <= cp < 0x110000 }

  /** The first code point of a UTF-8 byte sequence and the bytes after it. */
  function Utf8DecodeFirst(bs: seq<byte>): (r: Option<(char, seq<byte>)>)
    ensures r.Some? ==> |r.value.1| < |bs|
  {
    if bs == [] then None
    else
    var b0: int, b1: int, b2: int, b3: int :=
      bs[0], if |bs| > 1 then bs[1] else 0, if |bs| > 2 then bs[2] else 0, if |bs| > 3 then bs[3] else 0;
    if b0 < 0x80 then Some((b0 as char, bs[1..]))
    else if 0xC0 <= b0 < 0xE0 then
      if |bs| < 2 || !IsContinuation(b1) then None
      else
        var cp := (b0 - 0xC0) * 64 + (b1 - 0x80);
        if IsScalar(cp) then Some((cp as char, bs[2..])) else None
    else if 0xE0 <= b0 < 0xF0 then
      if |bs| < 3 || !IsContinuation(b1) || !IsContinuation(b2) then None
      else
        var cp := (b0 - 0xE0) * 4096 + (b1 - 0x80) * 64 + (b2 - 0x80);
        if IsScalar(cp) then Some((cp as char, bs[3..])) else None
    else if 0xF0 <= b0 < 0xF8 then
      if |bs| < 4 || !IsContinuation(b1) || !IsContinuation(b2) || !IsContinuation(b3) then None
      else
        var cp := (b0 - 0xF0) * 262144 + (b1 - 0x80) * 4096 + (b2 - 0x80) * 64 + (b3 - 0x80);
        if IsScalar(cp) then Some((cp as char, bs[4..])) else None
    else None
  }

  function Utf8Decode(bs: seq<byte>): Option<string>
    decreases |bs|
  {
    if bs == [] then Some([])
    else match Utf8DecodeFirst(bs)
      case None => None
      case Some((c, rest)) =>
        match Utf8Decode(rest)
        case None => None
        case Some(s) => Some([c] + s)
  }

  /** `decodeURIComponent` for what the encoder produces. */
  function DecodeURIComponent(s: string): Option<string> {
    match PercentDecode(s)
    case None => None
    case Some(bs) => Utf8Decode(bs)
  }

  /** The leading bytes of a character's UTF-8 form decode back to it. */
  lemma {:induction false} Utf8DecodeFirstOfChar(c: char, rest: seq<byte>)
    ensures Utf8DecodeFirst(Utf8(c) + rest) == Some((c, rest))
  {
    var cp := c as int;
    var bs := Utf8(c) + rest;
    if cp < 0x80 {
      assert bs[1..] == rest;
    } else if cp < 0x800 {
      assert bs[2..] == rest;
      assert (cp / 64) * 64 + cp % 64 == cp;
    } else if cp < 0x10000 {
      assert bs[3..] == rest;
      Split3(cp);
    } else {
      assert bs[4..] == rest;
      Split4(cp);
    }
  }

  lemma {:induction false} Split3(cp: nat)
    ensures (cp / 4096) * 4096 + ((cp / 64) % 64) * 64 + cp % 64 == cp
  {
    var q := cp / 64;
    assert q * 64 + cp % 64 == cp;
    assert (q / 64) * 64 + q % 64 == q;
    assert cp / 4096 == q / 64;
  }

  lemma {:induction false} Split4(cp: nat)
    ensures (cp / 262144) * 262144 + ((cp / 4096) % 64) * 4096 + ((cp / 64) % 64) * 64 + cp % 64 == cp
  {
    var q := cp / 4096;
    Split3(cp);
    assert (q / 64) * 64 + q % 64 == q;
    assert cp / 262144 == q / 64;
  }

  lemma {:induction false} Utf8DecodeOfString(s: string)
    ensures Utf8Decode(Utf8String(s)) == Some(s)
  {
    if s != [] {
      Utf8DecodeFirstOfChar(s[0], Utf8String(s[1..]));
      Utf8DecodeOfString(s[1..]);
      assert [s[0]] + s[1..] == s;
    }
  }

  lemma {:induction false} PercentDecodeConcat(a: string, b: string, x: seq<byte>, y: seq<byte>)
    requires PercentDecode(a) == Some(x) && PercentDecode(b) == Some(y)
    ensures PercentDecode(a + b) == Some(x + y)
    decreases |a|
  {
    if a == [] {
      assert a + b == b;
      assert x + y == y;
    } else if a[0] == '%' {
      var rest := PercentDecode(a[3..]).value;
      PercentDecodeConcat(a[3..], b, rest, y);
      PercentEscapeConcat(a, b, rest, y);
    } else {
      var rest := PercentDecode(a[1..]).value;
      PercentDecodeConcat(a[1..], b, rest, y);
      AsciiConcat(a, b, rest, y);
    }
  }

  /** One step of `PercentDecodeConcat` over a leading `%XY`. */
  lemma PercentEscapeConcat(a: string, b: string, rest: seq<byte>, y: seq<byte>)
    requires a != [] && a[0] == '%' && PercentDecode(a).Some?
    requires PercentDecode(a[3..]) == Some(rest)
    requires PercentDecode(a[3..] + b) == Some(rest + y)
    ensures PercentDecode(a + b) == Some(PercentDecode(a).value + y)
  {
    var ab := a + b;
    assert ab[0] == '%' && ab[1] == a[1] && ab[2] == a[2];
    assert ab[3..] == a[3..] + b;
    var hi, lo := HexValue(a[1]).value, HexValue(a[2]).value;
    assert PercentDecode(a).value == [hi * 16 + lo] + rest;
    assert PercentDecode(ab) == Some([hi * 16 + lo] + (rest + y));
    assert [hi * 16 + lo] + (rest + y) == ([hi * 16 + lo] + rest) + y;
  }

  /** One step of `PercentDecodeConcat` over a leading ASCII character. */
  lemma AsciiConcat(a: string, b: string, rest: seq<byte>, y: seq<byte>)
    requires a != [] && a[0] != '%' && PercentDecode(a).Some?
    requires PercentDecode(a[1..]) == Some(rest)
    requires PercentDecode(a[1..] + b) == Some(rest + y)
    ensures PercentDecode(a + b) == Some(PercentDecode(a).value + y)
  {
    var ab := a + b;
    assert ab[0] == a[0];
    assert ab[1..] == a[1..] + b;
    assert PercentDecode(a).value == [a[0] as int] + rest;
    assert PercentDecode(ab) == Some([a[0] as int] + (rest + y));
    assert [a[0] as int] + (rest + y) == ([a[0] as int] + rest) + y;
  }

  lemma {:induction false} PercentDecodeOfBytes(bs: seq<byte>)
    ensures PercentDecode(PercentBytes(bs)) == Some(bs)
  {
    if bs != [] {
      var b := bs[0];
      var p := PercentByte(b);
      assert HexValue(p[1]) == Some(b / 16) && HexValue(p[2]) == Some(b % 16);
      assert b / 16 * 16 + b % 16 == b;
      assert p[3..] == [];
      assert PercentDecode(p[3..]) == Some([]);
      assert [b] + [] == [b];
      assert PercentDecode(p) == Some([b]);
      PercentDecodeOfBytes(bs[1..]);
      PercentDecodeConcat(p, PercentBytes(bs[1..]), [b], bs[1..]);
      assert [b] + bs[1..] == bs;
    }
  }

  lemma {:induction false} PercentDecodeOfChar(c: char)
    ensures PercentDecode(EncodeChar(c)) == Some(Utf8(c))
  {
    if IsUnreserved(c) {
      assert c as int < 0x80;
      assert [c][1..] == [];
      assert PercentDecode([c][1..]) == Some([]);
      assert [c as int] + [] == [c as int];
      assert Utf8(c) == [c as int];
    } else {
      PercentDecodeOfBytes(Utf8(c));
    }
  }

  lemma {:induction false} PercentDecodeOfEncoding(s: string)
    ensures PercentDecode(EncodeURIComponent(s)) == Some(Utf8String(s))
  {
    if s != [] {
      PercentDecodeOfChar(s[0]);
      PercentDecodeOfEncoding(s[1..]);
      PercentDecodeConcat(EncodeChar(s[0]), EncodeURIComponent(s[1..]), Utf8(s[0]), Utf8String(s[1..]));
    }
  }

  /** Decoding undoes `encodeURIComponent` for every string. */
  lemma {:induction false} EncodeDecodeRoundTrip(s: string)
    ensures DecodeURIComponent(EncodeURIComponent(s)) == Some(s)
  {
    PercentDecodeOfEncoding(s);
    Utf8DecodeOfString(s);
  }

  /** A string of unreserved characters is left as it is. */
  lemma {:induction false} EncodeUnreserved(s: string)
    requires forall i :: 0 <= i < |s| ==> IsUnreserved(s[i])
    ensures EncodeURIComponent(s) == s
  {
    if s != [] {
      EncodeUnreserved(s[1..]);
      assert [s[0]] + s[1..] == s;
    }
  }
}
