/** `encodeURIComponent` and its inverse `decodeURIComponent`, as specified in
    section 19.2.6 of ECMA-262 (URI handling functions), over Unicode scalar
    values. A character of the unescaped set (letters, digits and
    `- _ . ! ~ * ' ( )`) is copied; every other character is written as the
    UTF-8 bytes of its code point, each as `%` and two upper-case hexadecimal
    digits (the percent-encoding of section 2.1 of RFC 3986). */
module UriComponent {
  import opened Values

  type Byte = b: int | 0 <= b < 256

  /** The uriUnreserved set of ECMA-262: uriAlpha, DecimalDigit and uriMark. */
  predicate Unescaped(c: char) {
    ('A' <= c <= 'Z') || ('a' <= c <= 'z') || ('0' <= c <= '9')
    || c == '-' || c == '_' || c == '.' || c == '!' || c == '~'
    || c == '*' || c == '\'' || c == '(' || c == ')'
  }

  predicate IsUpperHex(c: char) {
    ('0' <= c <= '9') || ('A' <= c <= 'F')
  }

  predicate IsHex(c: char) {
    ('0' <= c <= '9') || ('A' <= c <= 'F') || ('a' <= c <= 'f')
  }

  function HexDigit(n: int): (c: char)
    requires 0 <= n < 16
    ensures IsUpperHex(c) && HexValue(c) == n
  {
    if n < 10 then ('0' as int + n) as char else ('A' as int + n - 10) as char
  }

  function HexValue(c: char): (n: int)
    requires IsHex(c)
    ensures 0 <= n < 16
  {
    if '0' <= c <= '9' then c as int - '0' as int
    else if 'A' <= c <= 'F' then c as int - 'A' as int + 10
    else c as int - 'a' as int + 10
  }

  predicate IsScalar(cp: int) {
    (0 <= cp < 0xD800) || (0xE000 <= cp < 0x11_0000)
  }

  predicate IsContinuation(b: int) {
    0x80 <= b < 0xC0
  }

  /** The UTF-8 encoding of one code point. */
  function Utf8(c: char): (bs: seq<Byte>)
    ensures 1 <= |bs| <= 4
  {
    var cp := c as int;
    if cp < 0x80 then [cp]
    else if cp < 0x800 then [0xC0 + cp / 64, 0x80 + cp % 64]
    else if cp < 0x1_0000 then [0xE0 + cp / 4096, 0x80 + (cp / 64) % 64, 0x80 + cp % 64]
    else [0xF0 + cp / 0x4_0000, 0x80 + (cp / 4096) % 64, 0x80 + (cp / 64) % 64, 0x80 + cp % 64]
  }

  /** The number of bytes a UTF-8 sequence has, read from its first byte;
      0 for a byte that cannot start one (a continuation byte, or 0xF8 and above). */
  function SequenceLength(b0: Byte): nat {
    if b0 < 0x80 then 1
    else if b0 < 0xC0 then 0
    else if b0 < 0xE0 then 2
    else if b0 < 0xF0 then 3
    else if b0 < 0xF8 then 4
    else 0
  }

  /** The code point carried by a complete UTF-8 sequence. */
  function CodePoint(bs: seq<Byte>): int
    requires 1 <= |bs| <= 4
  {
    var b := seq(|bs|, i requires 0 <= i < |bs| => bs[i] as int);
    if |bs| == 1 then b[0]
    else if |bs| == 2 then (b[0] - 0xC0) * 64 + (b[1] - 0x80)
    else if |bs| == 3 then (b[0] - 0xE0) * 4096 + (b[1] - 0x80) * 64 + (b[2] - 0x80)
    else (b[0] - 0xF0) * 0x4_0000 + (b[1] - 0x80) * 4096 + (b[2] - 0x80) * 64 + (b[3] - 0x80)
  }

  /** The smallest code point a sequence of n bytes may carry (shorter is overlong). */
  function MinCodePoint(n: int): int {
    if n <= 1 then 0 else if n == 2 then 0x80 else if n == 3 then 0x800 else 0x1_0000
  }

  /** One byte as a percent-encoded triple. */
  function PercentByte(b: Byte): (t: string)
    ensures |t| == 3 && t[0] == '%' && IsUpperHex(t[1]) && IsUpperHex(t[2])
    ensures 16 * HexValue(t[1]) + HexValue(t[2]) == b
  {
    ['%', HexDigit(b / 16), HexDigit(b % 16)]
  }

  function PercentBytes(bs: seq<Byte>): (t: string)
    ensures |t| == 3 * |bs|
  {
    if bs == [] then "" else PercentByte(bs[0]) + PercentBytes(bs[1..])
  }

  /** One character: itself when unescaped, otherwise one to four escaped bytes. */
  function EncodeChar(c: char): (t: string)
    ensures Unescaped(c) ==> t == [c]
    ensures !Unescaped(c) ==> 3 <= |t| <= 12 && t[0] == '%'
  {
    if Unescaped(c) then [c] else PercentBytes(Utf8(c))
  }

  /** encodeURIComponent. The text never gets shorter, and keeps its length
      exactly when no character needs escaping. */
  function Encode(s: string): (t: string)
    ensures |s| <= |t|
    ensures |t| == |s| <==> forall i :: 0 <= i < |s| ==> Unescaped(s[i])
  {
    if s == [] then ""
    else
      var rest := Encode(s[1..]);
      assert forall i :: 1 <= i < |s| ==> s[i] == s[1..][i - 1];
      EncodeChar(s[0]) + rest
  }

  // ---------------------------------------------------------------------------
  // Decoding

  /** The byte written as `%XY` at position i, if there is one. */
  function EscapedByte(s: string, i: nat): Option<Byte> {
    if i + 3 <= |s| && s[i] == '%' && IsHex(s[i + 1]) && IsHex(s[i + 2])
    then Some(16 * HexValue(s[i + 1]) + HexValue(s[i + 2]))
    else None
  }

  /** The first k percent-encoded bytes of s, if s starts with k of them. */
  function EscapedBytes(s: string, k: nat): (r: Option<seq<Byte>>)
    ensures r.Some? ==> |r.value| == k && 3 * k <= |s|
  {
    if k == 0 then Some([])
    else match EscapedByte(s, 0)
      case None => None
      case Some(b) =>
        match EscapedBytes(s[3..], k - 1)
        case None => None
        case Some(rest) => Some([b] + rest)
  }

  /** Decodes the escaped character at the front of s: the character and the
      number of string positions it occupied. None where decodeURIComponent
      throws a URIError. */
  function DecodeEscape(s: string): (r: Option<(char, nat)>)
    ensures r.Some? ==> 3 <= r.value.1 <= |s|
  {
    match EscapedByte(s, 0)
    case None => None
    case Some(b0) =>
      var n := SequenceLength(b0);
      if n == 0 then None
      else match EscapedBytes(s, n)
        case None => None
        case Some(bs) =>
          if forall j :: 1 <= j < n ==> IsContinuation(bs[j]) then
            var cp := CodePoint(bs);
            if MinCodePoint(n) <= cp && IsScalar(cp) then Some((cp as char, 3 * n)) else None
          else None
  }

  function Prepend(c: char, r: Option<string>): Option<string> {
    match r
    case None => None
    case Some(t) => Some([c] + t)
  }

  /** decodeURIComponent; None where it throws a URIError. */
  function Decode(s: string): Option<string>
    decreases |s|
  {
    if s == [] then Some("")
    else if s[0] != '%' then Prepend(s[0], Decode(s[1..]))
    else match DecodeEscape(s)
      case None => None
      case Some((c, k)) => Prepend(c, Decode(s[k..]))
  }

  // ---------------------------------------------------------------------------
  // Properties

  /** Text made only of unescaped characters and `%XY` triples with upper-case hex. */
  predicate WellFormed(t: string)
    decreases |t|
  {
    t == []
    || (Unescaped(t[0]) && WellFormed(t[1..]))
    || (|t| >= 3 && t[0] == '%' && IsUpperHex(t[1]) && IsUpperHex(t[2]) && WellFormed(t[3..]))
  }

  lemma {:induction false} WellFormedAppend(a: string, b: string)
    requires WellFormed(a) && WellFormed(b)
    ensures WellFormed(a + b)
    decreases |a|
  {
    if a == [] {
      assert a + b == b;
    } else if Unescaped(a[0]) {
      WellFormedAppend(a[1..], b);
      assert (a + b)[1..] == a[1..] + b;
    } else {
      WellFormedAppend(a[3..], b);
      assert (a + b)[3..] == a[3..] + b;
    }
  }

  lemma {:induction false} PercentBytesWellFormed(bs: seq<Byte>)
    ensures WellFormed(PercentBytes(bs))
  {
    if bs != [] {
      var t := PercentBytes(bs);
      PercentBytesWellFormed(bs[1..]);
      assert t[3..] == PercentBytes(bs[1..]);
      assert t[..3] == PercentByte(bs[0]);
    }
  }

  /** The payload consists of unescaped characters and `%XY` triples only. */
  lemma {:induction false} EncodeWellFormed(s: string)
    ensures WellFormed(Encode(s))
  {
    if s != [] {
      EncodeWellFormed(s[1..]);
      var c := s[0];
      if Unescaped(c) {
        assert WellFormed([c]) by { assert [c][1..] == []; }
      } else {
        PercentBytesWellFormed(Utf8(c));
      }
      WellFormedAppend(EncodeChar(c), Encode(s[1..]));
    }
  }

  /** Every character of the payload is unescaped, `%`, or an upper-case hex
      digit: in particular no space, `&`, `#`, `=` or line break survives. */
  lemma {:induction false} WellFormedAlphabet(t: string)
    requires WellFormed(t)
    ensures forall i :: 0 <= i < |t| ==> Unescaped(t[i]) || t[i] == '%' || IsUpperHex(t[i])
    decreases |t|
  {
    if t != [] {
      if Unescaped(t[0]) {
        WellFormedAlphabet(t[1..]);
        assert forall i :: 1 <= i < |t| ==> t[i] == t[1..][i - 1];
      } else {
        WellFormedAlphabet(t[3..]);
        assert forall i :: 3 <= i < |t| ==> t[i] == t[3..][i - 3];
      }
    }
  }

  lemma EscapedByteOfPercent(b: Byte, rest: string)
    ensures EscapedByte(PercentByte(b) + rest, 0) == Some(b)
  {
  }

  lemma {:induction false} EscapedBytesOfPercent(bs: seq<Byte>, rest: string)
    ensures EscapedBytes(PercentBytes(bs) + rest, |bs|) == Some(bs)
  {
    if bs != [] {
      var tail := PercentBytes(bs[1..]) + rest;
      var s := PercentBytes(bs) + rest;
      assert s == PercentByte(bs[0]) + tail;
      EscapedByteOfPercent(bs[0], tail);
      assert s[3..] == tail;
      EscapedBytesOfPercent(bs[1..], rest);
      assert EscapedBytes(s, |bs|) == Some([bs[0]] + bs[1..]);
      assert [bs[0]] + bs[1..] == bs;
    }
  }

  /** A number split into base-64 digits: the three lowest and the rest. */
  lemma SixBitDigits(cp: nat)
    ensures cp == (cp / 64) * 64 + cp % 64
    ensures cp / 64 == (cp / 4096) * 64 + (cp / 64) % 64
    ensures cp / 4096 == (cp / 0x4_0000) * 64 + (cp / 4096) % 64
  {
  }

  /** The UTF-8 facts the decoder checks hold of the encoder's output. */
  lemma Utf8Valid(c: char)
    ensures SequenceLength(Utf8(c)[0]) == |Utf8(c)|
    ensures forall j :: 1 <= j < |Utf8(c)| ==> IsContinuation(Utf8(c)[j])
    ensures CodePoint(Utf8(c)) == c as int
    ensures MinCodePoint(|Utf8(c)|) <= c as int
  {
    var cp := c as int;
    SixBitDigits(cp);
    var bs := Utf8(c);
    if cp < 0x80 {
    } else if cp < 0x800 {
      assert bs == [0xC0 + cp / 64, 0x80 + cp % 64];
    } else if cp < 0x1_0000 {
      assert bs == [0xE0 + cp / 4096, 0x80 + (cp / 64) % 64, 0x80 + cp % 64];
      assert CodePoint(bs) == (cp / 4096) * 4096 + ((cp / 64) % 64) * 64 + cp % 64;
    } else {
      assert bs == [0xF0 + cp / 0x4_0000, 0x80 + (cp / 4096) % 64, 0x80 + (cp / 64) % 64, 0x80 + cp % 64];
      assert CodePoint(bs) == (cp / 0x4_0000) * 0x4_0000 + ((cp / 4096) % 64) * 4096 + ((cp / 64) % 64) * 64 + cp % 64;
    }
  }

  lemma DecodeEscapedChar(c: char, rest: string)
    requires !Unescaped(c)
    ensures DecodeEscape(EncodeChar(c) + rest) == Some((c, |EncodeChar(c)|))
  {
    var bs := Utf8(c);
    var s := PercentBytes(bs) + rest;
    EscapedBytesOfPercent(bs, rest);
    EscapedBytesOfPercent(bs[..1], PercentBytes(bs[1..]) + rest);
    assert PercentBytes(bs[..1]) + (PercentBytes(bs[1..]) + rest) == s by {
      assert PercentBytes(bs[..1]) == PercentByte(bs[0]);
      assert bs[..1][1..] == [];
    }
    assert EscapedByte(s, 0) == Some(bs[0]);
    Utf8Valid(c);
    assert IsScalar(c as int);
  }

  lemma DecodeCharThen(c: char, rest: string)
    ensures Decode(EncodeChar(c) + rest) == Prepend(c, Decode(rest))
  {
    var s := EncodeChar(c) + rest;
    if Unescaped(c) {
      assert s[0] == c && s[1..] == rest;
    } else {
      DecodeEscapedChar(c, rest);
      assert s[0] == '%' by {
        assert PercentBytes(Utf8(c))[0] == '%';
      }
      assert s[|EncodeChar(c)|..] == rest;
    }
  }

  /** decodeURIComponent undoes encodeURIComponent on every string. */
  lemma {:induction false} DecodeEncode(s: string)
    ensures Decode(Encode(s)) == Some(s)
  {
    if s != [] {
      DecodeEncode(s[1..]);
      DecodeCharThen(s[0], Encode(s[1..]));
      assert [s[0]] + s[1..] == s;
    }
  }

  /** Characters of the unescaped set pass through unchanged. */
  lemma {:induction false} EncodeUnescapedIdentity(s: string)
    requires forall i :: 0 <= i < |s| ==> Unescaped(s[i])
    ensures Encode(s) == s
  {
    if s != [] {
      EncodeUnescapedIdentity(s[1..]);
      assert [s[0]] + s[1..] == s;
    }
  }

  /** An accented letter becomes its two UTF-8 bytes, a space becomes %20. */
  lemma EncodeExample()
    ensures Encode("\U{E9} y") == "%C3%A9%20y"
  {
    var s := "\U{E9} y";
    assert s[1..] == " y" && s[1..][1..] == "y" && s[1..][1..][1..] == "";
    assert Utf8('\U{E9}') == [0xC3, 0xA9];
    assert PercentByte(0xC3) == "%C3" && PercentByte(0xA9) == "%A9" && PercentByte(0x20) == "%20";
    assert PercentBytes([0xC3, 0xA9]) == "%C3" + PercentBytes([0xA9]);
    assert PercentBytes([0xA9]) == "%A9" + PercentBytes([]);
    assert EncodeChar('\U{E9}') == "%C3%A9";
    assert EncodeChar(' ') == "%20" by {
      assert Utf8(' ') == [0x20];
      assert PercentBytes([0x20]) == "%20" + PercentBytes([]);
    }
  }
}
