/**
 * `urllib.parse.quote(s, safe='')`: the text is encoded as UTF-8 and every
 * byte outside the unreserved set of section 2.3 of RFC 3986 (ASCII letters,
 * digits, `_`, `.`, `-`, `~`) becomes `%XX` with upper-case hex digits, as
 * section 2.1 of RFC 3986 prescribes. The middleware applies it to a canonical
 * path to build a cookie name; `Unquote` is the inverse used to show that
 * distinct paths never share a cookie name.
 */
module UrlQuote {
  import opened Common

  type byte = b: int | 0 <= b < 256

  predicate UnreservedByte(b: byte) {
    || 'A' as int <= b <= 'Z' as int
    || 'a' as int <= b <= 'z' as int
    || '0' as int <= b <= '9' as int
    || b == '_' as int || b == '.' as int || b == '-' as int || b == '~' as int
  }

  predicate UnreservedChar(c: char) {
    c as int < 256 && UnreservedByte(c as int)
  }

  /** The UTF-8 encoding of one Unicode scalar value (section 3 of RFC 3629). */
  function Utf8(c: char): (r: seq<byte>)
    ensures 1 <= |r| <= 4
    ensures |r| == 1 <==> c as int < 0x80
  {
    var cp := c as int;
    var q1, q2 := cp / 64, cp / 64 / 64;
    if cp < 0x80 then [cp]
    else if cp < 0x800 then [0xC0 + q1, 0x80 + cp % 64]
    else if cp < 0x10000 then [0xE0 + q2, 0x80 + q1 % 64, 0x80 + cp % 64]
    else [0xF0 + q2 / 64, 0x80 + q2 % 64, 0x80 + q1 % 64, 0x80 + cp % 64]
  }

  function Utf8Encode(s: string): seq<byte> {
    if s == [] then [] else Utf8(s[0]) + Utf8Encode(s[1..])
  }

  function HexDigit(n: int): (c: char)
    requires 0 <= n < 16
  {
    if n < 10 then ('0' as int + n) as char else ('A' as int + n - 10) as char
  }

  function QuoteByte(b: byte): (r: string)
    ensures forall i :: 0 <= i < |r| ==> UnreservedChar(r[i]) || r[i] == '%'
    ensures UnreservedByte(b) <==> |r| == 1
  {
    if UnreservedByte(b) then [b as char] else ['%', HexDigit(b / 16), HexDigit(b % 16)]
  }

  function QuoteBytes(bs: seq<byte>): (r: string)
    ensures forall i :: 0 <= i < |r| ==> UnreservedChar(r[i]) || r[i] == '%'
  {
    if bs == [] then [] else QuoteByte(bs[0]) + QuoteBytes(bs[1..])
  }

  /** `quote(s, safe='')`. */
  function Quote(s: string): (r: string)
    ensures forall i :: 0 <= i < |r| ==> UnreservedChar(r[i]) || r[i] == '%'
  {
    QuoteBytes(Utf8Encode(s))
  }

  // ---- the inverse ----

  function HexValue(c: char): Option<int> {
    if '0' <= c <= '9' then Some(c as int - '0' as int)
    else if 'A' <= c <= 'F' then Some(c as int - 'A' as int + 10)
    else None
  }

  /** Percent-decoding back to bytes; `None` on text `QuoteBytes` never produces. */
  function UnquoteBytes(s: string): Option<seq<byte>> {
    if s == [] then Some([])
    else if s[0] == '%' then
      if |s| < 3 then None
      else match (HexValue(s[1]), HexValue(s[2]), UnquoteBytes(s[3..]))
        case (Some(hi), Some(lo), Some(rest)) => Some([hi * 16 + lo] + rest)
        case _ => None
    else if s[0] as int < 0x80 then
      match UnquoteBytes(s[1..])
      case Some(rest) => Some([s[0] as int] + rest)
      case None => None
    else None
  }

  predicate Continuation(b: byte) { 0x80 <= b < 0xC0 }

  predicate ScalarValue(cp: int) { 0 <= cp < 0xD800 || 0xE000 <= cp < 0x110000 }

  /** The byte length a UTF-8 lead byte announces, or 0 for a byte that cannot lead. */
  function SequenceLength(b0: byte): nat {
    if b0 < 0x80 then 1 else if 0xC0 <= b0 < 0xE0 then 2
    else if 0xE0 <= b0 < 0xF0 then 3 else if 0xF0 <= b0 < 0xF8 then 4 else 0
  }

  /** Decodes the first character of `bs`: the character and how many bytes it took. */
  function DecodeChar(bs: seq<byte>): (r: Option<(char, nat)>)
    ensures r.Some? ==> 1 <= r.value.1 <= |bs|
  {
    if bs == [] then None
    else
      var n := SequenceLength(bs[0]);
      if n == 0 || |bs| < n then None
      else if !((n < 2 || Continuation(bs[1])) && (n < 3 || Continuation(bs[2])) && (n < 4 || Continuation(bs[3])))
      then None
      else
        var b0: int := bs[0];
        var b1: int := if n >= 2 then bs[1] else 0;
        var b2: int := if n >= 3 then bs[2] else 0;
        var b3: int := if n >= 4 then bs[3] else 0;
        var cp: int :=
          if n == 1 then b0
          else if n == 2 then (b0 - 0xC0) * 64 + (b1 - 0x80)
          else if n == 3 then ((b0 - 0xE0) * 64 + (b1 - 0x80)) * 64 + (b2 - 0x80)
          else (((b0 - 0xF0) * 64 + (b1 - 0x80)) * 64 + (b2 - 0x80)) * 64 + (b3 - 0x80);
        var least := if n == 1 then 0 else if n == 2 then 0x80 else if n == 3 then 0x800 else 0x10000;
        if cp < least || !ScalarValue(cp) then None else Some((cp as char, n))
  }

  /** A strict UTF-8 decoder: no overlong forms, no surrogates, nothing past U+10FFFF. */
  function Utf8Decode(bs: seq<byte>): Option<string>
    decreases |bs|
  {
    if bs == [] then Some([])
    else match DecodeChar(bs)
      case None => None
      case Some((c, n)) =>
        match Utf8Decode(bs[n..])
        case Some(rest) => Some([c] + rest)
        case None => None
  }

  function Unquote(s: string): Option<string> {
    match UnquoteBytes(s)
    case Some(bs) => Utf8Decode(bs)
    case None => None
  }

  // ---- round trip ----

  lemma HexRoundTrip(n: int)
    requires 0 <= n < 16
    ensures HexValue(HexDigit(n)) == Some(n)
  {
  }

  lemma QuoteByteUnquote(b: byte, rest: string)
    ensures UnquoteBytes(QuoteByte(b) + rest) ==
      match UnquoteBytes(rest) case Some(r) => Some([b] + r) case None => None
  {
    var q := QuoteByte(b);
    if UnreservedByte(b) {
      assert (q + rest)[1..] == rest;
    } else {
      HexRoundTrip(b / 16);
      HexRoundTrip(b % 16);
      assert (q + rest)[3..] == rest;
    }
  }

  lemma {:induction false} UnquoteQuoteBytes(bs: seq<byte>)
    ensures UnquoteBytes(QuoteBytes(bs)) == Some(bs)
  {
    if bs != [] {
      UnquoteQuoteBytes(bs[1..]);
      QuoteByteUnquote(bs[0], QuoteBytes(bs[1..]));
      assert [bs[0]] + bs[1..] == bs;
    }
  }

  lemma DecodeTwoBytes(c: char, rest: seq<byte>)
    requires 0x80 <= c as int < 0x800
    ensures DecodeChar(Utf8(c) + rest) == Some((c, 2))
  {
    var cp := c as int;
    var bs := Utf8(c) + rest;
    assert bs[0] == 0xC0 + cp / 64 && bs[1] == 0x80 + cp % 64;
  }

  lemma DecodeThreeBytes(c: char, rest: seq<byte>)
    requires 0x800 <= c as int < 0x10000
    ensures DecodeChar(Utf8(c) + rest) == Some((c, 3))
  {
    var cp := c as int;
    var q1 := cp / 64;
    var q2 := q1 / 64;
    var bs := Utf8(c) + rest;
    assert bs[0] == 0xE0 + q2 && bs[1] == 0x80 + q1 % 64 && bs[2] == 0x80 + cp % 64;
    assert cp == q1 * 64 + cp % 64 && q1 == q2 * 64 + q1 % 64;
  }

  lemma DecodeFourBytes(c: char, rest: seq<byte>)
    requires 0x10000 <= c as int
    ensures DecodeChar(Utf8(c) + rest) == Some((c, 4))
  {
    var cp := c as int;
    var q1 := cp / 64;
    var q2 := q1 / 64;
    var q3 := q2 / 64;
    var bs := Utf8(c) + rest;
    assert bs[0] == 0xF0 + q3 && bs[1] == 0x80 + q2 % 64;
    assert bs[2] == 0x80 + q1 % 64 && bs[3] == 0x80 + cp % 64;
    assert cp == q1 * 64 + cp % 64 && q1 == q2 * 64 + q1 % 64 && q2 == q3 * 64 + q2 % 64;
  }

  lemma DecodeOne(c: char, rest: seq<byte>)
    ensures DecodeChar(Utf8(c) + rest) == Some((c, |Utf8(c)|))
  {
    var cp := c as int;
    if cp < 0x80 {
    } else if cp < 0x800 {
      DecodeTwoBytes(c, rest);
    } else if cp < 0x10000 {
      DecodeThreeBytes(c, rest);
    } else {
      DecodeFourBytes(c, rest);
    }
  }

  lemma {:induction false} Utf8RoundTrip(s: string)
    ensures Utf8Decode(Utf8Encode(s)) == Some(s)
  {
    if s != [] {
      Utf8RoundTrip(s[1..]);
      DecodeOne(s[0], Utf8Encode(s[1..]));
      assert (Utf8(s[0]) + Utf8Encode(s[1..]))[|Utf8(s[0])|..] == Utf8Encode(s[1..]);
      assert [s[0]] + s[1..] == s;
    }
  }

  /** Quoting loses nothing: the quoted text decodes back to the original. */
  lemma UnquoteQuote(s: string)
    ensures Unquote(Quote(s)) == Some(s)
  {
    UnquoteQuoteBytes(Utf8Encode(s));
    Utf8RoundTrip(s);
  }

  /** Hence distinct texts never quote to the same name. */
  lemma QuoteInjective(a: string, b: string)
    ensures Quote(a) == Quote(b) <==> a == b
  {
    UnquoteQuote(a);
    UnquoteQuote(b);
  }

  /** Text made only of unreserved characters is left as it is. */
  lemma {:induction false} QuoteKeepsUnreserved(s: string)
    requires forall i :: 0 <= i < |s| ==> UnreservedChar(s[i])
    ensures Quote(s) == s
  {
    if s != [] {
      QuoteKeepsUnreserved(s[1..]);
      assert Utf8Encode(s) == [s[0] as int] + Utf8Encode(s[1..]);
      assert QuoteBytes(Utf8Encode(s)) == [s[0]] + QuoteBytes(Utf8Encode(s[1..]));
      assert [s[0]] + s[1..] == s;
    }
  }

  lemma {:induction false} Utf8EncodeAppend(a: string, b: string)
    ensures Utf8Encode(a + b) == Utf8Encode(a) + Utf8Encode(b)
  {
    if a == [] {
      assert a + b == b;
    } else {
      assert (a + b)[0] == a[0] && (a + b)[1..] == a[1..] + b;
      Utf8EncodeAppend(a[1..], b);
    }
  }

  lemma {:induction false} QuoteBytesAppend(a: seq<byte>, b: seq<byte>)
    ensures QuoteBytes(a + b) == QuoteBytes(a) + QuoteBytes(b)
  {
    if a == [] {
      assert a + b == b;
    } else {
      assert (a + b)[0] == a[0] && (a + b)[1..] == a[1..] + b;
      QuoteBytesAppend(a[1..], b);
    }
  }

  /** Quoting works character by character, so it splits over concatenation. */
  lemma QuoteAppend(a: string, b: string)
    ensures Quote(a + b) == Quote(a) + Quote(b)
  {
    Utf8EncodeAppend(a, b);
    QuoteBytesAppend(Utf8Encode(a), Utf8Encode(b));
  }

  /** The slash, the one reserved character of a literal route, becomes `%2F`. */
  lemma QuoteSlash()
    ensures Quote("/") == "%2F"
  {
    assert Utf8Encode("/") == [47];
  }
}
