/**
 * JavaScript's `encodeURIComponent`: every character outside the unreserved
 * set of section 2.3 of RFC 3986 (plus `! ' ( ) *`, which JavaScript also
 * leaves alone) is written as the percent-encoded (section 2.1 of RFC 3986)
 * bytes of its UTF-8 form, with upper-case hexadecimal digits.
 * A decoder is the inverse partner: decoding an encoding gives the text back.
 */
module UriEncoding {
  import opened Common

  type Byte = b: int | 0 <= b < 256

  /** The characters `encodeURIComponent` leaves as they are. */
  predicate Unescaped(c: char)
  {
    ('A' <= c <= 'Z') || ('a' <= c <= 'z') || ('0' <= c <= '9') || c in "-_.!~*'()"
  }

  predicate UpperHex(c: char)
  {
    ('0' <= c <= '9') || ('A' <= c <= 'F')
  }

  /** A character that may appear in an encoding. */
  predicate UriSafe(c: char)
  {
    Unescaped(c) || c == '%'
  }

  /** The UTF-8 form of one Unicode scalar value. */
  function Utf8(c: char): (bs: seq<Byte>)
    ensures 1 <= |bs| <= 4
    ensures |bs| == 1 <==> (c as int) < 0x80
    ensures |bs| == 1 ==> bs[0] == c as int
  {
    var n := c as int;
    if n < 0x80 then [n]
    else if n < 0x800 then [0xC0 + n / 64, 0x80 + n % 64]
    else if n < 0x10000 then [0xE0 + n / 4096, 0x80 + (n / 64) % 64, 0x80 + n % 64]
    else [0xF0 + n / 262144, 0x80 + (n / 4096) % 64, 0x80 + (n / 64) % 64, 0x80 + n % 64]
  }

  function HexDigit(v: int): (c: char)
    requires 0 <= v < 16
    ensures UpperHex(c)
  {
    if v < 10 then ('0' as int + v) as char else ('A' as int + v - 10) as char
  }

  /** The value of a hexadecimal digit of either case. */
  function HexValue(c: char): Option<int>
  {
    if '0' <= c <= '9' then Some(c as int - '0' as int)
    else if 'A' <= c <= 'F' then Some(c as int - 'A' as int + 10)
    else if 'a' <= c <= 'f' then Some(c as int - 'a' as int + 10)
    else None
  }

  lemma HexRoundTrip(v: int)
    requires 0 <= v < 16
    ensures HexValue(HexDigit(v)) == Some(v)
  {
  }

  /** Every `%` opens an escape: it is followed by two upper-case hexadecimal digits. */
  predicate WellEscaped(r: string)
  {
    forall i :: 0 <= i < |r| && r[i] == '%' ==> i + 2 < |r| && UpperHex(r[i + 1]) && UpperHex(r[i + 2])
  }

  lemma WellEscapedConcat(a: string, b: string)
    requires WellEscaped(a) && WellEscaped(b)
    ensures WellEscaped(a + b)
  {
    forall i | 0 <= i < |a + b| && (a + b)[i] == '%'
      ensures i + 2 < |a + b| && UpperHex((a + b)[i + 1]) && UpperHex((a + b)[i + 2])
    {
      if i < |a| {
        assert a[i] == '%';
        assert (a + b)[i + 1] == a[i + 1] && (a + b)[i + 2] == a[i + 2];
      } else {
        assert b[i - |a|] == '%';
        assert (a + b)[i + 1] == b[i - |a| + 1] && (a + b)[i + 2] == b[i - |a| + 2];
      }
    }
  }

  /** `%XY` for one byte. */
  function Escape(b: Byte): (r: string)
    ensures |r| == 3 && r[0] == '%' && UpperHex(r[1]) && UpperHex(r[2])
  {
    ['%', HexDigit(b / 16), HexDigit(b % 16)]
  }

  function EscapeAll(bs: seq<Byte>): (r: string)
    ensures |r| == 3 * |bs|
    ensures WellEscaped(r)
  {
    if bs == [] then ""
    else
      WellEscapedConcat(Escape(bs[0]), EscapeAll(bs[1..]));
      Escape(bs[0]) + EscapeAll(bs[1..])
  }

  function EncodeChar(c: char): string
  {
    if Unescaped(c) then [c] else EscapeAll(Utf8(c))
  }

  /**
   * `encodeURIComponent(s)`: the result uses only unreserved characters and
   * `%`, and every `%` opens an escape with two upper-case hexadecimal digits.
   */
  function EncodeUriComponent(s: string): (r: string)
    ensures forall i :: 0 <= i < |r| ==> UriSafe(r[i])
    ensures WellEscaped(r)
    ensures |r| >= |s|
  {
    if s == [] then ""
    else
      var head := EncodeChar(s[0]);
      EscapedSafe(Utf8(s[0]));
      var tail := EncodeUriComponent(s[1..]);
      WellEscapedConcat(head, tail);
      assert forall i :: 0 <= i < |head| + |tail| ==> UriSafe((head + tail)[i]) by {
        forall i | 0 <= i < |head| + |tail| ensures UriSafe((head + tail)[i]) {
          if i >= |head| {
            assert (head + tail)[i] == tail[i - |head|];
          }
        }
      }
      head + tail
  }

  lemma {:induction false} EscapedSafe(bs: seq<Byte>)
    ensures forall i :: 0 <= i < |EscapeAll(bs)| ==> UriSafe(EscapeAll(bs)[i])
  {
    if bs != [] {
      EscapedSafe(bs[1..]);
      var e := Escape(bs[0]);
      var rest := EscapeAll(bs[1..]);
      forall i | 0 <= i < |e + rest| ensures UriSafe((e + rest)[i]) {
        if i >= 3 {
          assert (e + rest)[i] == rest[i - 3];
        }
      }
    }
  }

  /** A text made only of unreserved characters is its own encoding. */
  lemma {:induction false} EncodeKeepsUnescaped(s: string)
    requires forall i :: 0 <= i < |s| ==> Unescaped(s[i])
    ensures EncodeUriComponent(s) == s
  {
    if s != [] {
      EncodeKeepsUnescaped(s[1..]);
      assert s == [s[0]] + s[1..];
    }
  }

  // ---------------------------------------------------------------------------
  // The inverse partner: percent-decoding, then UTF-8 decoding
  // ---------------------------------------------------------------------------

  /** The bytes an escaped text stands for: `%XY` is one byte, an ASCII character its own code. */
  function PercentDecode(t: string): Option<seq<Byte>>
    decreases |t|
  {
    if t == [] then Some([])
    else if t[0] == '%' then
      if |t| >= 3 && HexValue(t[1]).Some? && HexValue(t[2]).Some? then
        match PercentDecode(t[3..])
        case None => None
        case Some(rest) => Some([HexValue(t[1]).value * 16 + HexValue(t[2]).value] + rest)
      else None
    else if (t[0] as int) < 0x80 then
      match PercentDecode(t[1..])
      case None => None
      case Some(rest) => Some([t[0] as int] + rest)
    else None
  }

  predicate Continuation(b: Byte)
  {
    0x80 <= b < 0xC0
  }

  /** The scalar value with that code point, if it is one. */
  function Scalar(n: int): Option<char>
  {
    if 0 <= n < 0xD800 || 0xE000 <= n < 0x110000 then Some(n as char) else None
  }

  /** The character at the front of a UTF-8 byte sequence and how many bytes it takes. */
  function DecodeOne(bs: seq<Byte>): (r: Option<(char, nat)>)
    requires bs != []
    ensures r.Some? ==> 1 <= r.value.1 <= |bs|
  {
    var b0: int := bs[0];
    if b0 < 0x80 then Some((b0 as char, 1))
    else if 0xC0 <= b0 < 0xE0 && |bs| >= 2 && Continuation(bs[1]) then
      match Scalar(Lead2(b0, bs[1]))
      case None => None
      case Some(c) => Some((c, 2))
    else if 0xE0 <= b0 < 0xF0 && |bs| >= 3 && Continuation(bs[1]) && Continuation(bs[2]) then
      match Scalar(Lead3(b0, bs[1], bs[2]))
      case None => None
      case Some(c) => Some((c, 3))
    else if 0xF0 <= b0 < 0xF8 && |bs| >= 4 && Continuation(bs[1]) && Continuation(bs[2]) && Continuation(bs[3]) then
      match Scalar(Lead4(b0, bs[1], bs[2], bs[3]))
      case None => None
      case Some(c) => Some((c, 4))
    else None
  }

  /** The code point of a two-, three- or four-byte UTF-8 sequence. */
  function Lead2(b0: int, b1: int): int
  {
    (b0 - 0xC0) * 64 + (b1 - 0x80)
  }

  function Lead3(b0: int, b1: int, b2: int): int
  {
    (b0 - 0xE0) * 4096 + (b1 - 0x80) * 64 + (b2 - 0x80)
  }

  function Lead4(b0: int, b1: int, b2: int, b3: int): int
  {
    (b0 - 0xF0) * 262144 + (b1 - 0x80) * 4096 + (b2 - 0x80) * 64 + (b3 - 0x80)
  }

  function Utf8Decode(bs: seq<Byte>): Option<string>
    decreases |bs|
  {
    if bs == [] then Some("")
    else
      match DecodeOne(bs)
      case None => None
      case Some((c, k)) =>
        match Utf8Decode(bs[k..])
        case None => None
        case Some(rest) => Some([c] + rest)
  }

  /**
   * The decoder for this encoder's output: percent-decoding, then UTF-8.
   * It is not JavaScript's `decodeURIComponent`: it refuses raw non-ASCII
   * characters and accepts overlong UTF-8 forms.
   */
  function DecodeUriComponent(t: string): Option<string>
  {
    match PercentDecode(t)
    case None => None
    case Some(bs) => Utf8Decode(bs)
  }

  /** The UTF-8 form of a whole text. */
  function Utf8All(s: string): seq<Byte>
  {
    if s == [] then [] else Utf8(s[0]) + Utf8All(s[1..])
  }

  lemma Recompose2(n: int)
    requires 0x80 <= n < 0x800
    ensures Lead2(0xC0 + n / 64, 0x80 + n % 64) == n
  {
  }

  lemma Recompose3(n: int)
    requires 0x800 <= n < 0x10000
    ensures Lead3(0xE0 + n / 4096, 0x80 + (n / 64) % 64, 0x80 + n % 64) == n
  {
    assert n / 64 == (n / 4096) * 64 + (n / 64) % 64;
  }

  lemma Recompose4(n: int)
    requires 0x10000 <= n < 0x110000
    ensures Lead4(0xF0 + n / 262144, 0x80 + (n / 4096) % 64, 0x80 + (n / 64) % 64, 0x80 + n % 64) == n
  {
    assert n / 4096 == (n / 262144) * 64 + (n / 4096) % 64;
    assert n / 64 == (n / 4096) * 64 + (n / 64) % 64;
  }

  lemma DecodeOneUtf8(c: char, rest: seq<Byte>)
    ensures DecodeOne(Utf8(c) + rest) == Some((c, |Utf8(c)|))
  {
    var n := c as int;
    if n < 0x80 {
    } else if n < 0x800 {
      Recompose2(n);
    } else if n < 0x10000 {
      Recompose3(n);
    } else {
      Recompose4(n);
    }
  }

  lemma {:induction false} Utf8RoundTrip(s: string)
    ensures Utf8Decode(Utf8All(s)) == Some(s)
  {
    if s != [] {
      var bs := Utf8All(s);
      DecodeOneUtf8(s[0], Utf8All(s[1..]));
      assert bs[|Utf8(s[0])|..] == Utf8All(s[1..]);
      Utf8RoundTrip(s[1..]);
      assert s == [s[0]] + s[1..];
    }
  }

  lemma {:induction false} PercentDecodeEscaped(bs: seq<Byte>, t: string, rest: seq<Byte>)
    requires PercentDecode(t) == Some(rest)
    ensures PercentDecode(EscapeAll(bs) + t) == Some(bs + rest)
  {
    if bs != [] {
      var e := Escape(bs[0]);
      var u := EscapeAll(bs[1..]) + t;
      PercentDecodeEscaped(bs[1..], t, rest);
      assert EscapeAll(bs) + t == e + u;
      assert (e + u)[0] == '%' && (e + u)[1] == e[1] && (e + u)[2] == e[2];
      assert (e + u)[3..] == u;
      HexRoundTrip(bs[0] / 16);
      HexRoundTrip(bs[0] % 16);
      assert e[1] == HexDigit(bs[0] / 16) && e[2] == HexDigit(bs[0] % 16);
      assert HexValue(e[1]).value * 16 + HexValue(e[2]).value == bs[0];
      assert PercentDecode(u) == Some(bs[1..] + rest);
      assert PercentDecode(e + u) == Some([bs[0]] + (bs[1..] + rest));
      assert [bs[0]] + (bs[1..] + rest) == bs + rest;
      assert PercentDecode(EscapeAll(bs) + t) == PercentDecode(e + u);
    } else {
      assert EscapeAll(bs) + t == t && bs + rest == rest;
    }
  }

  lemma {:induction false} PercentDecodeEncoded(s: string)
    ensures PercentDecode(EncodeUriComponent(s)) == Some(Utf8All(s))
  {
    if s != [] {
      PercentDecodeEncoded(s[1..]);
      var tail := EncodeUriComponent(s[1..]);
      if Unescaped(s[0]) {
        assert ([s[0]] + tail)[1..] == tail;
      } else {
        PercentDecodeEscaped(Utf8(s[0]), tail, Utf8All(s[1..]));
      }
    }
  }

  /** Decoding the encoding of any text gives the text back, so the encoding loses nothing. */
  lemma EncodeRoundTrip(s: string)
    ensures DecodeUriComponent(EncodeUriComponent(s)) == Some(s)
  {
    PercentDecodeEncoded(s);
    Utf8RoundTrip(s);
  }

  /** Different texts have different encodings. */
  lemma EncodeInjective(s: string, t: string)
    requires EncodeUriComponent(s) == EncodeUriComponent(t)
    ensures s == t
  {
    EncodeRoundTrip(s);
    EncodeRoundTrip(t);
  }
}
