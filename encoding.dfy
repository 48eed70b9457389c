/** Byte-level encodings the authentication layer relies on: UTF-8 (`TextEncoder`), lowercase
    hexadecimal (`b.toString(16).padStart(2, '0')` and `digest('hex')`) and `encodeURIComponent`. */
module Encoding {

  type Byte = x: int | 0 <= x < 256

  /** UTF-8 encoding of one Unicode scalar value, as `TextEncoder.encode` produces it. */
  function Utf8Char(ch: char): (bs: seq<Byte>)
    ensures 1 <= |bs| <= 4
    ensures |bs| == 1 <==> ch as int < 0x80
    ensures |bs| == 1 ==> bs[0] == ch as int
    ensures forall k :: 1 <= k < |bs| ==> 0x80 <= bs[k] < 0xC0
  {
    var c := ch as int;
    if c < 0x80 then [c]
    else if c < 0x800 then [0xC0 + c / 64, 0x80 + c % 64]
    else if c < 0x10000 then [0xE0 + c / 4096, 0x80 + (c / 64) % 64, 0x80 + c % 64]
    else [0xF0 + c / 262144, 0x80 + (c / 4096) % 64, 0x80 + (c / 64) % 64, 0x80 + c % 64]
  }

  /** The code point a well-formed UTF-8 sequence of one to four bytes stands for. */
  function Utf8Value(bs: seq<Byte>): int
    requires 1 <= |bs| <= 4
  {
    var b: seq<int> := bs;
    if |b| == 1 then b[0]
    else if |b| == 2 then (b[0] - 0xC0) * 64 + (b[1] - 0x80)
    else if |b| == 3 then (b[0] - 0xE0) * 4096 + (b[1] - 0x80) * 64 + (b[2] - 0x80)
    else (b[0] - 0xF0) * 262144 + (b[1] - 0x80) * 4096 + (b[2] - 0x80) * 64 + (b[3] - 0x80)
  }

  /** Decoding the bytes of one character gives the character back, so the encoding is injective. */
  lemma Utf8CharRoundTrip(ch: char)
    ensures Utf8Value(Utf8Char(ch)) == ch as int
  {
    var c := ch as int;
    if c < 0x80 {
    } else if c < 0x800 {
      assert (c / 64) * 64 + c % 64 == c;
    } else if c < 0x10000 {
      assert (c / 4096) * 4096 + ((c / 64) % 64) * 64 + c % 64 == c by {
        assert (c / 64) == (c / 4096) * 64 + (c / 64) % 64;
      }
    } else {
      assert (c / 262144) * 262144 + ((c / 4096) % 64) * 4096 + ((c / 64) % 64) * 64 + c % 64 == c by {
        assert (c / 4096) == (c / 262144) * 64 + (c / 4096) % 64;
        assert (c / 64) == (c / 4096) * 64 + (c / 64) % 64;
      }
    }
  }

  /** `new TextEncoder().encode(s)`. */
  function Utf8(s: string): (bs: seq<Byte>)
    ensures |bs| >= |s|
  {
    if s == [] then [] else Utf8Char(s[0]) + Utf8(s[1..])
  }

  predicate IsAscii(s: string)
  {
    forall i :: 0 <= i < |s| ==> s[i] as int < 0x80
  }

  /** An ASCII string encodes to its own character codes, one byte each. */
  lemma {:induction false} Utf8Ascii(s: string)
    requires IsAscii(s)
    ensures |Utf8(s)| == |s|
    ensures forall i :: 0 <= i < |s| ==> Utf8(s)[i] == s[i] as int
  {
    if s != [] {
      Utf8Ascii(s[1..]);
    }
  }

  /** The value of a hexadecimal digit, either case; -1 for any other character. */
  function HexValue(ch: char): (v: int)
    ensures -1 <= v < 16
    ensures v == -1 <==> !('0' <= ch <= '9' || 'a' <= ch <= 'f' || 'A' <= ch <= 'F')
  {
    if '0' <= ch <= '9' then ch as int - '0' as int
    else if 'a' <= ch <= 'f' then ch as int - 'a' as int + 10
    else if 'A' <= ch <= 'F' then ch as int - 'A' as int + 10
    else -1
  }

  predicate IsLowerHex(ch: char)
  {
    '0' <= ch <= '9' || 'a' <= ch <= 'f'
  }

  /** The lowercase digit of a value below sixteen. */
  function LowerHexDigit(d: int): (ch: char)
    requires 0 <= d < 16
    ensures IsLowerHex(ch) && HexValue(ch) == d
  {
    if d < 10 then ('0' as int + d) as char else ('a' as int + d - 10) as char
  }

  /** The uppercase digit of a value below sixteen. */
  function UpperHexDigit(d: int): (ch: char)
    requires 0 <= d < 16
    ensures ('0' <= ch <= '9' || 'A' <= ch <= 'F') && HexValue(ch) == d
  {
    if d < 10 then ('0' as int + d) as char else ('A' as int + d - 10) as char
  }

  /** `b.toString(16).padStart(2, '0')`: exactly two lowercase digits whose value is `b`. */
  function HexByte(b: Byte): (h: string)
    ensures |h| == 2 && IsLowerHex(h[0]) && IsLowerHex(h[1])
    ensures HexValue(h[0]) * 16 + HexValue(h[1]) == b
  {
    [LowerHexDigit(b / 16), LowerHexDigit(b % 16)]
  }

  /** Lowercase hexadecimal rendering of a byte string (`.map(...).join('')`, `digest('hex')`). */
  function Hex(bs: seq<Byte>): (h: string)
    ensures |h| == 2 * |bs|
  {
    if bs == [] then "" else HexByte(bs[0]) + Hex(bs[1..])
  }

  /** Byte `i` is rendered by characters `2i` and `2i+1`, exactly two lowercase digits each time. */
  lemma {:induction false} HexAt(bs: seq<Byte>, i: int)
    requires 0 <= i < |bs|
    ensures Hex(bs)[2 * i..2 * i + 2] == HexByte(bs[i])
    ensures IsLowerHex(Hex(bs)[2 * i]) && IsLowerHex(Hex(bs)[2 * i + 1])
    ensures HexValue(Hex(bs)[2 * i]) * 16 + HexValue(Hex(bs)[2 * i + 1]) == bs[i]
  {
    if i > 0 {
      HexAt(bs[1..], i - 1);
      assert Hex(bs)[2..] == Hex(bs[1..]);
      assert Hex(bs)[2 * i..2 * i + 2] == Hex(bs[1..])[2 * (i - 1)..2 * (i - 1) + 2];
    }
  }

  /** Every character of a rendering is a lowercase hexadecimal digit. */
  lemma HexIsLowerHex(bs: seq<Byte>)
    ensures forall k :: 0 <= k < |Hex(bs)| ==> IsLowerHex(Hex(bs)[k])
  {
    forall k | 0 <= k < |Hex(bs)|
      ensures IsLowerHex(Hex(bs)[k])
    {
      HexAt(bs, k / 2);
      assert k == 2 * (k / 2) || k == 2 * (k / 2) + 1;
    }
  }

  /** A rendering holds lowercase digits only, so never a `.`. */
  lemma HexHasNoDot(bs: seq<Byte>)
    ensures forall k :: 0 <= k < |Hex(bs)| ==> IsLowerHex(Hex(bs)[k])
    ensures '.' !in Hex(bs)
  {
    HexIsLowerHex(bs);
    assert forall k :: 0 <= k < |Hex(bs)| ==> Hex(bs)[k] != '.';
  }

  /** Reads pairs of hexadecimal digits back into bytes. */
  function Unhex(h: string): seq<Byte>
    requires |h| % 2 == 0
    requires forall i :: 0 <= i < |h| ==> IsLowerHex(h[i])
  {
    if h == [] then []
    else
      assert IsLowerHex(h[0]) && IsLowerHex(h[1]);
      var b: Byte := HexValue(h[0]) * 16 + HexValue(h[1]);
      [b] + Unhex(h[2..])
  }

  /** `Hex` loses nothing: reading its digits back gives the bytes. */
  lemma {:induction false} UnhexHex(bs: seq<Byte>)
    ensures forall k :: 0 <= k < |Hex(bs)| ==> IsLowerHex(Hex(bs)[k])
    ensures Unhex(Hex(bs)) == bs
  {
    HexIsLowerHex(bs);
    if bs != [] {
      UnhexHex(bs[1..]);
      var h := Hex(bs);
      assert h == HexByte(bs[0]) + Hex(bs[1..]);
      assert h[2..] == Hex(bs[1..]);
    }
  }

  /** Two byte strings with the same rendering are equal. */
  lemma HexInjective(a: seq<Byte>, b: seq<Byte>)
    requires Hex(a) == Hex(b)
    ensures a == b
  {
    UnhexHex(a);
    UnhexHex(b);
  }

  /** The characters `encodeURIComponent` leaves as they are. */
  predicate IsUriUnreserved(ch: char)
  {
    || 'A' <= ch <= 'Z' || 'a' <= ch <= 'z' || '0' <= ch <= '9'
    || ch == '-' || ch == '_' || ch == '.' || ch == '!' || ch == '~' || ch == '*' || ch == '\'' || ch == '(' || ch == ')'
  }

  /** `%XY` escapes, with uppercase digits, of a byte string. */
  function PercentBytes(bs: seq<Byte>): (e: string)
    ensures |e| == 3 * |bs|
    ensures forall i :: 0 <= i < |e| ==> IsUriUnreserved(e[i]) || e[i] == '%'
  {
    if bs == [] then ""
    else ['%', UpperHexDigit(bs[0] / 16), UpperHexDigit(bs[0] % 16)] + PercentBytes(bs[1..])
  }

  /** `encodeURIComponent(s)`: unreserved characters stay, every other character becomes the
      escapes of its UTF-8 bytes; so the result never holds `&`, `=`, `?`, `#`, `/` or `:`. */
  function EncodeUriComponent(s: string): (e: string)
    ensures forall i :: 0 <= i < |e| ==> IsUriUnreserved(e[i]) || e[i] == '%'
  {
    if s == [] then ""
    else (if IsUriUnreserved(s[0]) then [s[0]] else PercentBytes(Utf8Char(s[0]))) + EncodeUriComponent(s[1..])
  }

  /** Byte-level `decodeURIComponent`: an escape `%XY` gives its byte, any other character its
      UTF-8 bytes. */
  function PercentDecode(e: string): seq<Byte>
  {
    if e == [] then []
    else if e[0] == '%' && |e| >= 3 && 0 <= HexValue(e[1]) && 0 <= HexValue(e[2]) then
      [HexValue(e[1]) * 16 + HexValue(e[2])] + PercentDecode(e[3..])
    else Utf8Char(e[0]) + PercentDecode(e[1..])
  }

  /** The escape of one byte, followed by anything, decodes to that byte first. */
  lemma DecodeEscape(b: Byte, tail: string)
    ensures PercentDecode(['%', UpperHexDigit(b / 16), UpperHexDigit(b % 16)] + tail) == [b] + PercentDecode(tail)
  {
    var e := ['%', UpperHexDigit(b / 16), UpperHexDigit(b % 16)] + tail;
    assert e[3..] == tail;
  }

  lemma {:induction false} DecodePercentBytes(bs: seq<Byte>, rest: string)
    ensures PercentDecode(PercentBytes(bs) + rest) == bs + PercentDecode(rest)
  {
    if bs != [] {
      var head := ['%', UpperHexDigit(bs[0] / 16), UpperHexDigit(bs[0] % 16)];
      var tail := PercentBytes(bs[1..]) + rest;
      assert PercentBytes(bs) + rest == head + tail;
      DecodeEscape(bs[0], tail);
      DecodePercentBytes(bs[1..], rest);
      assert [bs[0]] + (bs[1..] + PercentDecode(rest)) == bs + PercentDecode(rest);
    } else {
      assert PercentBytes(bs) + rest == rest;
    }
  }

  /** Decoding what `encodeURIComponent` produced gives back the UTF-8 bytes of the input. */
  lemma {:induction false} DecodeEncode(s: string)
    ensures PercentDecode(EncodeUriComponent(s)) == Utf8(s)
  {
    if s != [] {
      DecodeEncode(s[1..]);
      var rest := EncodeUriComponent(s[1..]);
      if IsUriUnreserved(s[0]) {
        assert ([s[0]] + rest)[1..] == rest;
      } else {
        DecodePercentBytes(Utf8Char(s[0]), rest);
      }
    }
  }
}
