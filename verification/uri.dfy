/**
 * The URI component codec of ECMA-262 (section 19.2.6, URI Handling Functions):
 * `encodeURIComponent` turns every character outside the unreserved set into the
 * percent-encoded octets of its UTF-8 form (section 2.1 of RFC 3986, upper-case hex
 * digits), and `decodeURIComponent` undoes it.
 *
 * Strings are sequences of Dafny `char`, which are Unicode scalar values: a lone
 * surrogate, on which `encodeURIComponent` throws a URIError, cannot occur.
 */
module UriComponent {
  import opened Wrappers

  type Byte = x: int | 0 <= x < 256

  /** The characters `encodeURIComponent` leaves alone: letters, digits and - _ . ! ~ * ' ( ) */
  predicate Unreserved(c: char) {
    ('A' <= c <= 'Z') || ('a' <= c <= 'z') || ('0' <= c <= '9') ||
    c == '-' || c == '_' || c == '.' || c == '!' || c == '~' || c == '*' || c == '\'' || c == '(' || c == ')'
  }

  predicate UpperHexDigit(c: char) {
    ('0' <= c <= '9') || ('A' <= c <= 'F')
  }

  function HexDigit(d: int): (c: char)
    requires 0 <= d < 16
    ensures UpperHexDigit(c)
  {
    if d < 10 then '0' + d as char else 'A' + (d - 10) as char
  }

  /** The value of a hexadecimal digit; decoding accepts both cases. */
  function HexValue(c: char): (r: Option<int>)
    ensures r.Some? ==> 0 <= r.value < 16
  {
    if '0' <= c <= '9' then Some(c as int - '0' as int)
    else if 'A' <= c <= 'F' then Some(c as int - 'A' as int + 10)
    else if 'a' <= c <= 'f' then Some(c as int - 'a' as int + 10)
    else None
  }

  lemma HexValueOfDigit(d: int)
    requires 0 <= d < 16
    ensures HexValue(HexDigit(d)) == Some(d)
  {
  }

  /** The UTF-8 octets of one scalar value (section 3 of RFC 3629). */
  function Utf8(c: char): (bs: seq<Byte>)
    ensures 1 <= |bs| <= 4
    ensures bs[0] < 0x80 <==> |bs| == 1
  {
    var v := c as int;
    if v < 0x80 then [v]
    else if v < 0x800 then [0xC0 + v / 64, 0x80 + v % 64]
    else if v < 0x1_0000 then [0xE0 + v / 4096, 0x80 + (v / 64) % 64, 0x80 + v % 64]
    else [0xF0 + v / 262144, 0x80 + (v / 4096) % 64, 0x80 + (v / 64) % 64, 0x80 + v % 64]
  }

  /** One octet written as `%` and two upper-case hex digits. */
  function Triplet(b: Byte): string {
    ['%', HexDigit(b / 16), HexDigit(b % 16)]
  }

  function Escape(bs: seq<Byte>): (t: string)
    ensures |t| == 3 * |bs|
  {
    if bs == [] then [] else Triplet(bs[0]) + Escape(bs[1..])
  }

  function EncodeChar(c: char): string {
    if Unreserved(c) then [c] else Escape(Utf8(c))
  }

  /** `encodeURIComponent` */
  function Encode(s: string): string {
    if s == [] then [] else EncodeChar(s[0]) + Encode(s[1..])
  }

  /** The octet written at `s[i..i+3]` as `%XY`, if there is one. */
  function ReadOctet(s: string, i: nat): (r: Option<Byte>)
  {
    if i + 3 <= |s| && s[i] == '%' && HexValue(s[i + 1]).Some? && HexValue(s[i + 2]).Some? then
      Some(16 * HexValue(s[i + 1]).value + HexValue(s[i + 2]).value)
    else None
  }

  /** The payload (low six bits) of an escaped continuation octet 10xxxxxx at `s[i..i+3]`. */
  function ReadContinuation(s: string, i: nat): (r: Option<int>)
    ensures r.Some? ==> 0 <= r.value < 64
  {
    match ReadOctet(s, i)
    case Some(b) => if 0x80 <= b < 0xC0 then Some(b - 0x80) else None
    case None => None
  }

  datatype Decoded = Decoded(c: char, width: nat)

  /** Accepts a code point assembled from `n` octets unless it is overlong, a surrogate or out of range. */
  function Finish(v: int, n: nat): (r: Option<Decoded>)
    requires 2 <= n <= 4
    ensures r.Some? ==> r.value.width == 3 * n && r.value.c as int == v
  {
    var low := if n == 2 then 0x80 else if n == 3 then 0x800 else 0x1_0000;
    var high := if n == 2 then 0x800 else if n == 3 then 0x1_0000 else 0x11_0000;
    if low <= v < high && !(0xD800 <= v < 0xE000) then Some(Decoded(v as char, 3 * n)) else None
  }

  /**
   * One escaped character at the start of `s` (which starts with `%`): the octet count comes
   * from the leading one bits of the first octet, a lone continuation octet or more than four
   * octets is an error, as is any sequence that is not valid UTF-8.
   */
  function DecodeEscaped(s: string): (r: Option<Decoded>)
    ensures r.Some? ==> 3 <= r.value.width <= |s|
  {
    match ReadOctet(s, 0)
    case None => None
    case Some(b0) =>
      if b0 < 0x80 then Some(Decoded(b0 as char, 3))
      else if b0 < 0xC0 then None
      else if b0 < 0xE0 then
        match ReadContinuation(s, 3)
        case None => None
        case Some(x1) => Finish((b0 - 0xC0) * 64 + x1, 2)
      else if b0 < 0xF0 then
        match (ReadContinuation(s, 3), ReadContinuation(s, 6))
        case (Some(x1), Some(x2)) => Finish((b0 - 0xE0) * 4096 + x1 * 64 + x2, 3)
        case _ => None
      else if b0 < 0xF8 then
        match (ReadContinuation(s, 3), ReadContinuation(s, 6), ReadContinuation(s, 9))
        case (Some(x1), Some(x2), Some(x3)) => Finish((b0 - 0xF0) * 262144 + x1 * 4096 + x2 * 64 + x3, 4)
        case _ => None
      else None
  }

  /** `decodeURIComponent`: `None` where it throws a URIError. */
  function Decode(s: string): Option<string>
    decreases |s|
  {
    if s == [] then Some([])
    else if s[0] != '%' then
      match Decode(s[1..])
      case Some(t) => Some([s[0]] + t)
      case None => None
    else
      match DecodeEscaped(s)
      case None => None
      case Some(d) =>
        match Decode(s[d.width..])
        case Some(t) => Some([d.c] + t)
        case None => None
  }

  /** The shape of `encodeURIComponent`'s output: unreserved characters and `%XY` triplets. */
  predicate WellEscaped(t: string)
    decreases |t|
  {
    if t == [] then true
    else if Unreserved(t[0]) then WellEscaped(t[1..])
    else |t| >= 3 && t[0] == '%' && UpperHexDigit(t[1]) && UpperHexDigit(t[2]) && WellEscaped(t[3..])
  }

  // ---------------------------------------------------------------------------
  // Reading back what was written

  lemma {:induction false} EscapeAt(bs: seq<Byte>, j: nat)
    requires j < |bs|
    ensures Escape(bs)[3 * j .. 3 * j + 3] == Triplet(bs[j])
  {
    if j > 0 {
      EscapeAt(bs[1..], j - 1);
      assert Escape(bs) == Triplet(bs[0]) + Escape(bs[1..]);
      assert Escape(bs)[3 * j .. 3 * j + 3] == Escape(bs[1..])[3 * (j - 1) .. 3 * (j - 1) + 3];
    }
  }

  lemma ReadTriplet(s: string, i: nat, b: Byte)
    requires i + 3 <= |s| && s[i..i + 3] == Triplet(b)
    ensures ReadOctet(s, i) == Some(b)
  {
    assert s[i] == '%' && s[i + 1] == HexDigit(b / 16) && s[i + 2] == HexDigit(b % 16);
    HexValueOfDigit(b / 16);
    HexValueOfDigit(b % 16);
  }

  /** The `j`-th triplet of an escaped octet string reads back as the `j`-th octet. */
  lemma ReadEscapedOctet(bs: seq<Byte>, rest: string, j: nat)
    requires j < |bs|
    ensures ReadOctet(Escape(bs) + rest, 3 * j) == Some(bs[j])
  {
    var e := Escape(bs);
    var i := 3 * j;
    assert i + 3 <= |e| by { assert j + 1 <= |bs|; }
    EscapeAt(bs, j);
    assert (e + rest)[i .. i + 3] == e[i .. i + 3];
    ReadTriplet(e + rest, i, bs[j]);
  }

  lemma Split3(v: nat)
    ensures v / 64 == (v / 4096) * 64 + (v / 64) % 64
    ensures (v / 4096) * 4096 + ((v / 64) % 64) * 64 + v % 64 == v
  {
    var q := v / 64;
    assert q / 64 == v / 4096;
  }

  lemma Split4(v: nat)
    ensures (v / 262144) * 262144 + ((v / 4096) % 64) * 4096 + ((v / 64) % 64) * 64 + v % 64 == v
  {
    Split3(v);
    var q := v / 4096;
    assert q / 64 == v / 262144;
    assert v / 4096 == (v / 262144) * 64 + (v / 4096) % 64;
  }

  lemma DecodeTwoOctets(s: string, c: char)
    requires 0x80 <= c as int < 0x800
    requires ReadOctet(s, 0) == Some(0xC0 + (c as int) / 64)
    requires ReadOctet(s, 3) == Some(0x80 + (c as int) % 64)
    ensures DecodeEscaped(s) == Some(Decoded(c, 6))
  {
    assert ReadContinuation(s, 3) == Some((c as int) % 64);
  }

  lemma DecodeThreeOctets(s: string, c: char)
    requires 0x800 <= c as int < 0x1_0000
    requires ReadOctet(s, 0) == Some(0xE0 + (c as int) / 4096)
    requires ReadOctet(s, 3) == Some(0x80 + ((c as int) / 64) % 64)
    requires ReadOctet(s, 6) == Some(0x80 + (c as int) % 64)
    ensures DecodeEscaped(s) == Some(Decoded(c, 9))
  {
    var v := c as int;
    Split3(v);
    assert ReadContinuation(s, 3) == Some((v / 64) % 64);
    assert ReadContinuation(s, 6) == Some(v % 64);
  }

  lemma DecodeFourOctets(s: string, c: char)
    requires 0x1_0000 <= c as int
    requires ReadOctet(s, 0) == Some(0xF0 + (c as int) / 262144)
    requires ReadOctet(s, 3) == Some(0x80 + ((c as int) / 4096) % 64)
    requires ReadOctet(s, 6) == Some(0x80 + ((c as int) / 64) % 64)
    requires ReadOctet(s, 9) == Some(0x80 + (c as int) % 64)
    ensures DecodeEscaped(s) == Some(Decoded(c, 12))
  {
    var v := c as int;
    Split4(v);
    assert ReadContinuation(s, 3) == Some((v / 4096) % 64);
    assert ReadContinuation(s, 6) == Some((v / 64) % 64);
    assert ReadContinuation(s, 9) == Some(v % 64);
  }

  /** The escaped UTF-8 form of one character decodes to that character and nothing more. */
  lemma DecodeEscapedUtf8(c: char, rest: string)
    ensures DecodeEscaped(Escape(Utf8(c)) + rest) == Some(Decoded(c, 3 * |Utf8(c)|))
  {
    var bs := Utf8(c);
    var s := Escape(bs) + rest;
    var v := c as int;
    ReadEscapedOctet(bs, rest, 0);
    if |bs| >= 2 { ReadEscapedOctet(bs, rest, 1); }
    if |bs| >= 3 { ReadEscapedOctet(bs, rest, 2); }
    if |bs| == 4 { ReadEscapedOctet(bs, rest, 3); }
    if v < 0x80 {
    } else if v < 0x800 {
      DecodeTwoOctets(s, c);
    } else if v < 0x1_0000 {
      DecodeThreeOctets(s, c);
    } else {
      DecodeFourOctets(s, c);
    }
  }

  lemma DecodeEncodeChar(c: char, t: string)
    ensures Decode(EncodeChar(c) + t) == if Decode(t).Some? then Some([c] + Decode(t).value) else None
  {
    var s := EncodeChar(c) + t;
    if Unreserved(c) {
      assert s[1..] == t;
    } else {
      DecodeEscapedUtf8(c, t);
      assert s[0] == Escape(Utf8(c))[0] == '%';
      assert s[3 * |Utf8(c)|..] == t;
    }
  }

  /** Round trip: `decodeURIComponent(encodeURIComponent(s)) == s` for every string. */
  lemma {:induction false} DecodeEncode(s: string)
    ensures Decode(Encode(s)) == Some(s)
  {
    if s != [] {
      DecodeEncode(s[1..]);
      DecodeEncodeChar(s[0], Encode(s[1..]));
      assert [s[0]] + s[1..] == s;
    }
  }

  lemma {:induction false} EscapeWellEscaped(bs: seq<Byte>, t: string)
    requires WellEscaped(t)
    ensures WellEscaped(Escape(bs) + t)
  {
    if bs == [] {
      assert Escape(bs) + t == t;
    } else {
      EscapeWellEscaped(bs[1..], t);
      assert Escape(bs) + t == Triplet(bs[0]) + (Escape(bs[1..]) + t);
      TripletWellEscaped(bs[0], Escape(bs[1..]) + t);
    }
  }

  lemma TripletWellEscaped(b: Byte, t: string)
    requires WellEscaped(t)
    ensures WellEscaped(Triplet(b) + t)
  {
    var u := Triplet(b) + t;
    assert u[0] == '%' && UpperHexDigit(u[1]) && UpperHexDigit(u[2]);
    assert u[3..] == t;
  }

  /** The output of `encodeURIComponent` consists of unreserved characters and `%XY` triplets only. */
  lemma {:induction false} EncodeWellEscaped(s: string)
    ensures WellEscaped(Encode(s))
  {
    if s != [] {
      EncodeWellEscaped(s[1..]);
      if Unreserved(s[0]) {
        assert (EncodeChar(s[0]) + Encode(s[1..]))[1..] == Encode(s[1..]);
      } else {
        EscapeWellEscaped(Utf8(s[0]), Encode(s[1..]));
      }
    }
  }

  /** Every character of a well-escaped string is unreserved or `%`: no `&`, `=` or `?` survives. */
  lemma {:induction false} WellEscapedAlphabet(t: string)
    requires WellEscaped(t)
    ensures forall c :: c in t ==> Unreserved(c) || c == '%'
    decreases |t|
  {
    if t != [] {
      if Unreserved(t[0]) {
        WellEscapedAlphabet(t[1..]);
        assert t == [t[0]] + t[1..];
      } else {
        WellEscapedAlphabet(t[3..]);
        assert t == t[..3] + t[3..];
      }
    }
  }
}
