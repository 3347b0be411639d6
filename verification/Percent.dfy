/**
 Percent-encoding of path text, as `encodeURIComponent` and `decodeURIComponent`
 define it over UTF-8 (section 2.1 of RFC 3986, RFC 3629). Characters are Unicode scalar values.
 */
module Percent {
  import opened Wrappers

  /** The characters `encodeURIComponent` leaves alone. */
  predicate Unreserved(c: char) {
    'A' <= c <= 'Z' || 'a' <= c <= 'z' || '0' <= c <= '9' || c in "-_.!~*'()"
  }

  function HexDigit(n: int): char
    requires 0 <= n < 16
  {
    if n < 10 then (n + 48) as char else (n + 55) as char
  }

  function HexValue(c: char): int {
    if '0' <= c <= '9' then c as int - 48
    else if 'A' <= c <= 'F' then c as int - 55
    else if 'a' <= c <= 'f' then c as int - 87
    else -1
  }

  function EncodeByte(b: int): string
    requires 0 <= b < 256
  {
    ['%', HexDigit(b / 16), HexDigit(b % 16)]
  }

  /** The value of a leading `%XX`, or -1 when there is none. */
  function ByteAt(s: string): int {
    if |s| >= 3 && s[0] == '%' && HexValue(s[1]) >= 0 && HexValue(s[2]) >= 0
    then HexValue(s[1]) * 16 + HexValue(s[2])
    else -1
  }

  /** The value of a leading escaped continuation byte (its low six bits), or -1. */
  function TailAt(s: string): int {
    var b := ByteAt(s);
    if 0x80 <= b < 0xC0 then b - 0x80 else -1
  }

  predicate IsScalar(n: int) {
    0 <= n < 0xD800 || 0xE000 <= n < 0x11_0000
  }

  /** A lead byte and its continuation bytes, each given by its payload. */
  function EncodeBytes(lead: int, tails: seq<int>): string
    requires 0 <= lead < 256 && forall i | 0 <= i < |tails| :: 0 <= tails[i] < 64
    decreases |tails|
  {
    if tails == [] then EncodeByte(lead) else EncodeByte(lead) + EncodeBytes(0x80 + tails[0], tails[1..])
  }

  /** The escaped UTF-8 bytes of one code point. */
  function EncodePoint(cp: int): string
    requires IsScalar(cp)
  {
    if cp < 0x80 then EncodeBytes(cp, [])
    else if cp < 0x800 then EncodeBytes(0xC0 + cp / 64, [cp % 64])
    else if cp < 0x10000 then EncodeBytes(0xE0 + cp / 64 / 64, [cp / 64 % 64, cp % 64])
    else EncodeBytes(0xF0 + cp / 64 / 64 / 64, [cp / 64 / 64 % 64, cp / 64 % 64, cp % 64])
  }

  function EncodeChar(c: char): string {
    if Unreserved(c) then [c] else EncodePoint(c as int)
  }

  function EncodeComponent(s: string): string {
    if s == "" then "" else EncodeChar(s[0]) + EncodeComponent(s[1..])
  }

  datatype Decoded = Bad | One(c: char, width: nat)

  /** Decode the escape sequence at the head of `s`; overlong forms, surrogates and cut sequences are bad. */
  function DecodeOne(s: string): (d: Decoded)
    ensures d.One? ==> 3 <= d.width <= |s|
  {
    var b := ByteAt(s);
    if b < 0 then Bad
    else if b < 0x80 then One(b as char, 3)
    else if 0xC2 <= b < 0xE0 then
      var t := TailAt(s[3..]);
      if t < 0 then Bad else One(((b - 0xC0) * 64 + t) as char, 6)
    else if 0xE0 <= b < 0xF0 then
      var t := TailAt(s[3..]);
      if t < 0 then Bad else
      var u := TailAt(s[6..]);
      if u < 0 then Bad else
      var cp := (b - 0xE0) * 4096 + t * 64 + u;
      if cp < 0x800 || !IsScalar(cp) then Bad else One(cp as char, 9)
    else if 0xF0 <= b < 0xF5 then
      var t := TailAt(s[3..]);
      if t < 0 then Bad else
      var u := TailAt(s[6..]);
      if u < 0 then Bad else
      var v := TailAt(s[9..]);
      if v < 0 then Bad else
      var cp := (b - 0xF0) * 262144 + t * 4096 + u * 64 + v;
      if cp < 0x10000 || !IsScalar(cp) then Bad else One(cp as char, 12)
    else Bad
  }

  /** `decodeURIComponent`; None where it throws. */
  function DecodeComponent(s: string): Option<string>
    decreases |s|
  {
    if s == "" then Some("")
    else if s[0] != '%' then
      match DecodeComponent(s[1..])
      case None => None
      case Some(t) => Some([s[0]] + t)
    else
      match DecodeOne(s)
      case Bad => None
      case One(c, width) =>
        match DecodeComponent(s[width..])
        case None => None
        case Some(t) => Some([c] + t)
  }

  /** One path segment decoded; a malformed escape passes through verbatim. */
  function DecodeSegment(segment: string): string {
    if '%' !in segment then segment
    else match DecodeComponent(segment)
      case None => segment
      case Some(text) => text
  }

  lemma ByteAtEncoded(b: int, rest: string)
    requires 0 <= b < 256
    ensures ByteAt(EncodeByte(b) + rest) == b
    ensures (EncodeByte(b) + rest)[3..] == rest
    ensures 0x80 <= b < 0xC0 ==> TailAt(EncodeByte(b) + rest) == b - 0x80
  {
    var s := EncodeByte(b) + rest;
    assert s[1] == HexDigit(b / 16) && s[2] == HexDigit(b % 16);
  }

  lemma TwoBytes(b: int, t: int, rest: string)
    requires 0 <= b < 256 && 0 <= t < 64
    ensures EncodeBytes(b, [t]) + rest == EncodeByte(b) + (EncodeByte(0x80 + t) + rest)
    ensures |EncodeBytes(b, [t])| == 6
  {
    assert [t][1..] == [];
    assert EncodeBytes(b, [t]) == EncodeByte(b) + EncodeBytes(0x80 + t, []);
  }

  lemma DecodeTwo(b: int, t: int, rest: string)
    requires 0xC2 <= b < 0xE0 && 0 <= t < 64
    ensures DecodeOne(EncodeBytes(b, [t]) + rest) == One(((b - 0xC0) * 64 + t) as char, 6)
  {
    TwoBytes(b, t, rest);
    ByteAtEncoded(b, EncodeByte(0x80 + t) + rest);
    ByteAtEncoded(0x80 + t, rest);
  }

  lemma ThreeBytes(b: int, t: int, u: int, rest: string)
    requires 0 <= b < 256 && 0 <= t < 64 && 0 <= u < 64
    ensures EncodeBytes(b, [t, u]) + rest == EncodeByte(b) + (EncodeByte(0x80 + t) + (EncodeByte(0x80 + u) + rest))
    ensures |EncodeBytes(b, [t, u])| == 9
  {
    assert [t, u][1..] == [u];
    assert EncodeBytes(b, [t, u]) == EncodeByte(b) + EncodeBytes(0x80 + t, [u]);
    TwoBytes(0x80 + t, u, rest);
  }

  lemma DecodeThree(b: int, t: int, u: int, rest: string)
    requires 0xE0 <= b < 0xF0 && 0 <= t < 64 && 0 <= u < 64
    requires 0x800 <= (b - 0xE0) * 4096 + t * 64 + u && IsScalar((b - 0xE0) * 4096 + t * 64 + u)
    ensures DecodeOne(EncodeBytes(b, [t, u]) + rest) == One(((b - 0xE0) * 4096 + t * 64 + u) as char, 9)
  {
    var r2 := EncodeByte(0x80 + u) + rest;
    var r1 := EncodeByte(0x80 + t) + r2;
    ThreeBytes(b, t, u, rest);
    ByteAtEncoded(b, r1);
    ByteAtEncoded(0x80 + t, r2);
    ByteAtEncoded(0x80 + u, rest);
    var s := EncodeByte(b) + r1;
    assert s[6..] == r1[3..];
    assert ByteAt(s) == b && TailAt(s[3..]) == t && TailAt(s[6..]) == u;
  }

  lemma FourBytes(b: int, t: int, u: int, v: int, rest: string)
    requires 0 <= b < 256 && 0 <= t < 64 && 0 <= u < 64 && 0 <= v < 64
    ensures EncodeBytes(b, [t, u, v]) + rest
         == EncodeByte(b) + (EncodeByte(0x80 + t) + (EncodeByte(0x80 + u) + (EncodeByte(0x80 + v) + rest)))
    ensures |EncodeBytes(b, [t, u, v])| == 12
  {
    assert [t, u, v][1..] == [u, v];
    assert EncodeBytes(b, [t, u, v]) == EncodeByte(b) + EncodeBytes(0x80 + t, [u, v]);
    ThreeBytes(0x80 + t, u, v, rest);
  }

  lemma DecodeFour(b: int, t: int, u: int, v: int, rest: string)
    requires 0xF0 <= b < 0xF5 && 0 <= t < 64 && 0 <= u < 64 && 0 <= v < 64
    requires 0x10000 <= (b - 0xF0) * 262144 + t * 4096 + u * 64 + v
    requires IsScalar((b - 0xF0) * 262144 + t * 4096 + u * 64 + v)
    ensures DecodeOne(EncodeBytes(b, [t, u, v]) + rest)
         == One(((b - 0xF0) * 262144 + t * 4096 + u * 64 + v) as char, 12)
  {
    var r3 := EncodeByte(0x80 + v) + rest;
    var r2 := EncodeByte(0x80 + u) + r3;
    var r1 := EncodeByte(0x80 + t) + r2;
    FourBytes(b, t, u, v, rest);
    ByteAtEncoded(b, r1);
    ByteAtEncoded(0x80 + t, r2);
    ByteAtEncoded(0x80 + u, r3);
    ByteAtEncoded(0x80 + v, rest);
    var s := EncodeByte(b) + r1;
    assert s[6..] == r1[3..];
    assert s[9..] == r2[3..];
    assert ByteAt(s) == b && TailAt(s[3..]) == t && TailAt(s[6..]) == u && TailAt(s[9..]) == v;
  }

  /** Six bits at a time. */
  lemma SixBits(n: int)
    ensures n == n / 64 * 64 + n % 64 && 0 <= n % 64 < 64
  {
  }

  lemma EncodesTwo(cp: int)
    requires 0x80 <= cp < 0x800
    ensures EncodePoint(cp) == EncodeBytes(0xC0 + cp / 64, [cp % 64])
  {
  }

  lemma EncodesThree(cp: int)
    requires 0x800 <= cp < 0x10000 && IsScalar(cp)
    ensures EncodePoint(cp) == EncodeBytes(0xE0 + cp / 64 / 64, [cp / 64 % 64, cp % 64])
  {
  }

  lemma EncodesFour(cp: int)
    requires 0x10000 <= cp < 0x11_0000
    ensures EncodePoint(cp) == EncodeBytes(0xF0 + cp / 64 / 64 / 64, [cp / 64 / 64 % 64, cp / 64 % 64, cp % 64])
  {
  }

  lemma DecodePointTwo(cp: int, rest: string)
    requires 0x80 <= cp < 0x800
    ensures DecodeOne(EncodePoint(cp) + rest) == One(cp as char, |EncodePoint(cp)|)
  {
    var b, t := cp / 64, cp % 64;
    EncodesTwo(cp);
    hide EncodePoint, EncodeBytes, DecodeOne, EncodeByte;
    assert cp == b * 64 + t by { SixBits(cp); }
    TwoBytes(0xC0 + b, t, rest);
    DecodeTwo(0xC0 + b, t, rest);
  }

  lemma DecodePointThree(cp: int, rest: string)
    requires 0x800 <= cp < 0x10000 && IsScalar(cp)
    ensures DecodeOne(EncodePoint(cp) + rest) == One(cp as char, |EncodePoint(cp)|)
  {
    var b, t, u := cp / 64 / 64, cp / 64 % 64, cp % 64;
    EncodesThree(cp);
    hide EncodePoint, EncodeBytes, DecodeOne, EncodeByte;
    assert cp == b * 4096 + t * 64 + u by { SixBits(cp); SixBits(cp / 64); }
    ThreeBytes(0xE0 + b, t, u, rest);
    DecodeThree(0xE0 + b, t, u, rest);
  }

  lemma DecodePointFour(cp: int, rest: string)
    requires 0x10000 <= cp < 0x11_0000
    ensures DecodeOne(EncodePoint(cp) + rest) == One(cp as char, |EncodePoint(cp)|)
  {
    var b, t, u, v := cp / 64 / 64 / 64, cp / 64 / 64 % 64, cp / 64 % 64, cp % 64;
    EncodesFour(cp);
    hide EncodePoint, EncodeBytes, DecodeOne, EncodeByte;
    assert cp == b * 262144 + t * 4096 + u * 64 + v by { SixBits(cp); SixBits(cp / 64); SixBits(cp / 64 / 64); }
    FourBytes(0xF0 + b, t, u, v, rest);
    DecodeFour(0xF0 + b, t, u, v, rest);
  }

  /** The escaped bytes of a code point decode to it, whatever follows. */
  lemma DecodeOnePoint(cp: int, rest: string)
    requires IsScalar(cp)
    ensures DecodeOne(EncodePoint(cp) + rest) == One(cp as char, |EncodePoint(cp)|)
  {
    if cp < 0x80 {
      ByteAtEncoded(cp, rest);
    } else if cp < 0x800 {
      DecodePointTwo(cp, rest);
    } else if cp < 0x10000 {
      DecodePointThree(cp, rest);
    } else {
      DecodePointFour(cp, rest);
    }
  }

  /** Round trip: decoding undoes encoding on every string. */
  lemma {:induction false} DecodeEncoded(s: string)
    ensures DecodeComponent(EncodeComponent(s)) == Some(s)
  {
    if s != "" {
      var c, rest := s[0], EncodeComponent(s[1..]);
      DecodeEncoded(s[1..]);
      assert s == [c] + s[1..];
      if Unreserved(c) {
        assert ([c] + rest)[1..] == rest;
      } else {
        DecodeOnePoint(c as int, rest);
        assert (EncodeChar(c) + rest)[|EncodeChar(c)|..] == rest;
        assert EncodeComponent(s)[0] == '%';
      }
    }
  }

  lemma {:induction false} DecodePlain(s: string)
    requires '%' !in s
    ensures DecodeComponent(s) == Some(s)
  {
    if s != "" {
      DecodePlain(s[1..]);
      assert s == [s[0]] + s[1..];
    }
  }

  /** A segment that was encoded reads back as the original value. */
  lemma DecodeSegmentEncoded(s: string)
    ensures DecodeSegment(EncodeComponent(s)) == s
  {
    DecodeEncoded(s);
    if '%' !in EncodeComponent(s) {
      DecodePlain(EncodeComponent(s));
    }
  }

  lemma {:induction false} EncodedHasNoSlash(s: string)
    ensures '/' !in EncodeComponent(s)
    ensures s != "" ==> EncodeComponent(s) != ""
  {
    if s != "" {
      EncodedHasNoSlash(s[1..]);
      EncodedCharHasNoSlash(s[0]);
    }
  }

  lemma {:induction false} EncodedBytesHaveNoSlash(lead: int, tails: seq<int>)
    requires 0 <= lead < 256 && forall i | 0 <= i < |tails| :: 0 <= tails[i] < 64
    ensures '/' !in EncodeBytes(lead, tails) && EncodeBytes(lead, tails) != ""
    decreases |tails|
  {
    assert HexDigit(lead / 16) != '/' && HexDigit(lead % 16) != '/';
    if tails != [] { EncodedBytesHaveNoSlash(0x80 + tails[0], tails[1..]); }
  }

  lemma EncodedCharHasNoSlash(c: char)
    ensures '/' !in EncodeChar(c) && EncodeChar(c) != ""
  {
    var cp := c as int;
    if Unreserved(c) {
    } else if cp < 0x80 {
      EncodedBytesHaveNoSlash(cp, []);
    } else if cp < 0x800 {
      EncodedBytesHaveNoSlash(0xC0 + cp / 64, [cp % 64]);
    } else if cp < 0x10000 {
      EncodedBytesHaveNoSlash(0xE0 + cp / 64 / 64, [cp / 64 % 64, cp % 64]);
    } else {
      EncodedBytesHaveNoSlash(0xF0 + cp / 64 / 64 / 64, [cp / 64 / 64 % 64, cp / 64 % 64, cp % 64]);
    }
  }

  /** Re-escape exactly "%" and "/" inside a decoded value: the static table's key alphabet. */
  function Reescape(s: string): string {
    if s == "" then ""
    else (if s[0] == '%' then "%25" else if s[0] == '/' then "%2F" else [s[0]]) + Reescape(s[1..])
  }

  /** The key alphabet decodes to what it stands for, so distinct values have distinct keys. */
  lemma {:induction false} DecodeReescaped(s: string)
    ensures DecodeComponent(Reescape(s)) == Some(s)
    ensures '/' !in Reescape(s)
  {
    if s != "" {
      var rest := Reescape(s[1..]);
      DecodeReescaped(s[1..]);
      assert s == [s[0]] + s[1..];
      if s[0] == '%' {
        assert ("%25" + rest)[3..] == rest;
        assert ByteAt("%25" + rest) == 0x25;
        assert DecodeOne("%25" + rest) == One('%', 3);
      } else if s[0] == '/' {
        assert ("%2F" + rest)[3..] == rest;
        assert ByteAt("%2F" + rest) == 0x2F;
        assert DecodeOne("%2F" + rest) == One('/', 3);
      } else {
        assert ([s[0]] + rest)[1..] == rest;
      }
    }
  }

  lemma DecodeSegmentReescaped(s: string)
    ensures DecodeSegment(Reescape(s)) == s
    ensures '/' !in Reescape(s)
  {
    DecodeReescaped(s);
    if '%' !in Reescape(s) {
      DecodePlain(Reescape(s));
    }
  }

  lemma {:induction false} ReescapePlain(s: string)
    requires '%' !in s && '/' !in s
    ensures Reescape(s) == s
  {
    if s != "" {
      ReescapePlain(s[1..]);
    }
  }

  lemma DecodeSegmentNonEmpty(s: string)
    requires s != ""
    ensures DecodeSegment(s) != ""
  {
  }

  // ---------------------------------------------------------------- what decoding means

  function UpperDigit(c: char): char {
    if 'a' <= c <= 'f' then c - 'a' + 'A' else c
  }

  /** Escapes are read in either case. */
  function UpperHex(s: string): (r: string)
    ensures |r| == |s| && forall i | 0 <= i < |s| :: r[i] == UpperDigit(s[i])
  {
    seq(|s|, i requires 0 <= i < |s| => UpperDigit(s[i]))
  }

  /** `s` writes `t`: each character stands for itself, or, other than "%", for its UTF-8 bytes escaped in either case. */
  predicate Writes(s: string, t: string)
    decreases |t|
  {
    if t == "" then s == ""
    else if s == "" then false
    else if s[0] != '%' then s[0] == t[0] && Writes(s[1..], t[1..])
    else
      var escaped := EncodePoint(t[0] as int);
      |escaped| <= |s| && UpperHex(s[..|escaped|]) == escaped && Writes(s[|escaped|..], t[1..])
  }

  lemma UpperByteAt(s: string)
    ensures ByteAt(UpperHex(s)) == ByteAt(s) && TailAt(UpperHex(s)) == TailAt(s)
  {
    forall c ensures HexValue(UpperDigit(c)) == HexValue(c) && (UpperDigit(c) == '%' <==> c == '%') {}
  }

  lemma UpperTail(s: string, k: nat)
    requires k <= |s|
    ensures UpperHex(s)[k..] == UpperHex(s[k..]) && UpperHex(s) == UpperHex(s[..k]) + UpperHex(s[k..])
  {
  }

  lemma UpperDecodeOne(s: string)
    ensures DecodeOne(UpperHex(s)) == DecodeOne(s)
  {
    hide ByteAt, HexValue, UpperHex, UpperDigit;
    UpperByteAt(s);
    forall k | 0 <= k <= |s| ensures TailAt(UpperHex(s)[k..]) == TailAt(s[k..]) {
      UpperTail(s, k);
      UpperByteAt(s[k..]);
    }
    if ByteAt(s) >= 0 { ByteAtLength(s); ByteAtLength(UpperHex(s)); }
    hide TailAt;
    OneAgrees(s, UpperHex(s));
  }

  lemma ByteAtLength(s: string)
    ensures ByteAt(s) >= 0 ==> |s| >= 3
    ensures TailAt(s) >= 0 ==> |s| >= 3
  {
  }

  lemma OneAgrees(s: string, u: string)
    requires |u| == |s| && ByteAt(u) == ByteAt(s) && forall k | 0 <= k <= |s| :: TailAt(u[k..]) == TailAt(s[k..])
    ensures DecodeOne(u) == DecodeOne(s)
  {
    hide HexValue;
    assert ByteAt(s) >= 0 ==> |s| >= 3;
    if |s| >= 6 { assert TailAt(u[3..]) == TailAt(s[3..]); assert TailAt(u[6..]) == TailAt(s[6..]); }
    if |s| >= 9 { assert TailAt(u[9..]) == TailAt(s[9..]); }
  }

  /** A byte read is that byte escaped. */
  lemma ByteRead(s: string)
    requires ByteAt(s) >= 0
    ensures |s| >= 3 && ByteAt(s) < 256 && UpperHex(s[..3]) == EncodeByte(ByteAt(s))
  {
    var x, y := HexValue(s[1]), HexValue(s[2]);
    assert ByteAt(s) / 16 == x && ByteAt(s) % 16 == y;
  }

  lemma TailRead(s: string)
    requires TailAt(s) >= 0
    ensures |s| >= 3 && TailAt(s) < 64 && UpperHex(s[..3]) == EncodeByte(0x80 + TailAt(s))
  {
    ByteRead(s);
  }

  /** A sequence that decodes is the escaped code point it decodes to. */
  lemma OneRead(s: string)
    requires DecodeOne(s).One?
    ensures var d := DecodeOne(s);
            UpperHex(s[..d.width]) == EncodePoint(d.c as int) && |EncodePoint(d.c as int)| == d.width
  {
    var d, b := DecodeOne(s), ByteAt(s);
    ByteRead(s);
    if b < 0x80 {
      assert EncodePoint(b) == EncodeByte(b);
    } else if b < 0xE0 {
      TwoRead(s);
    } else if b < 0xF0 {
      ThreeRead(s);
    } else {
      FourRead(s);
    }
  }

  lemma UpperJoin(s: string, i: nat, j: nat)
    requires i <= j <= |s|
    ensures UpperHex(s[..j]) == UpperHex(s[..i]) + UpperHex(s[i..j])
  {
  }

  lemma TwoRead(s: string)
    requires DecodeOne(s).One? && 0xC2 <= ByteAt(s) < 0xE0
    ensures DecodeOne(s).width == 6 && UpperHex(s[..6]) == EncodePoint(DecodeOne(s).c as int) && |EncodePoint(DecodeOne(s).c as int)| == 6
  {
    var b, t := ByteAt(s), TailAt(s[3..]);
    var cp := (b - 0xC0) * 64 + t;
    ByteRead(s);
    TailRead(s[3..]);
    hide ByteAt, TailAt, UpperHex, EncodeByte, EncodeBytes;
    assert s[3..][..3] == s[3..6];
    UpperJoin(s, 3, 6);
    assert cp / 64 == b - 0xC0 && cp % 64 == t;
    EncodesTwo(cp);
    TwoBytes(b, t, "");
    assert EncodeBytes(b, [t]) + "" == EncodeBytes(b, [t]) && EncodeByte(0x80 + t) + "" == EncodeByte(0x80 + t);
  }

  lemma DecodedThree(s: string)
    requires DecodeOne(s).One? && 0xE0 <= ByteAt(s) < 0xF0
    ensures 0 <= TailAt(s[3..]) < 64 && 0 <= TailAt(s[6..]) < 64 && |s| >= 9
    ensures var cp := (ByteAt(s) - 0xE0) * 4096 + TailAt(s[3..]) * 64 + TailAt(s[6..]);
            0x800 <= cp && IsScalar(cp) && DecodeOne(s) == One(cp as char, 9)
  {
    hide HexValue;
  }

  lemma ThreeParts(b: int, t: int, u: int)
    requires 0 <= b < 16 && 0 <= t < 64 && 0 <= u < 64
    ensures var cp := b * 4096 + t * 64 + u; cp < 0x10000 && cp / 64 / 64 == b && cp / 64 % 64 == t && cp % 64 == u
  {
    assert (b * 4096 + t * 64 + u) / 64 == b * 64 + t;
  }

  lemma ThreeRead(s: string)
    requires DecodeOne(s).One? && 0xE0 <= ByteAt(s) < 0xF0
    ensures DecodeOne(s).width == 9 && UpperHex(s[..9]) == EncodePoint(DecodeOne(s).c as int) && |EncodePoint(DecodeOne(s).c as int)| == 9
  {
    hide ByteAt, TailAt, UpperHex, EncodeByte, EncodeBytes, EncodePoint, DecodeOne;
    DecodedThree(s);
    var b, t, u := ByteAt(s), TailAt(s[3..]), TailAt(s[6..]);
    ByteRead(s);
    TailRead(s[3..]);
    TailRead(s[6..]);
    assert s[3..][..3] == s[3..6] && s[6..][..3] == s[6..9];
    UpperJoin(s, 3, 6);
    UpperJoin(s, 6, 9);
    ThreeParts(b - 0xE0, t, u);
    EncodesThree((b - 0xE0) * 4096 + t * 64 + u);
    ThreeBytes(b, t, u, "");
    assert EncodeBytes(b, [t, u]) + "" == EncodeBytes(b, [t, u]) && EncodeByte(0x80 + u) + "" == EncodeByte(0x80 + u);
  }

  lemma DecodedFour(s: string)
    requires DecodeOne(s).One? && 0xF0 <= ByteAt(s)
    ensures 0 <= TailAt(s[3..]) < 64 && 0 <= TailAt(s[6..]) < 64 && 0 <= TailAt(s[9..]) < 64 && |s| >= 12 && ByteAt(s) < 0xF5
    ensures var cp := (ByteAt(s) - 0xF0) * 262144 + TailAt(s[3..]) * 4096 + TailAt(s[6..]) * 64 + TailAt(s[9..]);
            0x10000 <= cp && IsScalar(cp) && DecodeOne(s) == One(cp as char, 12)
  {
    hide HexValue;
  }

  lemma FourParts(b: int, t: int, u: int, v: int)
    requires 0 <= b < 8 && 0 <= t < 64 && 0 <= u < 64 && 0 <= v < 64
    ensures var cp := b * 262144 + t * 4096 + u * 64 + v;
            cp / 64 / 64 / 64 == b && cp / 64 / 64 % 64 == t && cp / 64 % 64 == u && cp % 64 == v
  {
    var cp := b * 262144 + t * 4096 + u * 64 + v;
    assert cp / 64 == b * 4096 + t * 64 + u;
    assert cp / 64 / 64 == b * 64 + t;
  }

  lemma FourRead(s: string)
    requires DecodeOne(s).One? && 0xF0 <= ByteAt(s)
    ensures DecodeOne(s).width == 12 && UpperHex(s[..12]) == EncodePoint(DecodeOne(s).c as int) && |EncodePoint(DecodeOne(s).c as int)| == 12
  {
    hide ByteAt, TailAt, UpperHex, EncodeByte, EncodeBytes, EncodePoint, DecodeOne;
    DecodedFour(s);
    var b, t, u, v := ByteAt(s), TailAt(s[3..]), TailAt(s[6..]), TailAt(s[9..]);
    ByteRead(s);
    TailRead(s[3..]);
    TailRead(s[6..]);
    TailRead(s[9..]);
    assert s[3..][..3] == s[3..6] && s[6..][..3] == s[6..9] && s[9..][..3] == s[9..12];
    UpperJoin(s, 3, 6);
    UpperJoin(s, 6, 9);
    UpperJoin(s, 9, 12);
    FourParts(b - 0xF0, t, u, v);
    EncodesFour((b - 0xF0) * 262144 + t * 4096 + u * 64 + v);
    FourBytes(b, t, u, v, "");
    assert EncodeBytes(b, [t, u, v]) + "" == EncodeBytes(b, [t, u, v]) && EncodeByte(0x80 + v) + "" == EncodeByte(0x80 + v);
  }

  /** What an escaped code point is written as decodes to it, in either case. */
  lemma WrittenDecodes(s: string, c: char)
    requires var escaped := EncodePoint(c as int); |escaped| <= |s| && UpperHex(s[..|escaped|]) == escaped
    ensures DecodeOne(s) == One(c, |EncodePoint(c as int)|)
  {
    hide DecodeOne, EncodePoint;
    var escaped := EncodePoint(c as int);
    UpperTail(s, |escaped|);
    DecodeOnePoint(c as int, UpperHex(s[|escaped|..]));
    UpperDecodeOne(s);
  }

  /** Decoding gives `t` if and only if the text writes `t`; it fails if and only if the text writes nothing. */
  lemma {:induction false} DecodeExactly(s: string, t: string)
    ensures DecodeComponent(s) == Some(t) <==> Writes(s, t)
    decreases |s|
  {
    hide DecodeOne, EncodePoint, UpperHex;
    if s != "" && s[0] != '%' {
      if t != "" {
        DecodeExactly(s[1..], t[1..]);
        assert [t[0]] + t[1..] == t;
      }
      if DecodeComponent(s) == Some(t) { assert t[0] == s[0] && t[1..] == DecodeComponent(s[1..]).value; }
    } else if s != "" {
      if DecodeOne(s).One? { OneRead(s); }
      if t != "" {
        var escaped := EncodePoint(t[0] as int);
        if |escaped| <= |s| && UpperHex(s[..|escaped|]) == escaped { WrittenDecodes(s, t[0]); }
        if DecodeOne(s).One? { DecodeExactly(s[DecodeOne(s).width..], t[1..]); }
        assert [t[0]] + t[1..] == t;
      }
      if DecodeOne(s).One? && DecodeComponent(s) == Some(t) {
        assert t[0] == DecodeOne(s).c && t[1..] == DecodeComponent(s[DecodeOne(s).width..]).value;
      }
    }
  }

  /** The escapes are malformed. */
  ghost predicate WritesNothing(s: string) {
    forall t :: !Writes(s, t)
  }

  /** A segment decodes to what it writes; one that writes nothing stays as it is. */
  lemma DecodeSegmentExactly(s: string, t: string)
    ensures DecodeSegment(s) == t <==> Writes(s, t) || (t == s && WritesNothing(s))
  {
    hide DecodeComponent, Writes;
    DecodeExactly(s, t);
    if '%' !in s { DecodePlain(s); }
    match DecodeComponent(s)
    case Some(u) => DecodeExactly(s, u);
    case None => forall u ensures !Writes(s, u) { DecodeExactly(s, u); }
  }
}
