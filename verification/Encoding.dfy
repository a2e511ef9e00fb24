/**
 The two encodings on the way from a message to the bytes that are signed: base64 of
 the binary fields (section 4 of RFC 4648) and UTF-8 of the JSON text (section 3 of
 RFC 3629). A byte is written as the character with its code.
 */
module Encoding {
  import opened Options

  type byte = c: char | c as int < 256 witness 'a'
  type Bytes = seq<byte>

  function Byte(code: nat): byte
    requires code < 256
  {
    code as char
  }

  // ---------------------------------------------------------------- UTF-8

  function Utf8Char(c: char): Bytes {
    var code := c as int;
    if code < 0x80 then [Byte(code)]
    else if code < 0x800 then [Byte(0xC0 + code / 64), Byte(0x80 + code % 64)]
    else if code < 0x1_0000 then
      [Byte(0xE0 + code / 4096), Byte(0x80 + code / 64 % 64), Byte(0x80 + code % 64)]
    else
      [Byte(0xF0 + code / 26_2144), Byte(0x80 + code / 4096 % 64), Byte(0x80 + code / 64 % 64), Byte(0x80 + code % 64)]
  }

  function Utf8(s: string): Bytes {
    if s == "" then [] else Utf8Char(s[0]) + Utf8(s[1..])
  }

  /** The first byte tells how many bytes the character took. */
  function Utf8Length(lead: byte): nat {
    if lead as int < 0x80 then 1
    else if lead as int < 0xE0 then 2
    else if lead as int < 0xF0 then 3
    else 4
  }

  lemma Utf8Lead(c: char)
    ensures |Utf8Char(c)| == Utf8Length(Utf8Char(c)[0]) > 0
  {}

  /** The scalar value that a sequence of one character's length spells. */
  function Utf8Code(b: Bytes): int
    requires 0 < |b| <= 4
  {
    if |b| == 1 then b[0] as int
    else if |b| == 2 then (b[0] as int - 0xC0) * 64 + (b[1] as int - 0x80)
    else if |b| == 3 then (b[0] as int - 0xE0) * 4096 + (b[1] as int - 0x80) * 64 + (b[2] as int - 0x80)
    else
      (b[0] as int - 0xF0) * 26_2144 + (b[1] as int - 0x80) * 4096 + (b[2] as int - 0x80) * 64 + (b[3] as int - 0x80)
  }

  lemma {:induction false} Utf8CodeIs(c: char)
    ensures 0 < |Utf8Char(c)| <= 4 && Utf8Code(Utf8Char(c)) == c as int
  {
    var code := c as int;
    assert code / 4096 == code / 64 / 64 && code / 26_2144 == code / 4096 / 64;
  }

  /** Decoding (section 3 of RFC 3629): a lead byte, as many bytes as it tells, the rest. */
  function Utf8Decode(b: Bytes): Option<string>
    decreases |b|
  {
    if b == [] then Some("")
    else
      var n := Utf8Length(b[0]);
      if n > |b| then None
      else
        var code, rest := Utf8Code(b[..n]), Utf8Decode(b[n..]);
        if rest.None? || code < 0 || code >= 0x11_0000 || 0xD800 <= code < 0xE000 then None
        else Some([code as char] + rest.value)
  }

  /** Decoding undoes encoding, for every well-formed text. */
  lemma {:induction false} Utf8Decodes(s: string)
    ensures Utf8Decode(Utf8(s)) == Some(s)
  {
    hide Utf8Char, Utf8Length, Utf8Code;
    if s != "" {
      var head, tail := Utf8Char(s[0]), Utf8(s[1..]);
      Utf8Lead(s[0]);
      Utf8CodeIs(s[0]);
      Utf8Decodes(s[1..]);
      assert Utf8(s)[..|head|] == head && Utf8(s)[|head|..] == tail;
      assert s == [s[0]] + s[1..];
    }
  }

  lemma Utf8Injective(s: string, t: string)
    requires Utf8(s) == Utf8(t)
    ensures s == t
  {
    Utf8Decodes(s);
    Utf8Decodes(t);
  }

  // ---------------------------------------------------------------- base64

  function Sextet(n: nat): char
    requires n < 64
  {
    if n < 26 then 'A' + n as char
    else if n < 52 then 'a' + (n - 26) as char
    else if n < 62 then '0' + (n - 52) as char
    else if n == 62 then '+'
    else '/'
  }

  function Base64(b: Bytes): string {
    if |b| == 0 then ""
    else if |b| == 1 then OneByte(b[0] as int)
    else if |b| == 2 then TwoBytes(b[0] as int * 256 + b[1] as int)
    else Base64Group(b[0], b[1], b[2]) + Base64(b[3..])
  }

  function OneByte(v: nat): (group: string)
    requires v < 256
    ensures |group| == 4
  {
    [Sextet(v / 4), Sextet(v % 4 * 16), '=', '=']
  }

  function TwoBytes(v: nat): (group: string)
    requires v < 6_5536
    ensures |group| == 4
  {
    [Sextet(v / 1024), Sextet(v / 16 % 64), Sextet(v % 16 * 4), '=']
  }

  function Base64Group(x: byte, y: byte, z: byte): (group: string)
    ensures |group| == 4
  {
    var v := x as int * 6_5536 + y as int * 256 + z as int;
    [Sextet(v / 26_2144), Sextet(v / 4096 % 64), Sextet(v / 64 % 64), Sextet(v % 64)]
  }

  /** Table 1 of RFC 4648, read from character to value. */
  function SextetValue(c: char): (value: Option<nat>)
    ensures value.Some? ==> value.value < 64
  {
    if 'A' <= c <= 'Z' then Some((c - 'A') as nat)
    else if 'a' <= c <= 'z' then Some(26 + (c - 'a') as nat)
    else if '0' <= c <= '9' then Some(52 + (c - '0') as nat)
    else if c == '+' then Some(62)
    else if c == '/' then Some(63)
    else None
  }

  lemma SextetDecodes(n: nat)
    requires n < 64
    ensures SextetValue(Sextet(n)) == Some(n) && Sextet(n) != '='
  {}

  /** The bytes of one group of four characters; the padding tells how many there are. */
  function DecodeGroup(a: char, b: char, c: char, d: char): Option<Bytes> {
    var p, q := SextetValue(a), SextetValue(b);
    var r, s := SextetValue(c), SextetValue(d);
    if p.None? || q.None? then None
    else if c == '=' && d == '=' then Some([Byte((p.value * 64 + q.value) / 16)])
    else if r.None? then None
    else if d == '=' then
      var v := (p.value * 4096 + q.value * 64 + r.value) / 4;
      Some([Byte(v / 256), Byte(v % 256)])
    else if s.None? then None
    else
      var v := p.value * 26_2144 + q.value * 4096 + r.value * 64 + s.value;
      Some([Byte(v / 6_5536), Byte(v / 256 % 256), Byte(v % 256)])
  }

  /** Decoding (section 4 of RFC 4648), group by group. */
  function Base64Decode(t: string): Option<Bytes>
    decreases |t|
  {
    if t == "" then Some([])
    else if |t| < 4 then None
    else
      var head, tail := DecodeGroup(t[0], t[1], t[2], t[3]), Base64Decode(t[4..]);
      if head.None? || tail.None? then None else Some(head.value + tail.value)
  }

  lemma OneByteDecodes(v: nat)
    requires v < 256
    ensures var t := OneByte(v); DecodeGroup(t[0], t[1], t[2], t[3]) == Some([Byte(v)])
  {
    hide SextetValue, Sextet;
    SextetDecodes(v / 4);
    SextetDecodes(v % 4 * 16);
    assert (v / 4 * 64 + v % 4 * 16) / 16 == v;
  }

  lemma TwoBytesDecode(v: nat)
    requires v < 6_5536
    ensures var t := TwoBytes(v); DecodeGroup(t[0], t[1], t[2], t[3]) == Some([Byte(v / 256), Byte(v % 256)])
  {
    hide SextetValue, Sextet;
    SextetDecodes(v / 1024);
    SextetDecodes(v / 16 % 64);
    SextetDecodes(v % 16 * 4);
    assert v / 16 / 64 == v / 1024;
    assert (v / 1024 * 4096 + v / 16 % 64 * 64 + v % 16 * 4) / 4 == v;
  }

  lemma GroupDecodes(x: byte, y: byte, z: byte)
    ensures var t := Base64Group(x, y, z); DecodeGroup(t[0], t[1], t[2], t[3]) == Some([x, y, z])
  {
    hide SextetValue, Sextet;
    var v := x as int * 6_5536 + y as int * 256 + z as int;
    SextetDecodes(v / 26_2144);
    SextetDecodes(v / 4096 % 64);
    SextetDecodes(v / 64 % 64);
    SextetDecodes(v % 64);
    SextetsRejoin(v);
    OctetsOf(x as int, y as int, z as int);
  }

  lemma SextetsRejoin(v: nat)
    ensures v / 26_2144 * 26_2144 + v / 4096 % 64 * 4096 + v / 64 % 64 * 64 + v % 64 == v
  {
    assert v / 4096 / 64 == v / 26_2144 && v / 64 / 64 == v / 4096;
  }

  lemma OctetsOf(x: nat, y: nat, z: nat)
    requires x < 256 && y < 256 && z < 256
    ensures var v := x * 6_5536 + y * 256 + z; v / 6_5536 == x && v / 256 % 256 == y && v % 256 == z
  {}

  /** Decoding undoes encoding, for every byte string. */
  lemma {:induction false} Base64Decodes(b: Bytes)
    ensures Base64Decode(Base64(b)) == Some(b)
  {
    hide OneByte, TwoBytes, Base64Group, DecodeGroup;
    if |b| == 1 {
      OneByteDecodes(b[0] as int);
      assert Base64(b)[4..] == "" && [b[0]] + [] == b;
    } else if |b| == 2 {
      var v := b[0] as int * 256 + b[1] as int;
      TwoBytesDecode(v);
      OctetsOf(0, b[0] as int, b[1] as int);
      assert Base64(b)[4..] == "" && [b[0], b[1]] + [] == b;
    } else if |b| > 2 {
      GroupDecodes(b[0], b[1], b[2]);
      Base64Decodes(b[3..]);
      assert Base64(b)[4..] == Base64(b[3..]) && [b[0], b[1], b[2]] + b[3..] == b;
    }
  }

  lemma Base64Injective(a: Bytes, b: Bytes)
    requires Base64(a) == Base64(b)
    ensures a == b
  {
    Base64Decodes(a);
    Base64Decodes(b);
  }
}
