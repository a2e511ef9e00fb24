/**
 Decimal numbers as the entry hash prints them (internal/models/message.go) and the
 64-bit words of the Go code.
 */
module Decimal {
  import opened Options

  const UINT64_LIMIT: nat := 0x1_0000_0000_0000_0000

  type uint64 = x: int | 0 <= x < UINT64_LIMIT

  function Digit(d: nat): char
    requires d < 10
  {
    '0' + d as char
  }

  function Print(v: nat): string {
    if v < 10 then [Digit(v)] else Print(v / 10) + [Digit(v % 10)]
  }

  /** strconv.Itoa, and String(n) in the client. */
  function PrintInt(v: int): string {
    if v < 0 then "-" + Print(-v) else Print(v)
  }

  predicate AllDigits(s: string) {
    forall i :: 0 <= i < |s| ==> '0' <= s[i] <= '9'
  }

  function Parse(s: string): nat
    requires AllDigits(s)
  {
    if s == "" then 0 else 10 * Parse(s[..|s| - 1]) + (s[|s| - 1] - '0') as nat
  }

  /** A decimal integer: digits, perhaps after a minus sign. */
  function ParseInt(s: string): Option<int> {
    if s != "" && AllDigits(s) then Some(Parse(s) as int)
    else if |s| > 1 && s[0] == '-' && AllDigits(s[1..]) then Some(-(Parse(s[1..]) as int))
    else None
  }

  /** Printing is undone by parsing, uses digits only, and never leads with a zero. */
  lemma {:induction false} PrintParses(v: nat)
    ensures Print(v) != "" && AllDigits(Print(v))
    ensures Parse(Print(v)) == v
    ensures v > 0 ==> Print(v)[0] != '0'
  {
    if v < 10 {
      assert Print(v)[..0] == "";
    } else {
      PrintParses(v / 10);
      var s := Print(v);
      assert s[..|s| - 1] == Print(v / 10);
    }
  }

  lemma PrintIntParses(v: int)
    ensures ParseInt(PrintInt(v)) == Some(v)
  {
    hide Print;
    PrintParses(if v < 0 then -v else v);
    if v < 0 {
      assert PrintInt(v)[0] == '-' && PrintInt(v)[1..] == Print(-v);
    }
  }

  function Pow10(n: nat): nat {
    if n == 0 then 1 else 10 * Pow10(n - 1)
  }

  lemma TwentyDigitsAreEnough(value: uint64)
    ensures value < Pow10(20)
  {
    assert Pow10(10) == 100_0000_0000;
    assert Pow10(15) == 100_0000_0000_00000;
  }

  /** The digits still to be written when v is left. */
  function Prefix(v: nat): string {
    if v == 0 then "" else Print(v)
  }

  lemma PrefixStep(v: nat, written: string, i: nat)
    requires 0 < v < Pow10(i)
    ensures i > 0 && v / 10 < Pow10(i - 1)
    ensures Prefix(v) + written == Prefix(v / 10) + ([Digit(v % 10)] + written)
  {}

  lemma PrefixEnds(v: nat, written: string)
    ensures v > 0 ==> Prefix(v) + "" == Print(v)
    ensures Prefix(0) + written == written
  {}

  /** One digit written, what was written before it standing after it. */
  method PutDigit(buf: array<char>, i: nat, d: nat)
    requires i < buf.Length && d < 10
    modifies buf
    ensures buf[i..] == [Digit(d)] + old(buf[i + 1..])
  {
    buf[i] := Digit(d);
  }

  /** formatUint: the digits are written from the right end of a 20-byte buffer, which no
      64-bit value underruns. */
  method FormatUint(value: uint64) returns (s: string)
    ensures s == Print(value)
  {
    if value == 0 {
      return "0";
    }
    hide Print, Pow10, Prefix;
    var buf := new char[20];
    var i: nat, v: nat := 20, value;
    TwentyDigitsAreEnough(value);
    PrefixEnds(value, "");
    while v > 0
      invariant i <= 20 && v < Pow10(i)
      invariant Print(value) == Prefix(v) + buf[i..]
      decreases v
    {
      PrefixStep(v, buf[i..], i);
      i := i - 1;
      PutDigit(buf, i, v % 10);
      v := v / 10;
    }
    PrefixEnds(0, buf[i..]);
    return buf[i..];
  }
}
