/**
 The canonical JSON that is signed: goEscape and canonicalJSON of
 web/src/crypto/signedMessage.ts, and the Go encoder they must agree with
 byte for byte.

 A Dafny character is a Unicode scalar value, so a string here is exactly a
 well-formed one: no lone surrogates, no invalid bytes.
 */
module CanonicalJson {

  import opened Options

  // ---------------------------------------------------------------- quoting

  function HexDigit(d: nat): char
    requires d < 16
  {
    if d < 10 then '0' + d as char else 'a' + (d - 10) as char
  }

  function UnicodeEscape(code: nat): string
    requires code < 0x1_0000
  {
    ['\\', 'u', HexDigit(code / 4096), HexDigit(code / 256 % 16), HexDigit(code / 16 % 16), HexDigit(code % 16)]
  }

  const QUOTE: char := '\"'
  const BACKSLASH: char := '\\'

  /** The short escapes of section 7 of RFC 8259 that encoders use. */
  function ShortEscape(c: char): Option<char> {
    if c == QUOTE || c == BACKSLASH then Some(c)
    else if c as int == 8 then Some('b')
    else if c as int == 9 then Some('t')
    else if c as int == 10 then Some('n')
    else if c as int == 12 then Some('f')
    else if c as int == 13 then Some('r')
    else None
  }

  /** One character inside JSON.stringify's quotes. */
  function QuoteChar(c: char): string {
    if ShortEscape(c).Some? then [BACKSLASH, ShortEscape(c).value]
    else if c as int < 0x20 then UnicodeEscape(c as int)
    else [c]
  }

  function QuoteChars(s: string): string {
    if s == "" then "" else QuoteChar(s[0]) + QuoteChars(s[1..])
  }

  /** JSON.stringify of a string. */
  function Stringify(s: string): string {
    [QUOTE] + QuoteChars(s) + [QUOTE]
  }

  // ---------------------------------------------------------------- goEscape

  type EscapePair = (char, string)

  const GO_ESCAPES: seq<EscapePair> := [
    ('<', "\\u003c"),
    ('>', "\\u003e"),
    ('&', "\\u0026"),
    ('\U{2028}', "\\u2028"),
    ('\U{2029}', "\\u2029")
  ]

  predicate HtmlSensitive(c: char) {
    c == '<' || c == '>' || c == '&' || c == '\U{2028}' || c == '\U{2029}'
  }

  /** text.split(from).join(to). */
  function ReplaceAll(text: string, from: char, to: string): string {
    if text == "" then ""
    else (if text[0] == from then to else [text[0]]) + ReplaceAll(text[1..], from, to)
  }

  function EscapeChar(c: char): string {
    if HtmlSensitive(c) then UnicodeEscape(c as int) else [c]
  }

  /** One pass over the text, each character looked at once. */
  function EscapeText(text: string): string {
    if text == "" then "" else EscapeChar(text[0]) + EscapeText(text[1..])
  }

  /** The pass, restricted to the characters already replaced. */
  ghost function EscapeSome(done: set<char>, text: string): string {
    if text == "" then ""
    else (if text[0] in done then EscapeChar(text[0]) else [text[0]]) + EscapeSome(done, text[1..])
  }

  lemma {:induction false} ReplaceAllConcat(a: string, b: string, from: char, to: string)
    ensures ReplaceAll(a + b, from, to) == ReplaceAll(a, from, to) + ReplaceAll(b, from, to)
  {
    if a == "" {
      assert a + b == b;
    } else {
      ReplaceAllConcat(a[1..], b, from, to);
      assert (a + b)[1..] == a[1..] + b;
      var head, tail, more := if a[0] == from then to else [a[0]], ReplaceAll(a[1..], from, to), ReplaceAll(b, from, to);
      assert head + (tail + more) == (head + tail) + more;
    }
  }

  lemma {:induction false} ReplaceAllAbsent(a: string, from: char, to: string)
    requires from !in a
    ensures ReplaceAll(a, from, to) == a
  {
    if a != "" {
      ReplaceAllAbsent(a[1..], from, to);
    }
  }

  /** No escape contains a character that some replacement looks for. */
  lemma EscapesAreInert(c: char, from: char)
    requires HtmlSensitive(c) && HtmlSensitive(from)
    ensures from !in EscapeChar(c)
  {
    var code := c as int;
    assert code == 0x3c || code == 0x3e || code == 0x26 || code == 0x2028 || code == 0x2029;
  }

  lemma {:induction false} ReplaceExtendsPass(done: set<char>, text: string, from: char)
    requires HtmlSensitive(from) && forall c :: c in done ==> HtmlSensitive(c)
    ensures ReplaceAll(EscapeSome(done, text), from, EscapeChar(from)) == EscapeSome(done + {from}, text)
  {
    if text != "" {
      var c := text[0];
      var head := if c in done then EscapeChar(c) else [c];
      ReplaceAllConcat(head, EscapeSome(done, text[1..]), from, EscapeChar(from));
      ReplaceExtendsPass(done, text[1..], from);
      if c in done {
        EscapesAreInert(c, from);
        ReplaceAllAbsent(head, from, EscapeChar(from));
      }
    }
  }

  lemma {:induction false} EscapeAllIsPass(done: set<char>, text: string)
    requires forall c :: c in done <==> HtmlSensitive(c)
    ensures EscapeSome(done, text) == EscapeText(text)
  {
    if text != "" {
      EscapeAllIsPass(done, text[1..]);
    }
  }

  lemma {:induction false} EscapeNoneIsText(text: string)
    ensures EscapeSome({}, text) == text
  {
    if text != "" {
      EscapeNoneIsText(text[1..]);
    }
  }

  function ReplaceInOrder(order: seq<char>, text: string): string
    decreases |order|
  {
    if order == [] then text
    else
      var last := order[|order| - 1];
      ReplaceAll(ReplaceInOrder(order[..|order| - 1], text), last, EscapeChar(last))
  }

  ghost function Chars(s: seq<char>): set<char> {
    set c | c in s
  }

  lemma {:induction false} ReplaceInOrderIsSome(order: seq<char>, text: string)
    requires forall c :: c in order ==> HtmlSensitive(c)
    ensures ReplaceInOrder(order, text) == EscapeSome(Chars(order), text)
    decreases |order|
  {
    if order == [] {
      EscapeNoneIsText(text);
      assert Chars(order) == {};
    } else {
      var init, last := order[..|order| - 1], order[|order| - 1];
      ReplaceInOrderIsSome(init, text);
      ReplaceExtendsPass(Chars(init), text, last);
      assert Chars(order) == Chars(init) + {last};
    }
  }

  /** The whole-text replacements do not disturb one another: in any order, and however
      often each is repeated, they amount to one pass over the characters. */
  lemma AnyOrderIsOnePass(order: seq<char>, text: string)
    requires forall c :: c in order <==> HtmlSensitive(c)
    ensures ReplaceInOrder(order, text) == EscapeText(text)
  {
    ReplaceInOrderIsSome(order, text);
    EscapeAllIsPass(Chars(order), text);
  }

  method GoEscape(jsonText: string) returns (out: string)
    ensures out == EscapeText(jsonText)
  {
    hide ReplaceAll, EscapeChar, EscapeText;
    out := jsonText;
    ghost var order: seq<char> := [];
    for i := 0 to |GO_ESCAPES|
      invariant |order| == i && forall k :: 0 <= k < i ==> order[k] == GO_ESCAPES[k].0
      invariant out == ReplaceInOrder(order, jsonText)
    {
      var (from, to) := GO_ESCAPES[i];
      EscapePairsMatch(i);
      assert (order + [from])[..i] == order;
      out := ReplaceAll(out, from, to);
      order := order + [from];
    }
    assert order == ['<', '>', '&', '\U{2028}', '\U{2029}'];
    AnyOrderIsOnePass(order, jsonText);
  }

  lemma EscapePairsMatch(i: nat)
    requires i < |GO_ESCAPES|
    ensures HtmlSensitive(GO_ESCAPES[i].0) && EscapeChar(GO_ESCAPES[i].0) == GO_ESCAPES[i].1
  {}

  // ---------------------------------------------------------------- objects

  type Field = (string, string)

  function Members(fields: seq<Field>): string {
    if fields == [] then ""
    else
      var m := Stringify(fields[0].0) + ":" + Stringify(fields[0].1);
      if |fields| == 1 then m else m + "," + Members(fields[1..])
  }

  /** canonicalJSON, its fields given in key order. */
  function Canonical(fields: seq<Field>): string {
    EscapeText("{" + Members(fields) + "}")
  }

  method CanonicalJSON(fields: seq<Field>) returns (text: string)
    ensures text == Canonical(fields)
  {
    text := GoEscape("{" + Members(fields) + "}");
  }

  /** One character as Go's encoding/json writes it with HTML escaping on: a single
      decision per character, made on the character itself. */
  function GoChar(c: char): string {
    if c as int < 0x80 then
      if 0x20 <= c as int && c != QUOTE && c != BACKSLASH && c != '<' && c != '>' && c != '&' then [c]
      else if ShortEscape(c).Some? then [BACKSLASH, ShortEscape(c).value]
      else "\\u00" + [HexDigit(c as int / 16), HexDigit(c as int % 16)]
    else if c == '\U{2028}' || c == '\U{2029}' then "\\u202" + [HexDigit(c as int % 16)]
    else [c]
  }

  function GoChars(s: string): string {
    if s == "" then "" else GoChar(s[0]) + GoChars(s[1..])
  }

  function GoString(s: string): string {
    [QUOTE] + GoChars(s) + [QUOTE]
  }

  function GoMembers(fields: seq<Field>): string {
    if fields == [] then ""
    else
      var m := GoString(fields[0].0) + ":" + GoString(fields[0].1);
      if |fields| == 1 then m else m + "," + GoMembers(fields[1..])
  }

  /** json.Marshal of a map from strings to strings, in key order. */
  function GoMarshal(fields: seq<Field>): string {
    "{" + GoMembers(fields) + "}"
  }

  lemma {:induction false} EscapeTextConcat(a: string, b: string)
    ensures EscapeText(a + b) == EscapeText(a) + EscapeText(b)
  {
    hide EscapeChar;
    if a == "" {
      assert a + b == b;
    } else {
      EscapeTextConcat(a[1..], b);
      assert (a + b)[1..] == a[1..] + b;
      var head, tail, more := EscapeChar(a[0]), EscapeText(a[1..]), EscapeText(b);
      assert head + (tail + more) == (head + tail) + more;
    }
  }

  lemma EscapeOne(c: char)
    ensures EscapeText([c]) == EscapeChar(c)
  {
    assert [c][1..] == "";
  }

  lemma EscapeTwo(c: char, d: char)
    requires !HtmlSensitive(c) && !HtmlSensitive(d)
    ensures EscapeText([c, d]) == [c, d]
  {
    EscapeTextConcat([c], [d]);
    EscapeOne(c);
    EscapeOne(d);
    assert [c, d] == [c] + [d];
  }

  lemma {:induction false} EscapeInert(a: string)
    requires forall i :: 0 <= i < |a| ==> !HtmlSensitive(a[i])
    ensures EscapeText(a) == a
  {
    if a != "" {
      EscapeInert(a[1..]);
    }
  }

  /** Character by character, stringify-then-escape is what Go writes. */
  lemma QuoteThenEscape(c: char)
    ensures EscapeText(QuoteChar(c)) == GoChar(c)
  {
    hide EscapeText;
    var code := c as int;
    if ShortEscape(c).Some? {
      EscapeTwo(BACKSLASH, ShortEscape(c).value);
    } else if code < 0x20 {
      EscapeInert(QuoteChar(c));
      assert code / 4096 == 0 && code / 256 % 16 == 0 && code / 16 % 16 == code / 16;
    } else {
      EscapeOne(c);
      if HtmlSensitive(c) {
        assert code == 0x3c || code == 0x3e || code == 0x26 || code == 0x2028 || code == 0x2029;
      }
    }
  }

  lemma {:induction false} QuoteCharsThenEscape(s: string)
    ensures EscapeText(QuoteChars(s)) == GoChars(s)
  {
    if s != "" {
      EscapeTextConcat(QuoteChar(s[0]), QuoteChars(s[1..]));
      QuoteThenEscape(s[0]);
      QuoteCharsThenEscape(s[1..]);
    }
  }

  lemma StringifyThenEscape(s: string)
    ensures EscapeText(Stringify(s)) == GoString(s)
  {
    EscapeTextConcat([QUOTE] + QuoteChars(s), [QUOTE]);
    EscapeTextConcat([QUOTE], QuoteChars(s));
    EscapeOne(QUOTE);
    QuoteCharsThenEscape(s);
  }

  lemma MemberThenEscape(f: Field)
    ensures EscapeText(Stringify(f.0) + ":" + Stringify(f.1)) == GoString(f.0) + ":" + GoString(f.1)
  {
    EscapeTextConcat(Stringify(f.0) + ":", Stringify(f.1));
    EscapeTextConcat(Stringify(f.0), ":");
    EscapeOne(':');
    StringifyThenEscape(f.0);
    StringifyThenEscape(f.1);
  }

  lemma {:induction false} MembersThenEscape(fields: seq<Field>)
    ensures EscapeText(Members(fields)) == GoMembers(fields)
  {
    if fields != [] {
      hide EscapeText, Stringify, GoString;
      MemberThenEscape(fields[0]);
      if |fields| > 1 {
        var m := Stringify(fields[0].0) + ":" + Stringify(fields[0].1);
        EscapeTextConcat(m + ",", Members(fields[1..]));
        EscapeTextConcat(m, ",");
        EscapeOne(',');
        MembersThenEscape(fields[1..]);
      }
    } else {
      EscapeInert("");
    }
  }

  /** Byte for byte: for every list of fields, the text the client signs is the text the
      server's encoder produces. */
  lemma ClientMatchesServer(fields: seq<Field>)
    ensures Canonical(fields) == GoMarshal(fields)
  {
    hide Members, GoMembers, EscapeText;
    EscapeTextConcat("{" + Members(fields), "}");
    EscapeTextConcat("{", Members(fields));
    EscapeOne('{');
    EscapeOne('}');
    MembersThenEscape(fields);
  }

  // ---------------------------------------------------------------- parsing

  function HexValue(c: char): (value: Option<nat>)
    ensures value.Some? ==> value.value < 16
  {
    if '0' <= c <= '9' then Some((c - '0') as nat)
    else if 'a' <= c <= 'f' then Some(10 + (c - 'a') as nat)
    else if 'A' <= c <= 'F' then Some(10 + (c - 'A') as nat)
    else None
  }

  function FourHex(a: char, b: char, c: char, d: char): (code: Option<nat>)
    ensures code.Some? ==> code.value < 0x1_0000
  {
    if HexValue(a).Some? && HexValue(b).Some? && HexValue(c).Some? && HexValue(d).Some? then
      Some(4096 * HexValue(a).value + 256 * HexValue(b).value + 16 * HexValue(c).value + HexValue(d).value)
    else None
  }

  function UnescapeShort(c: char): Option<char> {
    if c == QUOTE || c == BACKSLASH || c == '/' then Some(c)
    else if c == 'b' then Some(8 as char)
    else if c == 't' then Some(9 as char)
    else if c == 'n' then Some(10 as char)
    else if c == 'f' then Some(12 as char)
    else if c == 'r' then Some(13 as char)
    else None
  }

  /** The first character of a JSON string body, and how much text it took. */
  function ParseChar(t: string): (r: Option<(char, nat)>)
    ensures r.Some? ==> 0 < r.value.1 <= |t|
  {
    if t == "" || t[0] == QUOTE || t[0] as int < 0x20 then None
    else if t[0] != BACKSLASH then Some((t[0], 1))
    else if |t| < 2 then None
    else if t[1] != 'u' then
      if UnescapeShort(t[1]).Some? then Some((UnescapeShort(t[1]).value, 2)) else None
    else if |t| < 6 then None
    else
      var code := FourHex(t[2], t[3], t[4], t[5]);
      if code.None? || 0xD800 <= code.value < 0xE000 then None else Some((code.value as char, 6))
  }

  /** The rest of a JSON string after its opening quote, and what follows it. */
  function ParseChars(t: string): (r: Option<(string, string)>)
    ensures r.Some? ==> |r.value.1| < |t|
    decreases |t|
  {
    if t != "" && t[0] == QUOTE then Some(("", t[1..]))
    else if ParseChar(t).None? then None
    else
      var (c, n) := ParseChar(t).value;
      var tail := ParseChars(t[n..]);
      if tail.None? then None else Some(([c] + tail.value.0, tail.value.1))
  }

  function ParseString(t: string): (r: Option<(string, string)>)
    ensures r.Some? ==> |r.value.1| < |t|
  {
    if t == "" || t[0] != QUOTE then None else ParseChars(t[1..])
  }

  /** `"key":"value"` and what follows. */
  function ParseMember(t: string): (r: Option<(Field, string)>)
    ensures r.Some? ==> |r.value.1| < |t|
  {
    var key := ParseString(t);
    if key.None? || key.value.1 == "" || key.value.1[0] != ':' then None
    else
      var val := ParseString(key.value.1[1..]);
      if val.None? then None else Some(((key.value.0, val.value.0), val.value.1))
  }

  function ParseMembers(t: string): Option<seq<Field>>
    decreases |t|
  {
    var member := ParseMember(t);
    if member.None? then None
    else
      var (f, rest) := member.value;
      if rest == "}" then Some([f])
      else if rest == "" || rest[0] != ',' then None
      else
        var tail := ParseMembers(rest[1..]);
        if tail.None? then None else Some([f] + tail.value)
  }

  function ParseObject(t: string): Option<seq<Field>> {
    if t == "{}" then Some([])
    else if t == "" || t[0] != '{' then None
    else ParseMembers(t[1..])
  }

  lemma HexDigitValue(d: nat)
    requires d < 16
    ensures HexValue(HexDigit(d)) == Some(d)
  {}

  lemma ParseGoChar(c: char, rest: string)
    ensures ParseChar(GoChar(c) + rest) == Some((c, |GoChar(c)|))
    ensures GoChar(c) != "" && GoChar(c)[0] != QUOTE
  {
    var code := c as int;
    var t := GoChar(c) + rest;
    if code < 0x80 && ShortEscape(c).None? && (code < 0x20 || c == '<' || c == '>' || c == '&') {
      HexDigitValue(code / 16);
      HexDigitValue(code % 16);
      HexDigitValue(0);
      assert t[2] == HexDigit(0) && t[3] == HexDigit(0);
    } else if c == '\U{2028}' || c == '\U{2029}' {
      HexDigitValue(code % 16);
      HexDigitValue(2);
      HexDigitValue(0);
      assert t[2] == HexDigit(2) && t[3] == HexDigit(0) && t[4] == HexDigit(2);
    }
  }

  lemma {:induction false} ParseStep(c: char, tail: string)
    ensures var r := ParseChars(tail);
            ParseChars(GoChar(c) + tail) == if r.None? then None else Some(([c] + r.value.0, r.value.1))
  {
    hide GoChar, ParseChar;
    var t := GoChar(c) + tail;
    ParseGoChar(c, tail);
    assert t[0] == GoChar(c)[0] && t[|GoChar(c)|..] == tail;
  }

  lemma {:induction false} ParseGoChars(s: string, rest: string)
    ensures ParseChars(GoChars(s) + [QUOTE] + rest) == Some((s, rest))
  {
    hide GoChar, ParseChar;
    var t := GoChars(s) + [QUOTE] + rest;
    if s == "" {
      assert t == [QUOTE] + rest;
    } else {
      var tail := GoChars(s[1..]) + [QUOTE] + rest;
      assert t == GoChar(s[0]) + tail;
      ParseStep(s[0], tail);
      ParseGoChars(s[1..], rest);
      assert s == [s[0]] + s[1..];
    }
  }

  lemma ParseGoString(s: string, rest: string)
    ensures ParseString(GoString(s) + rest) == Some((s, rest))
  {
    hide GoChars, ParseChars;
    ParseGoChars(s, rest);
    assert (GoString(s) + rest)[1..] == GoChars(s) + [QUOTE] + rest;
  }

  lemma ParseGoMember(f: Field, rest: string)
    ensures ParseMember(GoString(f.0) + ":" + GoString(f.1) + rest) == Some((f, rest))
  {
    hide GoString, ParseString;
    var tail := ":" + (GoString(f.1) + rest);
    assert GoString(f.0) + ":" + GoString(f.1) + rest == GoString(f.0) + tail;
    ParseGoString(f.0, tail);
    ParseGoString(f.1, rest);
    assert tail[1..] == GoString(f.1) + rest;
  }

  lemma {:induction false} ParseGoMembers(fields: seq<Field>)
    requires fields != []
    ensures ParseMembers(GoMembers(fields) + "}") == Some(fields)
  {
    hide GoString, ParseMember;
    var f := fields[0];
    var m := GoString(f.0) + ":" + GoString(f.1);
    if |fields| == 1 {
      ParseGoMember(f, "}");
      assert fields == [f];
    } else {
      var tail := "," + (GoMembers(fields[1..]) + "}");
      assert GoMembers(fields) + "}" == m + tail;
      ParseGoMember(f, tail);
      ParseGoMembers(fields[1..]);
      assert tail[1..] == GoMembers(fields[1..]) + "}";
      assert fields == [f] + fields[1..];
    }
  }

  /** Round trip: a parser recovers every field from the signed text. */
  lemma CanonicalParses(fields: seq<Field>)
    ensures ParseObject(Canonical(fields)) == Some(fields)
  {
    hide Canonical, ParseMembers, GoMembers;
    ClientMatchesServer(fields);
    if fields == [] {
      EmptyMembers();
    } else {
      MembersNotEmpty(fields);
      ParseGoMembers(fields);
      assert GoMarshal(fields)[1..] == GoMembers(fields) + "}";
    }
  }

  lemma EmptyMembers()
    ensures GoMembers([]) == ""
  {}

  lemma MembersNotEmpty(fields: seq<Field>)
    requires fields != []
    ensures GoMembers(fields) != "" && GoMembers(fields)[0] == QUOTE
  {}

  /** So different fields never share a signed text. */
  lemma CanonicalInjective(f: seq<Field>, g: seq<Field>)
    requires Canonical(f) == Canonical(g)
    ensures f == g
  {
    hide *;
    CanonicalParses(f);
    CanonicalParses(g);
  }

  /** In particular a literal `\u003c` in a field is not confused with `<`. */
  lemma EscapedLookalikesDiffer()
    ensures GoString("\\u003c") != GoString("<")
  {
    ParseGoString("\\u003c", "");
    ParseGoString("<", "");
    assert GoString("<") + "" == GoString("<");
    assert GoString("\\u003c") + "" == GoString("\\u003c");
    assert |"\\u003c"| == 6;
  }
}
