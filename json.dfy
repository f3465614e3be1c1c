/** The JSON the event stream carries: Python's `json.dumps(payload,
    separators=(",", ":"))` with its default `ensure_ascii=True`, for flat
    objects of booleans and integers. Strings are written in printable ASCII
    only; a reference decoder for JSON strings gives them back. */
module Json {
  import opened Wrappers
  import opened Text

  // ---------------------------------------------------------------------
  // Hexadecimal, as in `é`: four lower-case digits.

  function HexDigit(d: nat): (c: char)
    requires d < 16
    ensures IsHexChar(c)
  {
    if d < 10 then (48 + d) as char else (87 + d) as char
  }

  predicate IsHexChar(c: char) {
    ('0' <= c <= '9') || ('a' <= c <= 'f') || ('A' <= c <= 'F')
  }

  function HexValue(c: char): (d: nat)
    requires IsHexChar(c)
    ensures d < 16
  {
    if '0' <= c <= '9' then c as int - 48
    else if 'a' <= c <= 'f' then c as int - 87
    else c as int - 55
  }

  /** `n` as four hexadecimal digits. */
  function Hex4(n: nat): (h: string)
    requires n < 0x1_0000
    ensures |h| == 4 && forall i :: 0 <= i < 4 ==> IsHexChar(h[i])
  {
    [HexDigit(n / 16 / 16 / 16), HexDigit(n / 16 / 16 % 16), HexDigit(n / 16 % 16), HexDigit(n % 16)]
  }

  predicate IsHex4(h: string) {
    |h| == 4 && forall i :: 0 <= i < 4 ==> IsHexChar(h[i])
  }

  function Hex4Value(h: string): (n: nat)
    requires IsHex4(h)
    ensures n < 0x1_0000
  {
    ((HexValue(h[0]) * 16 + HexValue(h[1])) * 16 + HexValue(h[2])) * 16 + HexValue(h[3])
  }

  lemma Hex4RoundTrip(n: nat)
    requires n < 0x1_0000
    ensures IsHex4(Hex4(n)) && Hex4Value(Hex4(n)) == n
  {
    var a, d3 := n / 16, n % 16;
    var b, d2 := a / 16, a % 16;
    var d0, d1 := b / 16, b % 16;
    assert n == ((d0 * 16 + d1) * 16 + d2) * 16 + d3;
    var h := Hex4(n);
    assert HexValue(h[0]) == d0 && HexValue(h[1]) == d1 && HexValue(h[2]) == d2 && HexValue(h[3]) == d3;
  }

  // ---------------------------------------------------------------------
  // Strings.

  /** Printable ASCII, the only characters `ensure_ascii` output holds. */
  predicate IsPrintableAscii(c: char) {
    ' ' <= c <= '~'
  }

  predicate AllPrintable(s: string) {
    forall i :: 0 <= i < |s| ==> IsPrintableAscii(s[i])
  }

  /** One character inside a JSON string: the two-character escapes for the
      quote, the backslash and five control characters, the character itself
      when it is printable ASCII, `\uXXXX` for the rest of the first plane,
      and a surrogate pair above it. */
  function EscapeChar(c: char): (e: string)
    ensures 1 <= |e| && AllPrintable(e)
    ensures IsPrintableAscii(c) && c != '"' && c != '\\' <==> e == [c]
  {
    var n := c as int;
    if c == '"' then "\\\""
    else if c == '\\' then "\\\\"
    else if c == NL then "\\n"
    else if c == '\r' then "\\r"
    else if c == TAB then "\\t"
    else if n == 8 then "\\b"
    else if n == 12 then "\\f"
    else if IsPrintableAscii(c) then [c]
    else if n < 0x1_0000 then "\\u" + Hex4(n)
    else
      var v := n - 0x1_0000;
      "\\u" + Hex4(0xD800 + v / 0x400) + "\\u" + Hex4(0xDC00 + v % 0x400)
  }

  /** The characters of `s` escaped one by one. */
  function EscapeString(s: string): (e: string)
    ensures AllPrintable(e)
    ensures |e| >= |s|
    decreases |s|
  {
    if |s| == 0 then "" else EscapeChar(s[0]) + EscapeString(s[1..])
  }

  /** A string in JSON: escaped and quoted. */
  function Quote(s: string): (q: string)
    ensures AllPrintable(q) && |q| >= 2 && q[0] == '"' && q[|q| - 1] == '"'
  {
    "\"" + EscapeString(s) + "\""
  }

  /** The character a two-character escape stands for. */
  function ShortEscape(c: char): Option<char> {
    if c == '"' then Some('"')
    else if c == '\\' then Some('\\')
    else if c == '/' then Some('/')
    else if c == 'b' then Some(8 as char)
    else if c == 'f' then Some(12 as char)
    else if c == 'n' then Some(NL)
    else if c == 'r' then Some('\r')
    else if c == 't' then Some(TAB)
    else None
  }

  function Prepend(c: char, rest: Option<string>): Option<string> {
    if rest.Some? then Some([c] + rest.value) else None
  }

  predicate IsHighSurrogate(u: int) {
    0xD800 <= u < 0xDC00
  }

  predicate IsLowSurrogate(u: int) {
    0xDC00 <= u < 0xE000
  }

  /** The contents of a JSON string literal, read back as a JSON parser reads
      them: escapes resolved, surrogate pairs joined; `None` for a raw quote or
      control character, a bad escape or an unpaired surrogate. */
  function UnescapeString(t: string): Option<string>
    decreases |t|
  {
    if |t| == 0 then Some("")
    else if t[0] == '\\' then
      if |t| >= 2 && ShortEscape(t[1]).Some? then Prepend(ShortEscape(t[1]).value, UnescapeString(t[2..]))
      else if |t| >= 6 && t[1] == 'u' && IsHex4(t[2..6]) then
        var u := Hex4Value(t[2..6]);
        if IsHighSurrogate(u) then
          if |t| >= 12 && t[6] == '\\' && t[7] == 'u' && IsHex4(t[8..12]) && IsLowSurrogate(Hex4Value(t[8..12])) then
            var cp := 0x1_0000 + (u - 0xD800) * 0x400 + (Hex4Value(t[8..12]) - 0xDC00);
            Prepend(cp as char, UnescapeString(t[12..]))
          else None
        else if IsLowSurrogate(u) then None
        else Prepend(u as char, UnescapeString(t[6..]))
      else None
    else if t[0] == '"' || (t[0] as int) < 0x20 then None
    else Prepend(t[0], UnescapeString(t[1..]))
  }

  lemma UnescapeShort(c: char, e: string, rest: string)
    requires |e| == 2 && e[0] == '\\' && ShortEscape(e[1]) == Some(c)
    ensures UnescapeString(e + rest) == Prepend(c, UnescapeString(rest))
  {
    assert (e + rest)[2..] == rest;
  }

  lemma UnescapeBmp(c: char, rest: string)
    requires c as int < 0x1_0000
    ensures UnescapeString("\\u" + Hex4(c as int) + rest) == Prepend(c, UnescapeString(rest))
  {
    var t := "\\u" + Hex4(c as int) + rest;
    Hex4RoundTrip(c as int);
    assert t[2..6] == Hex4(c as int) && t[6..] == rest;
  }

  lemma UnescapePair(c: char, rest: string)
    requires c as int >= 0x1_0000
    ensures var v := c as int - 0x1_0000;
      UnescapeString("\\u" + Hex4(0xD800 + v / 0x400) + "\\u" + Hex4(0xDC00 + v % 0x400) + rest)
        == Prepend(c, UnescapeString(rest))
  {
    var v := c as int - 0x1_0000;
    var hi, lo := 0xD800 + v / 0x400, 0xDC00 + v % 0x400;
    var t := "\\u" + Hex4(hi) + "\\u" + Hex4(lo) + rest;
    Hex4RoundTrip(hi);
    Hex4RoundTrip(lo);
    assert t[2..6] == Hex4(hi) && t[6] == '\\' && t[7] == 'u' && t[8..12] == Hex4(lo) && t[12..] == rest;
    assert 0x1_0000 + (hi - 0xD800) * 0x400 + (lo - 0xDC00) == c as int;
  }

  /** Reading back one escaped character gives the character. */
  lemma UnescapeChar(c: char, rest: string)
    ensures UnescapeString(EscapeChar(c) + rest) == Prepend(c, UnescapeString(rest))
  {
    var n := c as int;
    var e := EscapeChar(c);
    if c == '"' || c == '\\' || c == NL || c == '\r' || c == TAB || n == 8 || n == 12 {
      UnescapeShort(c, e, rest);
    } else if IsPrintableAscii(c) {
      assert (e + rest)[0] == c && (e + rest)[1..] == rest;
    } else if n < 0x1_0000 {
      UnescapeBmp(c, rest);
    } else {
      UnescapePair(c, rest);
    }
  }

  /** A JSON parser reads back exactly the string that was escaped. */
  lemma {:induction false} UnescapeEscape(s: string)
    ensures UnescapeString(EscapeString(s)) == Some(s)
    decreases |s|
  {
    if |s| > 0 {
      UnescapeChar(s[0], EscapeString(s[1..]));
      UnescapeEscape(s[1..]);
      assert [s[0]] + s[1..] == s;
    }
  }

  // ---------------------------------------------------------------------
  // Values and objects.

  datatype JsonValue = JBool(b: bool) | JInt(i: int)

  /** `true`, `false`, or the decimal integer. */
  function ValueText(v: JsonValue): (t: string)
    ensures |t| >= 1
  {
    match v
    case JBool(b) => if b then "true" else "false"
    case JInt(i) => IntToString(i)
  }

  /** One `"key":value` member, with no space after the colon. */
  function MemberText(key: string, v: JsonValue): string {
    Quote(key) + ":" + ValueText(v)
  }

  /** The members in order, separated by commas with no space. */
  function MembersText(members: seq<(string, JsonValue)>): string
    decreases |members|
  {
    if |members| == 0 then ""
    else if |members| == 1 then MemberText(members[0].0, members[0].1)
    else MemberText(members[0].0, members[0].1) + "," + MembersText(members[1..])
  }

  /** `json.dumps(payload, separators=(",", ":"))` for a flat object. */
  function ObjectText(members: seq<(string, JsonValue)>): (t: string)
    ensures |t| >= 2 && t[0] == '{' && t[|t| - 1] == '}'
  {
    "{" + MembersText(members) + "}"
  }

  /** Every member of the payload is written into the object as
      `"key":value`. */
  lemma {:induction false} ObjectContainsMember(members: seq<(string, JsonValue)>, k: nat)
    requires k < |members|
    ensures Contains(ObjectText(members), MemberText(members[k].0, members[k].1))
  {
    MembersContainMember(members, k);
    ContainsWiden(MembersText(members), MemberText(members[k].0, members[k].1), "{", "}");
  }

  lemma {:induction false} MembersContainMember(members: seq<(string, JsonValue)>, k: nat)
    requires k < |members|
    ensures Contains(MembersText(members), MemberText(members[k].0, members[k].1))
    decreases |members|
  {
    var m := MemberText(members[0].0, members[0].1);
    if |members| == 1 {
      ContainsInfix("", m, "");
      assert "" + m + "" == m;
    } else if k == 0 {
      ContainsInfix("", m, "," + MembersText(members[1..]));
      assert "" + m + ("," + MembersText(members[1..])) == MembersText(members);
    } else {
      MembersContainMember(members[1..], k - 1);
      ContainsWiden(MembersText(members[1..]), MemberText(members[k].0, members[k].1), m + ",", "");
      assert m + "," + MembersText(members[1..]) + "" == MembersText(members);
    }
  }

  /** The integer written for a value reads back as that integer. */
  lemma ValueTextRoundTrip(i: int)
    ensures ParseInt(ValueText(JInt(i))) == Some(i)
  {
    ParseIntOfString(i);
  }

  /** No value text holds a line break. */
  lemma ValueTextAvoidsNewline(v: JsonValue)
    ensures NL !in ValueText(v) && '\r' !in ValueText(v)
  {
    if v.JInt? {
      var t := ValueText(v);
      if v.i < 0 {
        assert t == "-" + NatToString(-v.i);
        assert forall j :: 1 <= j < |t| ==> IsDigit(t[j]);
      }
    }
  }

  /** The object text holds no line break, so it fits on one `data:` line. */
  lemma {:induction false} ObjectAvoidsNewline(members: seq<(string, JsonValue)>)
    ensures NL !in ObjectText(members) && '\r' !in ObjectText(members)
  {
    MembersAvoidNewline(members);
  }

  lemma {:induction false} MembersAvoidNewline(members: seq<(string, JsonValue)>)
    ensures NL !in MembersText(members) && '\r' !in MembersText(members)
    decreases |members|
  {
    if |members| > 0 {
      var q := Quote(members[0].0);
      assert NL !in q && '\r' !in q by {
        assert forall j :: 0 <= j < |q| ==> IsPrintableAscii(q[j]);
      }
      ValueTextAvoidsNewline(members[0].1);
      if |members| > 1 {
        MembersAvoidNewline(members[1..]);
      }
    }
  }
}
