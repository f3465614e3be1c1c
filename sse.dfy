/** Server-sent event framing (`_sse_event_bytes`): one event written as an
    `event:` line, a `data:` line holding compact JSON and a blank line, then
    encoded as UTF-8. The reading side is the event stream interpretation of
    the WHATWG HTML Living Standard, section 9.2 (Server-sent events), cut
    down to the first event of a stream. */
module Sse {
  import opened Wrappers
  import opened Text
  import opened Json
  import opened Utf8

  const CR: char := '\r'

  /** The event name with every carriage return and line feed turned into a
      space, so the name cannot end its own line. */
  function SanitizeName(name: string): (r: string)
    ensures |r| == |name|
    ensures forall i :: 0 <= i < |name| ==> r[i] == (if name[i] == CR || name[i] == NL then ' ' else name[i])
    decreases |name|
  {
    if |name| == 0 then ""
    else [if name[0] == CR || name[0] == NL then ' ' else name[0]] + SanitizeName(name[1..])
  }

  /** A sanitised name holds no line break, and sanitising it again changes
      nothing. */
  lemma SanitizeNameClean(name: string)
    ensures NL !in SanitizeName(name) && CR !in SanitizeName(name)
    ensures SanitizeName(SanitizeName(name)) == SanitizeName(name)
  {
    var r := SanitizeName(name);
    assert forall i :: 0 <= i < |r| ==> r[i] != NL && r[i] != CR;
  }

  /** A name with no line break is kept as it is. */
  lemma SanitizeNamePlain(name: string)
    requires NL !in name && CR !in name
    ensures SanitizeName(name) == name
  {
  }

  /** The event text: `event: <name>`, `data: <json>`, then a blank line. */
  function EventText(name: string, payload: seq<(string, JsonValue)>): (t: string)
    ensures OccursAt(t, "event: " + SanitizeName(name) + "\n", 0)
    ensures Contains(t, "\ndata: ")
    ensures |t| >= 2 && t[|t| - 2..] == "\n\n"
  {
    FrameShape("event: " + SanitizeName(name), ObjectText(payload));
    "event: " + SanitizeName(name) + "\n" + "data: " + ObjectText(payload) + "\n\n"
  }

  /** `_sse_event_bytes(name, payload)`: the event text as UTF-8, which
      decodes back to that text. */
  function EventBytes(name: string, payload: seq<(string, JsonValue)>): (b: seq<byte>)
    ensures Decode(b) == Some(EventText(name, payload))
  {
    DecodeEncode(EventText(name, payload));
    Encode(EventText(name, payload))
  }

  // ---------------------------------------------------------------------
  // Reading an event stream.

  /** The stream cut into lines at CRLF, CR or LF; the last element is the
      text after the last line break. */
  function StreamLines(s: string): (lines: seq<string>)
    ensures |lines| >= 1
    decreases |s|
  {
    if |s| == 0 then [""]
    else if s[0] == CR && |s| >= 2 && s[1] == NL then [""] + StreamLines(s[2..])
    else if s[0] == CR || s[0] == NL then [""] + StreamLines(s[1..])
    else
      var rest := StreamLines(s[1..]);
      [[s[0]] + rest[0]] + rest[1..]
  }

  /** Without carriage returns, the stream's lines are its LF-separated parts. */
  lemma {:induction false} StreamLinesWithoutCR(s: string)
    requires CR !in s
    ensures StreamLines(s) == Split(s, NL)
    decreases |s|
  {
    if |s| > 0 {
      assert CR !in s[1..];
      StreamLinesWithoutCR(s[1..]);
    }
  }

  /** The offset of the first colon, or the length when there is none. */
  function ColonIndex(line: string): (k: nat)
    ensures k <= |line|
    ensures forall j :: 0 <= j < k ==> line[j] != ':'
    ensures k < |line| ==> line[k] == ':'
    decreases |line|
  {
    if |line| == 0 || line[0] == ':' then 0 else 1 + ColonIndex(line[1..])
  }

  /** A field line: the name before the first colon and the value after it,
      less one leading space. */
  function FieldName(line: string): string {
    line[..ColonIndex(line)]
  }

  function FieldValue(line: string): string {
    var k := ColonIndex(line);
    if k == |line| then ""
    else
      var v := line[k + 1..];
      if |v| > 0 && v[0] == ' ' then v[1..] else v
  }

  lemma {:induction false} ColonAfterName(f: string, v: string)
    requires ':' !in f
    ensures ColonIndex(f + ":" + v) == |f|
    decreases |f|
  {
    if |f| > 0 {
      assert (f + ":" + v)[1..] == f[1..] + ":" + v;
      ColonAfterName(f[1..], v);
    }
  }

  /** The field line `f: v` has name `f` and value `v`. */
  lemma FieldOfLine(f: string, v: string)
    requires ':' !in f
    ensures FieldName(f + ": " + v) == f && FieldValue(f + ": " + v) == v
  {
    var line := f + ": " + v;
    assert line == f + ":" + (" " + v);
    ColonAfterName(f, " " + v);
    assert line[|f| + 1..] == " " + v;
  }

  datatype Event = Event(eventType: string, data: string)

  /** The first event dispatched from `lines`, given the event type and data
      lines gathered so far: `event` sets the type, `data` adds a data line,
      other fields are ignored, and a blank line dispatches when there is
      data. An event not closed by a blank line is never dispatched. */
  function ReadEvent(lines: seq<string>, eventType: string, data: seq<string>): Option<Event>
    decreases |lines|
  {
    if |lines| == 0 then None
    else if lines[0] == "" then
      if |data| == 0 then ReadEvent(lines[1..], "", [])
      else Some(Event(if eventType == "" then "message" else eventType, Join(data, NL)))
    else if FieldName(lines[0]) == "event" then ReadEvent(lines[1..], FieldValue(lines[0]), data)
    else if FieldName(lines[0]) == "data" then ReadEvent(lines[1..], eventType, data + [FieldValue(lines[0])])
    else ReadEvent(lines[1..], eventType, data)
  }

  /** The first event a client reads from a stream. */
  function FirstEvent(stream: string): Option<Event> {
    ReadEvent(StreamLines(stream), "", [])
  }

  /** The event text is four lines: the event line, the data line and the two
      empty parts around the final blank line; none holds a carriage return. */
  lemma EventLines(name: string, payload: seq<(string, JsonValue)>)
    ensures CR !in EventText(name, payload)
    ensures StreamLines(EventText(name, payload))
      == ["event: " + SanitizeName(name), "data: " + ObjectText(payload), "", ""]
  {
    var san, json := SanitizeName(name), ObjectText(payload);
    SanitizeNameClean(name);
    ObjectAvoidsNewline(payload);
    FrameLines(san, json);
  }

  /** An event line and a data line free of line breaks, followed by a blank
      line, split back into those lines. */
  lemma FrameLines(san: string, json: string)
    requires NL !in san && CR !in san && NL !in json && CR !in json
    ensures var text := "event: " + san + "\n" + "data: " + json + "\n\n";
      && CR !in text
      && StreamLines(text) == ["event: " + san, "data: " + json, "", ""]
  {
    var lines := ["event: " + san, "data: " + json, "", ""];
    var text := "event: " + san + "\n" + "data: " + json + "\n\n";
    FrameJoin(lines[0], lines[1]);
    assert text == lines[0] + "\n" + lines[1] + "\n\n";
    assert CR !in text by {
      assert CR !in "event: " && CR !in "data: ";
    }
    assert NL !in lines[0] && NL !in lines[1] by {
      assert NL !in "event: " && NL !in "data: ";
    }
    SplitJoin(lines, NL);
    StreamLinesWithoutCR(text);
  }

  lemma FrameJoin(l0: string, l1: string)
    ensures Join([l0, l1, "", ""], NL) == l0 + "\n" + l1 + "\n\n"
  {
    JoinCons("", [""], NL);
    JoinCons(l1, ["", ""], NL);
    JoinCons(l0, [l1, "", ""], NL);
    assert [l0, l1, "", ""] == [l0] + [l1, "", ""];
    assert [l1, "", ""] == [l1] + ["", ""];
  }

  /** A client reading the stream gets one event whose type is the sanitised
      name (`message` if it is empty) and whose data is the JSON object. */
  lemma EventRoundTrip(name: string, payload: seq<(string, JsonValue)>)
    ensures FirstEvent(EventText(name, payload))
      == Some(Event(if SanitizeName(name) == "" then "message" else SanitizeName(name), ObjectText(payload)))
  {
    EventLines(name, payload);
    ReadEventLines(SanitizeName(name), ObjectText(payload));
  }

  lemma ReadEventLines(san: string, json: string)
    ensures ReadEvent(["event: " + san, "data: " + json, "", ""], "", [])
      == Some(Event(if san == "" then "message" else san, json))
  {
    var lines := ["event: " + san, "data: " + json, "", ""];
    var l0, l1 := lines[0], lines[1];
    FieldOfLine("event", san);
    FieldOfLine("data", json);
    assert l0 == "event" + ": " + san && l1 == "data" + ": " + json;
    assert l0 != "" && l1 != "";
    assert FieldName(l0) == "event" && FieldValue(l0) == san;
    assert FieldName(l1) == "data" && FieldName(l1) != "event" && FieldValue(l1) == json;
    assert lines[1..][1..] == ["", ""];
    calc {
      ReadEvent(lines, "", []);
      ReadEvent(lines[1..], san, []);
      ReadEvent(["", ""], san, [] + [json]);
      { assert [] + [json] == [json]; }
      ReadEvent(["", ""], san, [json]);
    }
  }

  /** The event line, once encoded, holds no line-feed or carriage-return
      byte, whatever the name. */
  lemma EventLineHasNoBreakByte(name: string)
    ensures var line := Encode("event: " + SanitizeName(name));
      0x0A as byte !in line && 0x0D as byte !in line
  {
    SanitizeNameClean(name);
    var l := "event: " + SanitizeName(name);
    assert NL !in l && CR !in l by {
      assert NL !in "event: " && CR !in "event: ";
    }
    AsciiByteIn(l, NL);
    AsciiByteIn(l, CR);
  }

  /** The frame built around any head and JSON text starts with the head
      line, has a data line and ends with a blank line. */
  lemma FrameShape(head: string, json: string)
    ensures var t := head + "\n" + "data: " + json + "\n\n";
      && OccursAt(t, head + "\n", 0)
      && Contains(t, "\ndata: ")
      && |t| >= 2 && t[|t| - 2..] == "\n\n"
  {
    var t := head + "\n" + "data: " + json + "\n\n";
    assert t == (head + "\n") + ("data: " + json + "\n\n");
    assert t[..|head + "\n"|] == head + "\n";
    assert t == head + "\ndata: " + (json + "\n\n");
    ContainsInfix(head, "\ndata: ", json + "\n\n");
  }

  /** Every `"key":value` member of the payload is written into the event. */
  lemma EventHoldsMember(name: string, payload: seq<(string, JsonValue)>, k: nat)
    requires k < |payload|
    ensures Contains(EventText(name, payload), MemberText(payload[k].0, payload[k].1))
  {
    var json := ObjectText(payload);
    var head := "event: " + SanitizeName(name) + "\n" + "data: ";
    ObjectContainsMember(payload, k);
    assert EventText(name, payload) == head + json + "\n\n";
    ContainsWiden(json, MemberText(payload[k].0, payload[k].1), head, "\n\n");
  }

  // ---------------------------------------------------------------------
  // The framing samples.

  /** Text of printable ASCII without quote or backslash is its own escape. */
  lemma {:induction false} EscapePlain(s: string)
    requires forall i :: 0 <= i < |s| ==> IsPrintableAscii(s[i]) && s[i] != '"' && s[i] != '\\'
    ensures EscapeString(s) == s
    decreases |s|
  {
    if |s| > 0 {
      EscapePlain(s[1..]);
      assert [s[0]] + s[1..] == s;
    }
  }

  /** A quoted plain word is the word between double quotes. */
  lemma QuotePlain(w: string)
    requires forall i :: 0 <= i < |w| ==> IsPrintableAscii(w[i]) && w[i] != '"' && w[i] != '\\'
    ensures Quote(w) == "\"" + w + "\""
  {
    EscapePlain(w);
  }

  /** Two members are written with one comma between them. */
  lemma MembersPair(a: (string, JsonValue), b: (string, JsonValue))
    ensures MembersText([a, b]) == MemberText(a.0, a.1) + "," + MemberText(b.0, b.1)
  {
    assert [a, b][1..] == [b];
  }

  /** `"ok": True` is written `"ok":true`. */
  lemma OkMemberSample()
    ensures MemberText("ok", JBool(true)) == "\"ok\":true"
  {
    QuotePlain("ok");
  }

  /** `"x": 1` is written `"x":1`. */
  lemma XMemberSample()
    ensures MemberText("x", JInt(1)) == "\"x\":1"
  {
    QuotePlain("x");
    assert ValueText(JInt(1)) == "1";
  }

  /** `{"ok": True, "x": 1}` is written as `{"ok":true,"x":1}`. */
  lemma SampleObject(payload: seq<(string, JsonValue)>)
    requires payload == [("ok", JBool(true)), ("x", JInt(1))]
    ensures ObjectText(payload) == "{\"ok\":true,\"x\":1}"
  {
    MembersPair(payload[0], payload[1]);
    OkMemberSample();
    XMemberSample();
  }

  /** The `screen` event starts with `event: screen` and a line feed, has a
      data line and ends with a blank line. */
  lemma ScreenEventSample(payload: seq<(string, JsonValue)>)
    ensures var t := EventText("screen", payload);
      && OccursAt(t, "event: screen\n", 0)
      && Contains(t, "\ndata: ")
      && t[|t| - 2..] == "\n\n"
  {
    var name := "screen";
    assert NL !in name && CR !in name;
    SanitizeNamePlain(name);
  }

  /** The `screen` event holds `"ok":true` and `"x":1`. */
  lemma ScreenEventMembers()
    ensures Contains(EventText("screen", [("ok", JBool(true)), ("x", JInt(1))]), "\"ok\":true")
    ensures Contains(EventText("screen", [("ok", JBool(true)), ("x", JInt(1))]), "\"x\":1")
  {
    var name, payload := "screen", [("ok", JBool(true)), ("x", JInt(1))];
    OkMemberSample();
    XMemberSample();
    EventHoldsMember(name, payload, 0);
    EventHoldsMember(name, payload, 1);
  }

  /** The name `bad\nev\rname` becomes `bad ev name`. */
  lemma SanitizedNameSample(name: string)
    requires name == "bad\nev\rname"
    ensures SanitizeName(name) == "bad ev name"
  {
  }

  /** ... and is framed as the line `event: bad ev name`, whatever the payload. */
  lemma SanitizedEventSample(name: string, payload: seq<(string, JsonValue)>)
    requires name == "bad\nev\rname"
    ensures Contains(EventText(name, payload), "event: bad ev name\n")
  {
    SanitizedNameSample(name);
    assert OccursAt(EventText(name, payload), "event: " + SanitizeName(name) + "\n", 0);
    ContainsAt(EventText(name, payload), "event: bad ev name\n", 0);
  }
}
