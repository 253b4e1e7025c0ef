/** Syslog structured data, against a reader that undoes the escapes of section 6.3 of
    RFC 5424. */
module Syslog {
  import opened Text

  datatype Attribute = Attribute(key: string, value: string)

  predicate IsControl(c: char) {
    c < ' ' || c == 0x7f as char
  }

  /** Control characters collapse to spaces. */
  function SanitizeLine(s: string): (r: string)
    ensures |r| == |s| && forall i :: 0 <= i < |s| ==> r[i] == if IsControl(s[i]) then ' ' else s[i]
  {
    seq(|s|, i requires 0 <= i < |s| => if IsControl(s[i]) then ' ' else s[i])
  }

  predicate NameForbids(c: char) {
    c == '=' || c == ']' || c == '"' || c == ' '
  }

  function SafeName(s: string): (r: string)
    ensures |r| == |s| && forall i :: 0 <= i < |s| ==> r[i] == if NameForbids(s[i]) then '_' else s[i]
  {
    seq(|s|, i requires 0 <= i < |s| => if NameForbids(s[i]) then '_' else s[i])
  }

  predicate NeedsEscape(c: char) {
    c == '"' || c == '\\' || c == ']'
  }

  function EscapedChar(c: char): string {
    if NeedsEscape(c) then ['\\', c] else [c]
  }

  function Escape(s: string): string {
    if s == "" then "" else EscapedChar(s[0]) + Escape(s[1..])
  }

  /** The pair a collector should read. */
  function Sanitized(a: Attribute): Attribute {
    Attribute(SafeName(SanitizeLine(a.key)), SanitizeLine(a.value))
  }

  function FormatPair(a: Attribute): string {
    Sanitized(a).key + ("=\"" + (Escape(Sanitized(a).value) + "\""))
  }

  /** The pairs joined by spaces. */
  function FormatPairs(attrs: seq<Attribute>): string
    requires attrs != []
  {
    if |attrs| == 1 then FormatPair(attrs[0]) else FormatPair(attrs[0]) + (" " + FormatPairs(attrs[1..]))
  }

  function FormatStructuredData(attrs: seq<Attribute>): string {
    if attrs == [] then "-" else "[clawwarden@0 " + (FormatPairs(attrs) + "]")
  }

  // ------------------------------------------------------------------------- the reader

  datatype Read<T> = Read(value: T, rest: string) | Malformed

  /** Up to a character, which is left in the rest. */
  function ReadUntil(s: string, c: char): Read<string>
    decreases |s|
  {
    if s == "" then Malformed
    else if s[0] == c then Read("", s)
    else
      var r := ReadUntil(s[1..], c);
      if r.Malformed? then Malformed else Read([s[0]] + r.value, r.rest)
  }

  /** A value up to its closing quote, which is consumed; a backslash takes the next
      character as it is if it had to be escaped. */
  function ReadValue(s: string): Read<string>
    decreases |s|
  {
    if s == "" then Malformed
    else if s[0] == '"' then Read("", s[1..])
    else if s[0] == '\\' && |s| > 1 && NeedsEscape(s[1]) then
      var r := ReadValue(s[2..]);
      if r.Malformed? then Malformed else Read([s[1]] + r.value, r.rest)
    else
      var r := ReadValue(s[1..]);
      if r.Malformed? then Malformed else Read([s[0]] + r.value, r.rest)
  }

  lemma {:induction false} ReadUntilShrinks(s: string, c: char)
    ensures ReadUntil(s, c).Read? ==> |ReadUntil(s, c).rest| <= |s| && ReadUntil(s, c).rest != ""
    decreases |s|
  {
    if s != "" && s[0] != c { ReadUntilShrinks(s[1..], c); }
  }

  lemma {:induction false} ReadValueShrinks(s: string)
    ensures ReadValue(s).Read? ==> |ReadValue(s).rest| < |s|
    decreases |s|
  {
    if s == "" || s[0] == '"' {
    } else if s[0] == '\\' && |s| > 1 && NeedsEscape(s[1]) {
      ReadValueShrinks(s[2..]);
    } else {
      ReadValueShrinks(s[1..]);
    }
  }

  /** `NAME="VALUE"` pairs separated by single spaces, up to the closing bracket. */
  function ReadPairs(s: string): Read<seq<Attribute>>
    decreases |s|
  {
    ReadUntilShrinks(s, '=');
    var name := ReadUntil(s, '=');
    if name.Malformed? || |name.rest| < 2 || name.rest[1] != '"' then Malformed
    else
      ReadValueShrinks(name.rest[2..]);
      var value := ReadValue(name.rest[2..]);
      if value.Malformed? || value.rest == "" then Malformed
      else
        var a := Attribute(name.value, value.value);
        if value.rest[0] == ']' then Read([a], value.rest[1..])
        else if value.rest[0] != ' ' then Malformed
        else
          var more := ReadPairs(value.rest[1..]);
          if more.Malformed? then Malformed else Read([a] + more.value, more.rest)
  }

  /** One element, or the nil value. */
  function ReadElement(s: string): Read<seq<Attribute>> {
    if s != "" && s[0] == '-' then Read([], s[1..])
    else if "[clawwarden@0 " <= s then ReadPairs(s[|"[clawwarden@0 "|..])
    else Malformed
  }

  // ----------------------------------------------------------------------- round trip

  lemma {:induction false} ReadName(name: string, rest: string, c: char)
    requires c !in name && rest != "" && rest[0] == c
    ensures ReadUntil(name + rest, c) == Read(name, rest)
    decreases |name|
  {
    if name == "" {
      assert name + rest == rest;
    } else {
      assert (name + rest)[1..] == name[1..] + rest && name == [name[0]] + name[1..];
      ReadName(name[1..], rest, c);
    }
  }

  lemma {:induction false} ReadEscaped(v: string, rest: string)
    ensures ReadValue(Escape(v) + ("\"" + rest)) == Read(v, rest)
    decreases |v|
  {
    hide ReadValue;
    var tail := "\"" + rest;
    if v == "" {
      assert Escape(v) + tail == tail;
      ReadClosing(rest);
    } else {
      var more := Escape(v[1..]) + tail;
      ReadEscaped(v[1..], rest);
      ReadNext(v[0], more, v[1..], rest);
      assert Escape(v) + tail == EscapedChar(v[0]) + more && v == [v[0]] + v[1..];
    }
  }

  lemma {:induction false} ReadClosing(rest: string)
    ensures ReadValue("\"" + rest) == Read("", rest)
  {
    assert ("\"" + rest)[1..] == rest;
  }

  lemma {:induction false} ReadNext(c: char, more: string, v: string, rest: string)
    requires ReadValue(more) == Read(v, rest)
    ensures ReadValue(EscapedChar(c) + more) == Read([c] + v, rest)
  {
    var s := EscapedChar(c) + more;
    assert s[|EscapedChar(c)|..] == more;
  }

  lemma {:induction false} NameHasNoEquals(s: string)
    ensures '=' !in SafeName(s)
  {
  }

  lemma {:induction false} ReadPair(a: Attribute, rest: string)
    ensures var s := FormatPair(a) + rest;
      var name := ReadUntil(s, '=');
      && name.Read? && name.value == Sanitized(a).key
      && |name.rest| >= 2 && name.rest[1] == '"'
      && ReadValue(name.rest[2..]) == Read(Sanitized(a).value, rest)
  {
    hide ReadUntil, ReadValue, Escape;
    var b := Sanitized(a);
    var tail := "=\"" + (Escape(b.value) + ("\"" + rest));
    assert FormatPair(a) + rest == b.key + tail;
    NameHasNoEquals(SanitizeLine(a.key));
    ReadName(b.key, tail, '=');
    assert tail[2..] == Escape(b.value) + ("\"" + rest);
    ReadEscaped(b.value, rest);
  }

  function SanitizedAll(attrs: seq<Attribute>): (r: seq<Attribute>)
    ensures |r| == |attrs| && forall i :: 0 <= i < |attrs| ==> r[i] == Sanitized(attrs[i])
  {
    if attrs == [] then [] else [Sanitized(attrs[0])] + SanitizedAll(attrs[1..])
  }

  lemma {:induction false} ReadFormatted(attrs: seq<Attribute>, after: string)
    requires attrs != []
    ensures ReadPairs(FormatPairs(attrs) + ("]" + after)) == Read(SanitizedAll(attrs), after)
    decreases |attrs|
  {
    hide ReadUntil, ReadValue, Escape, FormatPair, Sanitized;
    var a, close := attrs[0], "]" + after;
    if |attrs| == 1 {
      ReadPair(a, close);
      assert close[1..] == after;
      assert SanitizedAll(attrs) == [Sanitized(a)];
    } else {
      var rest := " " + (FormatPairs(attrs[1..]) + close);
      assert FormatPairs(attrs) + close == FormatPair(a) + rest && rest[1..] == FormatPairs(attrs[1..]) + close;
      ReadPair(a, rest);
      ReadFormatted(attrs[1..], after);
    }
  }

  /** Whatever the attributes and whatever text follows, a reader that undoes the escapes
      finds exactly the sanitized pairs: no value closes its quotes, its element or its
      record early. */
  lemma {:induction false} StructuredDataReadsBack(attrs: seq<Attribute>, after: string)
    ensures ReadElement(FormatStructuredData(attrs) + after) == Read(SanitizedAll(attrs), after)
  {
    hide ReadPairs, FormatPairs;
    var head := "[clawwarden@0 ";
    var s := FormatStructuredData(attrs) + after;
    if attrs == [] {
      assert s[1..] == after;
    } else {
      var body := FormatPairs(attrs) + ("]" + after);
      assert s == head + body && s[|head|..] == body;
      ReadFormatted(attrs, after);
    }
  }

  ghost predicate OneRecord(s: string) {
    forall i :: 0 <= i < |s| ==> !IsControl(s[i])
  }

  lemma {:induction false} SanitizedIsOneRecord(s: string)
    ensures OneRecord(SanitizeLine(s)) && OneRecord(SafeName(SanitizeLine(s)))
  {
  }

  lemma {:induction false} EscapeIsOneRecord(s: string)
    requires OneRecord(s)
    ensures OneRecord(Escape(s))
    decreases |s|
  {
    if s != "" {
      EscapeIsOneRecord(s[1..]);
    }
  }

  /** Nothing in the attributes can break the line. */
  lemma {:induction false} StructuredDataIsOneRecord(attrs: seq<Attribute>)
    ensures OneRecord(FormatStructuredData(attrs))
  {
    hide FormatPairs;
    if attrs != [] { PairsAreOneRecord(attrs); }
  }

  lemma {:induction false} PairsAreOneRecord(attrs: seq<Attribute>)
    requires attrs != []
    ensures OneRecord(FormatPairs(attrs))
    decreases |attrs|
  {
    hide FormatPair, OneRecord;
    PairIsOneRecord(attrs[0]);
    if |attrs| > 1 {
      PairsAreOneRecord(attrs[1..]);
      JoinedIsOneRecord(FormatPair(attrs[0]), FormatPairs(attrs[1..]));
    }
  }

  lemma {:induction false} JoinedIsOneRecord(a: string, b: string)
    requires OneRecord(a) && OneRecord(b)
    ensures OneRecord(a + (" " + b))
  {
  }

  lemma {:induction false} PairIsOneRecord(a: Attribute)
    ensures OneRecord(FormatPair(a))
  {
    hide Escape;
    SanitizedIsOneRecord(a.key);
    SanitizedIsOneRecord(a.value);
    EscapeIsOneRecord(SanitizeLine(a.value));
  }

  // -------------------------------------------------------------------- the whole line

  datatype Severity = Critical | High | Medium | Low

  datatype Event = Event(facility: nat, severity: Severity, timestamp: string, host: string, app: string,
                         eventType: string, attributes: seq<Attribute>, message: string)

  function SeverityCode(s: Severity): nat {
    match s
    case Critical => 2
    case High => 3
    case Medium => 4
    case Low => 6
  }

  function Priority(e: Event): nat {
    e.facility * 8 + SeverityCode(e.severity)
  }

  function FormatSyslog(e: Event): string {
    "<" + NatText(Priority(e)) + ">1 " + e.timestamp + " " + e.host + " " + e.app + " - " +
    SanitizeLine(e.eventType) + " " + FormatStructuredData(e.attributes) + " " + SanitizeLine(e.message)
  }

  lemma {:induction false} OneRecordAppend(a: string, b: string)
    ensures OneRecord(a + b) <==> OneRecord(a) && OneRecord(b)
  {
    hide IsControl;
    assert forall i :: 0 <= i < |a| ==> (a + b)[i] == a[i];
    assert forall i :: |a| <= i < |a + b| ==> (a + b)[i] == b[i - |a|];
    if OneRecord(a + b) {
      forall i | 0 <= i < |b| ensures !IsControl(b[i]) {
        assert (a + b)[|a| + i] == b[i];
      }
    }
  }

  /** The line holds a control character only if the timestamp, host or application name,
      which are not sanitized, does: no event type, attribute or message forges a record. */
  lemma {:induction false} LineIsOneRecordExactly(e: Event)
    ensures OneRecord(FormatSyslog(e)) <==> OneRecord(e.timestamp) && OneRecord(e.host) && OneRecord(e.app)
  {
    hide OneRecord, FormatStructuredData;
    var a := "<" + NatText(Priority(e)) + ">1 ";
    var b := SanitizeLine(e.eventType) + " " + FormatStructuredData(e.attributes) + " " + SanitizeLine(e.message);
    FixedPartsAreOneRecord(Priority(e));
    SanitizedIsOneRecord(e.eventType);
    SanitizedIsOneRecord(e.message);
    StructuredDataIsOneRecord(e.attributes);
    OneRecordAppend(SanitizeLine(e.eventType) + " " + FormatStructuredData(e.attributes) + " ", SanitizeLine(e.message));
    OneRecordAppend(SanitizeLine(e.eventType) + " " + FormatStructuredData(e.attributes), " ");
    OneRecordAppend(SanitizeLine(e.eventType) + " ", FormatStructuredData(e.attributes));
    OneRecordAppend(SanitizeLine(e.eventType), " ");
    OneRecordAppend(a, e.timestamp);
    OneRecordAppend(a + e.timestamp, " ");
    OneRecordAppend(a + e.timestamp + " ", e.host);
    OneRecordAppend(a + e.timestamp + " " + e.host, " ");
    OneRecordAppend(a + e.timestamp + " " + e.host + " ", e.app);
    OneRecordAppend(a + e.timestamp + " " + e.host + " " + e.app, " - ");
    OneRecordAppend(a + e.timestamp + " " + e.host + " " + e.app + " - ", b);
    assert FormatSyslog(e) == a + e.timestamp + " " + e.host + " " + e.app + " - " + b;
  }

  lemma {:induction false} FixedPartsAreOneRecord(n: nat)
    ensures OneRecord("<" + NatText(n) + ">1 ") && OneRecord(" ") && OneRecord(" - ")
  {
    hide NatText;
  }

  // ------------------------------------------------------------- reading the line back

  /** What section 6.2.1 of RFC 5424 calls critical, error, warning and informational. */
  function NamedSeverity(code: nat): Read<Severity> {
    if code == 2 then Read(Critical, "")
    else if code == 3 then Read(High, "")
    else if code == 4 then Read(Medium, "")
    else if code == 6 then Read(Low, "")
    else Malformed
  }

  /** A space-terminated word, with its space. */
  function ReadWord(s: string): Read<string> {
    ReadUntilShrinks(s, ' ');
    var r := ReadUntil(s, ' ');
    if r.Malformed? then Malformed else Read(r.value, r.rest[1..])
  }

  predicate Numeral(s: string) {
    forall i :: 0 <= i < |s| ==> IsDigit(s[i])
  }

  /** A whole line of section 6 of RFC 5424, version 1 and without a process id. */
  function ReadEvent(line: string): Read<Event> {
    if line == "" || line[0] != '<' then Malformed
    else
      var pri := ReadUntil(line[1..], '>');
      if pri.Malformed? || !Numeral(pri.value) || !(">1 " <= pri.rest) then Malformed
      else
        var n := TextNat(pri.value);
        var severity, body := NamedSeverity(n % 8), ReadBody(pri.rest[3..]);
        if severity.Malformed? || body.Malformed? then Malformed
        else Read(body.value.(facility := n / 8, severity := severity.value), body.rest)
  }

  /** Everything after the priority and the version. */
  function ReadBody(s: string): Read<Event> {
    var timestamp := ReadWord(s);
    if timestamp.Malformed? then Malformed
    else
      var host := ReadWord(timestamp.rest);
      if host.Malformed? then Malformed
      else
        var app := ReadWord(host.rest);
        if app.Malformed? || !("- " <= app.rest) then Malformed
        else
          var eventType := ReadWord(app.rest[2..]);
          if eventType.Malformed? then Malformed
          else
            var sd := ReadElement(eventType.rest);
            if sd.Malformed? || sd.rest == "" || sd.rest[0] != ' ' then Malformed
            else Read(Event(0, Low, timestamp.value, host.value, app.value, eventType.value, sd.value, sd.rest[1..]), "")
  }

  /** The event a collector should see. */
  function Received(e: Event): Event {
    e.(eventType := SanitizeLine(e.eventType), attributes := SanitizedAll(e.attributes), message := SanitizeLine(e.message))
  }

  predicate Spaceless(e: Event) {
    ' ' !in e.timestamp && ' ' !in e.host && ' ' !in e.app && ' ' !in SanitizeLine(e.eventType)
  }

  lemma {:induction false} WordReadsBack(w: string, rest: string)
    requires ' ' !in w
    ensures ReadWord(w + (" " + rest)) == Read(w, rest)
  {
    ReadName(w, " " + rest, ' ');
    assert (" " + rest)[1..] == rest;
  }

  lemma {:induction false} WordsHoldNoSpace(s: string, c: char)
    ensures ReadUntil(s, c).Read? ==> c !in ReadUntil(s, c).value
    decreases |s|
  {
    if s != "" && s[0] != c { WordsHoldNoSpace(s[1..], c); }
  }

  /** The line from the timestamp on, grouped from the right. */
  function Body(e: Event): string {
    e.timestamp + (" " + (e.host + (" " + (e.app + (" " + ("- " + (SanitizeLine(e.eventType) + (" " + Tail(e)))))))))
  }

  function Tail(e: Event): string {
    FormatStructuredData(e.attributes) + (" " + SanitizeLine(e.message))
  }

  lemma {:induction false} LineParts(e: Event)
    ensures FormatSyslog(e) == "<" + (NatText(Priority(e)) + (">1 " + Body(e)))
  {
    hide NatText, FormatStructuredData, SanitizeLine;
    var p, v, sd, m := NatText(Priority(e)), SanitizeLine(e.eventType), FormatStructuredData(e.attributes), SanitizeLine(e.message);
    assert FormatSyslog(e) == "<" + p + ">1 " + e.timestamp + " " + e.host + " " + e.app + " - " + v + " " + sd + " " + m;
    assert e.app + " - " == e.app + (" " + "- ");
  }

  lemma {:induction false} TailReadsBack(e: Event)
    ensures ReadElement(Tail(e)) == Read(SanitizedAll(e.attributes), " " + SanitizeLine(e.message))
  {
    hide ReadElement, FormatStructuredData, SanitizeLine;
    StructuredDataReadsBack(e.attributes, " " + SanitizeLine(e.message));
  }

  lemma {:induction false} BodyReadsBack(e: Event)
    requires Spaceless(e)
    ensures ReadBody(Body(e)) == Read(Received(e).(facility := 0, severity := Low), "")
  {
    hide ReadWord, ReadElement, SanitizeLine, Tail, SanitizedAll;
    var v, m := SanitizeLine(e.eventType), SanitizeLine(e.message);
    var afterMark := v + (" " + Tail(e));
    var afterApp := "- " + afterMark;
    var afterHost := e.app + (" " + afterApp);
    WordReadsBack(e.timestamp, e.host + (" " + afterHost));
    WordReadsBack(e.host, afterHost);
    WordReadsBack(e.app, afterApp);
    assert "- " <= afterApp && afterApp[2..] == afterMark;
    WordReadsBack(v, Tail(e));
    TailReadsBack(e);
    assert (" " + m)[1..] == m;
  }

  lemma {:induction false} SeverityReadsBack(e: Event)
    ensures NamedSeverity(Priority(e) % 8) == Read(e.severity, "") && Priority(e) / 8 == e.facility
  {
  }

  lemma {:induction false} PriorityReadsBack(e: Event, rest: string)
    ensures ReadUntil(NatText(Priority(e)) + (">1 " + rest), '>') == Read(NatText(Priority(e)), ">1 " + rest)
    ensures Numeral(NatText(Priority(e))) && TextNat(NatText(Priority(e))) == Priority(e)
  {
    NumeralRoundTrip(Priority(e));
    var p := NatText(Priority(e));
    hide NatText, TextNat;
    assert '>' !in p;
    ReadName(p, ">1 " + rest, '>');
  }

  /** What is read off a line has no space in its words. */
  lemma {:induction false} ReadIsSpaceless(line: string)
    ensures var r := ReadEvent(line);
      r.Read? ==> ' ' !in r.value.timestamp && ' ' !in r.value.host && ' ' !in r.value.app && ' ' !in r.value.eventType
  {
    hide ReadUntil, ReadWord, ReadElement, TextNat, NamedSeverity, Numeral;
    forall s ensures ReadWord(s).Read? ==> ' ' !in ReadWord(s).value { WordIsSpaceless(s); }
  }

  lemma {:induction false} WordIsSpaceless(s: string)
    ensures ReadWord(s).Read? ==> ' ' !in ReadWord(s).value
  {
    ReadUntilShrinks(s, ' ');
    WordsHoldNoSpace(s, ' ');
  }

  /** A collector reads back facility, severity, timestamp, host, application name, event
      type, attributes and message, each sanitized where the formatter sanitizes, exactly
      when none of the four words holds a space: the last of them, the event type, may come
      to hold one where it held a control character. */
  lemma {:induction false} LineReadsBackExactly(e: Event)
    ensures ReadEvent(FormatSyslog(e)) == Read(Received(e), "") <==> Spaceless(e)
  {
    hide Body, FormatSyslog, SanitizeLine, ReadBody, ReadUntil, NatText, TextNat, SanitizedAll, Numeral, NamedSeverity, Priority;
    ReadIsSpaceless(FormatSyslog(e));
    if Spaceless(e) {
      LineParts(e);
      var rest := ">1 " + Body(e);
      var line := "<" + (NatText(Priority(e)) + rest);
      assert line[0] == '<' && line[1..] == NatText(Priority(e)) + rest;
      PriorityReadsBack(e, Body(e));
      assert ">1 " <= rest && rest[3..] == Body(e);
      SeverityReadsBack(e);
      BodyReadsBack(e);
    }
  }
}
