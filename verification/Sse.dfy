/**
 Decoding the `data` of server-sent events, beside the parsing of section 9.2.6 of
 the WHATWG HTML Living Standard and an encoder of `data:` lines.
 */
module Sse {
  import opened Outcomes

  // ------------------------------------------------------------------ lines

  /** The line ends of the standard. */
  predicate EndsLine(c: char) { c == '\n' || c == '\r' }

  /** What else `str.splitlines` takes for a line end. */
  predicate EndsLineOnlyInPython(c: char) {
    || c == '\U{0B}' || c == '\U{0C}' || c == '\U{1C}' || c == '\U{1D}' || c == '\U{1E}'
    || c == '\U{85}' || c == '\U{2028}' || c == '\U{2029}'
  }

  predicate EndsPythonLine(c: char) { EndsLine(c) || EndsLineOnlyInPython(c) }

  function LineLength(text: string, ends: char -> bool): (n: nat)
    ensures n <= |text| && (n < |text| ==> ends(text[n])) && forall i :: 0 <= i < n ==> !ends(text[i])
  {
    if text == [] || ends(text[0]) then 0 else 1 + LineLength(text[1..], ends)
  }

  /** The text after a line end; a carriage return takes a line feed with it. */
  function AfterLineEnd(text: string): string
    requires text != []
  {
    if text[0] == '\r' && |text| > 1 && text[1] == '\n' then text[2..] else text[1..]
  }

  /** The lines of a text; nothing follows a final line end. */
  function Lines(text: string, ends: char -> bool): seq<string>
    decreases |text|
  {
    if text == [] then []
    else
      var n := LineLength(text, ends);
      [text[..n]] + if n == |text| then [] else Lines(AfterLineEnd(text[n..]), ends)
  }

  function PythonLines(text: string): seq<string> { Lines(text, EndsPythonLine) }

  lemma Associates<T>(a: seq<T>, b: seq<T>, c: seq<T>)
    ensures a + (b + c) == a + b + c
  {
  }

  // ---------------------------------------------------------------- decoding

  function ColonAt(line: string): (n: nat)
    ensures n <= |line| && (n < |line| ==> line[n] == ':') && forall i :: 0 <= i < n ==> line[i] != ':'
  {
    if line == [] || line[0] == ':' then 0 else 1 + ColonAt(line[1..])
  }

  /** The value a line adds to the data, if it is a `data` field. */
  function DataOf(line: string): Option<string> {
    var n := ColonAt(line);
    if line == [] || n == 0 || line[..n] != "data" then None
    else
      var value := if n < |line| then line[n + 1..] else "";
      Some(if value != [] && value[0] == ' ' then value[1..] else value)
  }

  function Join(parts: seq<string>): string {
    if parts == [] then ""
    else if |parts| == 1 then parts[0]
    else Join(parts[..|parts| - 1]) + "\n" + parts[|parts| - 1]
  }

  function Adding(data: seq<string>, line: string): seq<string> {
    match DataOf(line)
    case Some(value) => data + [value]
    case None => data
  }

  function Flush(data: seq<string>): seq<string> { if data == [] then [] else [Join(data)] }

  /** The events of the lines, with `data` pending; what is pending at the end is an event too. */
  function Events(lines: seq<string>, data: seq<string>): seq<string>
    decreases |lines|
  {
    if lines == [] then Flush(data)
    else if lines[0] == "" then Flush(data) + Events(lines[1..], [])
    else Events(lines[1..], Adding(data, lines[0]))
  }

  function SseEvents(text: string): seq<string> { Events(PythonLines(text), []) }

  /** After `i` lines `events` are out and `data` is pending, on the way to `all`. */
  ghost predicate Decoding(all: seq<string>, events: seq<string>, lines: seq<string>, i: nat, data: seq<string>) {
    i <= |lines| && all == events + Events(lines[i..], data)
  }

  lemma DecodingStep(all: seq<string>, events: seq<string>, lines: seq<string>, i: nat, data: seq<string>)
    requires i < |lines| && Decoding(all, events, lines, i, data)
    ensures lines[i] == "" ==>
              Decoding(all, if data == [] then events else events + [Join(data)], lines, i + 1, [])
    ensures lines[i] != "" ==> Decoding(all, events, lines, i + 1, Adding(data, lines[i]))
  {
    assert events + [] == events;
    assert lines[i..][1..] == lines[i + 1..];
    Associates(events, Flush(data), Events(lines[i + 1..], []));
  }

  lemma DataOfIs(line: string, n: nat, value: string)
    requires line != "" && n == ColonAt(line)
    requires var after := if n < |line| then line[n + 1..] else "";
             value == if after != [] && after[0] == ' ' then after[1..] else after
    ensures DataOf(line) == if line[..n] == "data" then Some(value) else None
  {
  }

  lemma CommentsHoldNoData(line: string)
    requires line != "" && line[0] == ':'
    ensures DataOf(line) == None
  {
  }

  /** What the loop reads off a line that is not blank. */
  method ReadData(line: string) returns (r: Option<string>)
    requires line != ""
    ensures r == DataOf(line)
  {
    if line[0] == ':' {
      CommentsHoldNoData(line);
      return None;
    }
    var n := ColonAt(line);
    var value := if n < |line| then line[n + 1..] else "";
    if n < |line| && value != [] && value[0] == ' ' { value := value[1..]; }
    DataOfIs(line, n, value);
    return if line[..n] == "data" then Some(value) else None;
  }

  lemma DecodingStarts(lines: seq<string>)
    ensures Decoding(Events(lines, []), [], lines, 0, [])
  {
    assert lines[0..] == lines && [] + Events(lines, []) == Events(lines, []);
  }

  lemma DecodingEnds(all: seq<string>, events: seq<string>, lines: seq<string>, data: seq<string>)
    requires Decoding(all, events, lines, |lines|, data)
    ensures all == events + Flush(data)
  {
    assert lines[|lines|..] == [];
  }

  /** The generator's loop, its results in order. */
  method SseDataEvents(text: string) returns (events: seq<string>)
    ensures events == SseEvents(text)
  {
    events := [];
    var lines := PythonLines(text);
    var data: seq<string> := [];
    ghost var all := SseEvents(text);
    DecodingStarts(lines);
    assert all == Events(lines, []);
    hide Join, PythonLines, DataOf, Decoding, SseEvents, Events;
    for i := 0 to |lines|
      invariant Decoding(all, events, lines, i, data)
    {
      DecodingStep(all, events, lines, i, data);
      if lines[i] == "" {
        if data != [] {
          events := events + [Join(data)];
          data := [];
        }
        continue;
      }
      var read := ReadData(lines[i]);
      if read.Some? { data := data + [read.value]; }
    }
    DecodingEnds(all, events, lines, data);
    if data != [] { events := events + [Join(data)]; }
  }

  /** `message` is what the last parsable one of the first `n` events parses to, if any does. */
  ghost predicate IsLastParsed<Value>(
    events: seq<string>, n: nat, parse: string -> Option<Value>, message: Option<Value>)
    requires n <= |events|
  {
    match message
    case None => forall i :: 0 <= i < n ==> parse(events[i]).None?
    case Some(_) =>
      exists i :: 0 <= i < n && parse(events[i]) == message && forall j :: i < j < n ==> parse(events[j]).None?
  }

  /** The message of an event stream is the last event that parses. */
  method ParseEventStream<Value>(text: string, parse: string -> Option<Value>) returns (message: Option<Value>)
    ensures IsLastParsed(SseEvents(text), |SseEvents(text)|, parse, message)
  {
    hide SseEvents;
    var events := SseDataEvents(text);
    message := None;
    for k := 0 to |events|
      invariant IsLastParsed(events, k, parse, message)
    {
      var parsed := parse(events[k]);
      if parsed.Some? { message := parsed; }
    }
  }

  // ------------------------------------------------- the standard's own parsing

  /** Dispatches at blank lines only; the data buffer holds a line feed after every value. */
  function StandardEvents(lines: seq<string>, buffer: string): seq<string>
    decreases |lines|
  {
    if lines == [] then []
    else if lines[0] == "" then
      (if buffer == "" then [] else [buffer[..|buffer| - 1]]) + StandardEvents(lines[1..], "")
    else
      var line := lines[0];
      var n := ColonAt(line);
      var after := if n < |line| then line[n + 1..] else "";
      var value := if after != [] && after[0] == ' ' then after[1..] else after;
      StandardEvents(lines[1..], if line[..n] == "data" then buffer + value + "\n" else buffer)
  }

  /** What is still pending when the text ends. */
  function Pending(lines: seq<string>, data: seq<string>): seq<string>
    decreases |lines|
  {
    if lines == [] then data
    else if lines[0] == "" then Pending(lines[1..], [])
    else Pending(lines[1..], Adding(data, lines[0]))
  }

  function Buffered(data: seq<string>): string {
    if data == [] then "" else Buffered(data[..|data| - 1]) + data[|data| - 1] + "\n"
  }

  lemma {:induction false} BufferedIsJoined(data: seq<string>)
    requires data != []
    ensures Buffered(data) == Join(data) + "\n"
    decreases |data|
  {
    if |data| == 1 {
      assert data[..0] == [];
      assert "" + data[0] + "\n" == data[0] + "\n";
    } else {
      BufferedIsJoined(data[..|data| - 1]);
    }
  }

  lemma BufferedAppend(data: seq<string>, value: string)
    ensures Buffered(data + [value]) == Buffered(data) + value + "\n"
  {
    assert (data + [value])[..|data|] == data;
  }

  lemma {:induction false} DecodersAgree(lines: seq<string>, data: seq<string>)
    ensures Events(lines, data) == StandardEvents(lines, Buffered(data)) + Flush(Pending(lines, data))
    decreases |lines|
  {
    if lines != [] {
      if lines[0] == "" {
        DecodersAgree(lines[1..], []);
        if data != [] {
          BufferedIsJoined(data);
          assert (Join(data) + "\n")[..|Join(data)|] == Join(data);
        }
      } else {
        var line := lines[0];
        if DataOf(line).Some? {
          BufferedAppend(data, DataOf(line).value);
          DecodersAgree(lines[1..], data + [DataOf(line).value]);
        } else {
          DecodersAgree(lines[1..], data);
        }
      }
    }
  }

  /** What the standard decodes: a byte order mark in front is dropped. */
  function StandardDecode(text: string): seq<string> {
    StandardEvents(Lines(if text != [] && text[0] == '\U{FEFF}' then text[1..] else text, EndsLine), "")
  }

  lemma {:induction false} LineLengthAgrees(text: string)
    requires forall i :: 0 <= i < |text| ==> !EndsLineOnlyInPython(text[i])
    ensures LineLength(text, EndsPythonLine) == LineLength(text, EndsLine)
    decreases |text|
  {
    if text != [] && !EndsLine(text[0]) { LineLengthAgrees(text[1..]); }
  }

  lemma {:induction false} LinesAgree(text: string)
    requires forall i :: 0 <= i < |text| ==> !EndsLineOnlyInPython(text[i])
    ensures PythonLines(text) == Lines(text, EndsLine)
    decreases |text|
  {
    if text != [] {
      LineLengthAgrees(text);
      var n := LineLength(text, EndsLine);
      if n < |text| {
        var rest := AfterLineEnd(text[n..]);
        assert rest == text[|text| - |rest|..];
        LinesAgree(rest);
      }
    }
  }

  /** What ends no line is in some line. */
  lemma {:induction false} LinesHold(text: string, ends: char -> bool, i: nat) returns (k: nat)
    requires i < |text| && !ends(text[i])
    requires ends('\n')
    ensures k < |Lines(text, ends)| && text[i] in Lines(text, ends)[k]
    decreases |text|
  {
    var n := LineLength(text, ends);
    if i < n {
      k := 0;
      assert text[..n][i] == text[i];
    } else {
      var rest := AfterLineEnd(text[n..]);
      assert rest == text[|text| - |rest|..];
      var j := LinesHold(rest, ends, i - (|text| - |rest|));
      k := j + 1;
    }
  }

  /** Python and the standard see the same lines exactly when no character ends a line in Python alone. */
  lemma LinesAgreeExactlyWhen(text: string)
    ensures PythonLines(text) == Lines(text, EndsLine) <==>
            forall i :: 0 <= i < |text| ==> !EndsLineOnlyInPython(text[i])
  {
    if forall i :: 0 <= i < |text| ==> !EndsLineOnlyInPython(text[i]) {
      LinesAgree(text);
    } else {
      var i: nat :| i < |text| && EndsLineOnlyInPython(text[i]);
      var k := LinesHold(text, EndsLine, i);
      LinesAreUnbroken(text, EndsPythonLine);
      hide Lines;
      assert !Unbroken(Lines(text, EndsLine)[k], EndsPythonLine);
    }
  }

  /**
   On a text whose only line ends are the standard's, and that has no byte order mark
   in front for the standard to drop, the decoder yields the standard's events and
   then, where the standard drops it, the event the text ends in.
   */
  lemma {:induction false} AgreesWithTheStandard(text: string)
    requires forall i :: 0 <= i < |text| ==> !EndsLineOnlyInPython(text[i])
    requires text == [] || text[0] != '\U{FEFF}'
    ensures SseEvents(text) == StandardDecode(text) + Flush(Pending(Lines(text, EndsLine), []))
  {
    LinesAgree(text);
    DecodersAgree(PythonLines(text), []);
  }

  // ------------------------------------------------------------- round trip

  /** The lines of a text that gains a character. */
  function Longer(parts: seq<string>, c: char): (longer: seq<string>)
    requires parts != []
    ensures longer != []
  {
    if c == '\n' then parts + [""] else parts[..|parts| - 1] + [parts[|parts| - 1] + [c]]
  }

  /** The lines of an event's data. */
  function DataLines(event: string): (parts: seq<string>)
    ensures parts != []
    decreases |event|
  {
    if event == [] then [""]
    else
      Longer(DataLines(event[..|event| - 1]), event[|event| - 1])
  }

  function EncodeLines(parts: seq<string>): string {
    if parts == [] then "" else "data: " + parts[0] + "\n" + EncodeLines(parts[1..])
  }

  /** Every event as `data:` lines and a blank line. */
  function Encode(events: seq<string>): string {
    if events == [] then "" else EncodeLines(DataLines(events[0])) + "\n" + Encode(events[1..])
  }

  /** What may end a line: the line feed does, and no character of the field name. */
  predicate LineFeedEnds(ends: char -> bool) {
    ends('\n') && !ends('d') && !ends('a') && !ends('t') && !ends(':') && !ends(' ')
  }

  /** No character but the line feed ends a line. */
  predicate Clean(text: string, ends: char -> bool) {
    forall i :: 0 <= i < |text| ==> text[i] == '\n' || !ends(text[i])
  }

  predicate AllClean(events: seq<string>, ends: char -> bool) {
    forall k :: 0 <= k < |events| ==> Clean(events[k], ends)
  }

  predicate Unbroken(line: string, ends: char -> bool) {
    forall i :: 0 <= i < |line| ==> !ends(line[i])
  }

  predicate AllUnbroken(lines: seq<string>, ends: char -> bool) {
    forall k :: 0 <= k < |lines| ==> Unbroken(lines[k], ends)
  }

  lemma JoinOfOne(part: string)
    ensures Join([part]) == part
  {
  }

  lemma JoinLast(parts: seq<string>, part: string)
    requires parts != []
    ensures Join(parts + [part]) == Join(parts) + "\n" + part
  {
    assert (parts + [part])[..|parts|] == parts;
  }

  lemma JoinLonger(init: seq<string>, last: string, c: char)
    ensures Join(init + [last + [c]]) == Join(init + [last]) + [c]
  {
    if init == [] {
      assert init + [last] == [last] && init + [last + [c]] == [last + [c]];
    } else {
      JoinLast(init, last);
      JoinLast(init, last + [c]);
      hide Join;
      Associates(Join(init) + "\n", last, [c]);
    }
  }

  lemma JoinOfLonger(parts: seq<string>, c: char)
    requires parts != []
    ensures Join(Longer(parts, c)) == Join(parts) + [c]
  {
    hide Join;
    if c == '\n' {
      JoinLast(parts, "");
      assert Join(parts) + "\n" + "" == Join(parts) + ['\n'];
    } else {
      var init, last := parts[..|parts| - 1], parts[|parts| - 1];
      JoinLonger(init, last, c);
      assert parts == init + [last];
    }
  }

  lemma {:induction false} JoinOfDataLines(event: string)
    ensures Join(DataLines(event)) == event
    decreases |event|
  {
    hide Join, Longer;
    if event == [] {
      JoinOfOne("");
    } else {
      var init, c := event[..|event| - 1], event[|event| - 1];
      JoinOfDataLines(init);
      JoinOfLonger(DataLines(init), c);
      assert event == init + [c];
    }
  }

  lemma {:induction false} DataLinesAreUnbroken(event: string, ends: char -> bool)
    requires Clean(event, ends)
    ensures AllUnbroken(DataLines(event), ends)
    decreases |event|
  {
    if event != [] {
      var c := event[|event| - 1];
      DataLinesAreUnbroken(event[..|event| - 1], ends);
      assert c == '\n' || !ends(c);
    }
  }

  lemma {:induction false} LineLengthOf(line: string, c: char, rest: string, ends: char -> bool)
    requires Unbroken(line, ends) && ends(c)
    ensures LineLength(line + [c] + rest, ends) == |line|
    decreases |line|
  {
    var text := line + [c] + rest;
    if line != [] {
      assert text[0] == line[0];
      assert text[1..] == line[1..] + [c] + rest;
      LineLengthOf(line[1..], c, rest, ends);
    }
  }

  lemma FirstLine(line: string, c: char, rest: string, ends: char -> bool)
    requires Unbroken(line, ends) && ends(c) && c != '\r'
    ensures Lines(line + [c] + rest, ends) == [line] + Lines(rest, ends)
  {
    var text := line + [c] + rest;
    LineLengthOf(line, c, rest, ends);
    assert text[..|line|] == line && text[|line|..] == [c] + rest;
    assert AfterLineEnd([c] + rest) == rest;
  }

  lemma DataLineReads(part: string, ends: char -> bool)
    requires Unbroken(part, ends) && LineFeedEnds(ends)
    ensures Unbroken("data: " + part, ends) && DataOf("data: " + part) == Some(part)
  {
    var line := "data: " + part;
    assert line[0] == 'd' && line[1] == 'a' && line[2] == 't' && line[3] == 'a' && line[4] == ':' && line[5] == ' ';
    assert ColonAt(line) == 4 by { ColonIsAt(line, 4); }
    assert line[..4] == "data";
    assert line[5..] == [' '] + part;
    assert line[5..][1..] == part;
  }

  lemma {:induction false} ColonIsAt(line: string, n: nat)
    requires n < |line| && line[n] == ':' && forall i :: 0 <= i < n ==> line[i] != ':'
    ensures ColonAt(line) == n
    decreases n
  {
    if n > 0 { ColonIsAt(line[1..], n - 1); }
  }

  /** Reading on from the lines of one event, with `data` pending. */
  lemma {:induction false} PartsReadBack(parts: seq<string>, data: seq<string>, rest: string, ends: char -> bool)
    requires AllUnbroken(parts, ends) && LineFeedEnds(ends)
    ensures Events(Lines(EncodeLines(parts) + "\n" + rest, ends), data) ==
            Flush(data + parts) + Events(Lines(rest, ends), [])
    ensures Pending(Lines(EncodeLines(parts) + "\n" + rest, ends), data) == Pending(Lines(rest, ends), [])
    decreases |parts|
  {
    if parts == [] {
      assert EncodeLines(parts) + "\n" + rest == "" + ['\n'] + rest;
      FirstLine("", '\n', rest, ends);
      assert data + [] == data;
    } else {
      var line := "data: " + parts[0];
      var more := EncodeLines(parts[1..]) + "\n" + rest;
      assert EncodeLines(parts) + "\n" + rest == line + ['\n'] + more;
      assert data + parts == data + [parts[0]] + parts[1..];
      assert line != "";
      hide EncodeLines, Lines, DataOf, Flush;
      DataLineReads(parts[0], ends);
      hide Unbroken, LineFeedEnds;
      FirstLine(line, '\n', more, ends);
      PartsReadBack(parts[1..], data + [parts[0]], rest, ends);
    }
  }

  lemma {:induction false} EventReadsBack(event: string, rest: string, ends: char -> bool)
    requires Clean(event, ends) && LineFeedEnds(ends)
    ensures Events(Lines(EncodeLines(DataLines(event)) + "\n" + rest, ends), []) ==
            [event] + Events(Lines(rest, ends), [])
    ensures Pending(Lines(EncodeLines(DataLines(event)) + "\n" + rest, ends), []) == Pending(Lines(rest, ends), [])
  {
    var parts := DataLines(event);
    JoinOfDataLines(event);
    DataLinesAreUnbroken(event, ends);
    assert [] + parts == parts;
    hide EncodeLines, Lines, Events, Pending, DataLines, Join, Clean, Unbroken, LineFeedEnds;
    PartsReadBack(parts, [], rest, ends);
  }

  lemma NothingEncoded(ends: char -> bool)
    ensures Events(Lines(Encode([]), ends), []) == [] && Pending(Lines(Encode([]), ends), []) == []
  {
  }

  lemma FirstEncoded(events: seq<string>)
    requires events != []
    ensures Encode(events) == EncodeLines(DataLines(events[0])) + "\n" + Encode(events[1..])
  {
  }

  /** Clean events are read back from their encoding, which leaves nothing pending. */
  lemma {:induction false} CleanEventsReadBack(events: seq<string>, ends: char -> bool)
    requires AllClean(events, ends) && LineFeedEnds(ends)
    ensures Events(Lines(Encode(events), ends), []) == events
    ensures Pending(Lines(Encode(events), ends), []) == []
    decreases |events|
  {
    if events == [] {
      NothingEncoded(ends);
    } else {
      FirstEncoded(events);
      hide Clean, Events, Lines, Pending, Encode, EncodeLines, DataLines, LineFeedEnds;
      EventReadsBack(events[0], Encode(events[1..]), ends);
      CleanEventsReadBack(events[1..], ends);
      assert events == [events[0]] + events[1..];
    }
  }

  // No decoded event holds a line end other than the line feeds that join its parts.

  lemma {:induction false} LinesAreUnbroken(text: string, ends: char -> bool)
    ensures AllUnbroken(Lines(text, ends), ends)
    decreases |text|
  {
    if text != [] {
      var n := LineLength(text, ends);
      assert Unbroken(text[..n], ends);
      if n < |text| {
        var rest := AfterLineEnd(text[n..]);
        LinesAreUnbroken(rest, ends);
        assert Lines(text, ends) == [text[..n]] + Lines(rest, ends);
      }
    }
  }

  lemma {:induction false} JoinIsClean(parts: seq<string>, ends: char -> bool)
    requires AllUnbroken(parts, ends)
    ensures Clean(Join(parts), ends)
    decreases |parts|
  {
    if |parts| > 1 { JoinIsClean(parts[..|parts| - 1], ends); }
  }

  lemma {:induction false} EventsAreClean(lines: seq<string>, data: seq<string>, ends: char -> bool)
    requires AllUnbroken(lines, ends) && AllUnbroken(data, ends)
    ensures AllClean(Events(lines, data), ends)
    decreases |lines|
  {
    JoinIsClean(data, ends);
    if lines != [] {
      if lines[0] == "" {
        EventsAreClean(lines[1..], [], ends);
      } else {
        EventsAreClean(lines[1..], Adding(data, lines[0]), ends);
      }
    }
  }

  /** Whatever ends lines, the encoding reads back exactly when no event holds such an end but the line feed. */
  lemma {:induction false} ReadsBackExactlyWhenClean(events: seq<string>, ends: char -> bool)
    requires LineFeedEnds(ends)
    ensures Events(Lines(Encode(events), ends), []) == events <==> AllClean(events, ends)
  {
    LinesAreUnbroken(Encode(events), ends);
    EventsAreClean(Lines(Encode(events), ends), [], ends);
    hide Lines, Events, Encode, Clean, LineFeedEnds;
    if AllClean(events, ends) { CleanEventsReadBack(events, ends); }
  }

  /**
   Decoding inverts the encoding of an event list exactly when no event holds a
   character, other than the line feed, that Python takes for a line end.
   */
  lemma {:induction false} RoundTripsExactlyWhenClean(events: seq<string>)
    ensures SseEvents(Encode(events)) == events <==> AllClean(events, EndsPythonLine)
  {
    hide Lines, Events, Encode, AllClean;
    ReadsBackExactlyWhenClean(events, EndsPythonLine);
  }

  lemma {:induction false} EncodingHasNoMark(events: seq<string>)
    ensures Encode(events) == [] || Encode(events)[0] == 'd'
  {
    if events != [] {
      var parts := DataLines(events[0]);
      hide DataLines;
      assert EncodeLines(parts)[0] == ("data: " + parts[0])[0];
    }
  }

  /**
   The standard reads back every event without a carriage return. On their encoding
   the decoder agrees with it exactly when no event holds one of the characters that
   end a line in Python alone.
   */
  lemma {:induction false} AgreesOnEncodingsExactlyWhen(events: seq<string>)
    requires AllClean(events, EndsLine)
    ensures StandardDecode(Encode(events)) == events
    ensures SseEvents(Encode(events)) == StandardDecode(Encode(events)) <==> AllClean(events, EndsPythonLine)
  {
    RoundTripsExactlyWhenClean(events);
    CleanEventsReadBack(events, EndsLine);
    EncodingHasNoMark(events);
    hide Lines, Events, StandardEvents, Pending, Encode, AllClean;
    DecodersAgree(Lines(Encode(events), EndsLine), []);
  }

  lemma {:induction false} UnbrokenIsOneLine(event: string)
    requires '\n' !in event
    ensures DataLines(event) == [event]
    decreases |event|
  {
    if event != [] {
      var init, c := event[..|event| - 1], event[|event| - 1];
      UnbrokenIsOneLine(init);
      assert event == init + [c];
    }
  }

  lemma EncodeOne(event: string)
    requires '\n' !in event
    ensures Encode([event]) == "data: " + event + ['\n'] + ("" + ['\n'] + "")
  {
    UnbrokenIsOneLine(event);
    assert EncodeLines([event]) == "data: " + event + "\n" + "";
  }

  lemma EventsOfOne(line: string, a: string, other: string)
    requires line != "" && DataOf(line) == Some(a) && DataOf(other) == None
    ensures Events([line, other, ""], []) == [a]
  {
    assert [line, other, ""][1..] == [other, ""] && [other, ""][1..] == [""];
    assert [] + [a] == [a] && Join([a]) == a && [a] + [] == [a];
    EventsOfBlank([]);
    EventsOfBlank([a]);
  }

  lemma EventsOfBlank(data: seq<string>)
    ensures Events([""], data) == Flush(data) && Pending([""], data) == []
  {
    assert [""][1..] == [] && Flush(data) + [] == Flush(data);
  }

  /** An event with a character that ends a line in Python alone is cut off there, unless more data follows. */
  lemma SeparatorCutsTheEvent(a: string, c: char, b: string)
    requires Unbroken(a, EndsPythonLine) && Unbroken(b, EndsPythonLine) && EndsLineOnlyInPython(c) && DataOf(b) == None
    ensures SseEvents(Encode([a + [c] + b])) == [a]
  {
    var event, line := a + [c] + b, "data: " + a;
    var rest := b + ['\n'] + ("" + ['\n'] + "");
    EncodeOne(event);
    assert "data: " + event + ['\n'] + ("" + ['\n'] + "") == line + [c] + rest;
    DataLineReads(a, EndsPythonLine);
    hide Encode, Events, DataOf, Lines, Unbroken;
    FirstLine(line, c, rest, EndsPythonLine);
    TwoLines(b, EndsPythonLine);
    EventsOfOne(line, a, b);
    assert [line] + [b, ""] == [line, b, ""];
  }

  /** One such event: JSON may hold a line separator as it is, and the standard reads it back. */
  lemma LineSeparatorIsLost()
    ensures SseEvents(Encode(["a\U{2028}b"])) == ["a"]
    ensures StandardDecode(Encode(["a\U{2028}b"])) == ["a\U{2028}b"]
  {
    assert "a" + ['\U{2028}'] + "b" == "a\U{2028}b";
    NoColon("b");
    SeparatorCutsTheEvent("a", '\U{2028}', "b");
    AgreesOnEncodingsExactlyWhen(["a\U{2028}b"]);
  }

  lemma NoColon(line: string)
    requires |line| == 1 && line[0] != ':'
    ensures DataOf(line) == None
  {
    assert ColonAt(line) == 1;
    assert |line[..1]| == 1 && |"data"| == 4;
  }

  /** A byte order mark in front makes a field name of its own, and the decoder misses the field behind it. */
  lemma ByteOrderMarkHidesTheFirstField(part: string)
    requires Unbroken(part, EndsPythonLine)
    ensures var text := ['\U{FEFF}'] + ("data: " + part + "\n\n");
            SseEvents(text) == [] && StandardDecode(text) == [part]
  {
    var line, tail := "data: " + part, "" + ['\n'] + "";
    var marked := ['\U{FEFF}'] + line;
    var text := ['\U{FEFF}'] + ("data: " + part + "\n\n");
    assert text == marked + ['\n'] + tail && text[1..] == line + ['\n'] + tail;
    DataLineReads(part, EndsPythonLine);
    TwoLines(marked, EndsPythonLine);
    TwoLines(line, EndsLine);
    MarkedHasNoData(part);
    hide Lines, DataOf;
    BlankEnds(marked, []);
    BlankEnds(line, [part]);
    DecodersAgree([line, ""], []);
  }

  lemma TwoLines(line: string, ends: char -> bool)
    requires Unbroken(line, ends) && ends('\n')
    ensures Lines(line + ['\n'] + ("" + ['\n'] + ""), ends) == [line, ""]
  {
    FirstLine(line, '\n', "" + ['\n'] + "", ends);
    FirstLine("", '\n', "", ends);
  }

  lemma MarkedHasNoData(part: string)
    ensures DataOf(['\U{FEFF}'] + ("data: " + part)) == None
  {
    var line := ['\U{FEFF}'] + ("data: " + part);
    ColonIsAt(line, 5);
    assert |line[..5]| == 5 && |"data"| == 4;
  }

  lemma BlankEnds(line: string, data: seq<string>)
    requires line != "" && Adding([], line) == data
    ensures Events([line, ""], []) == Flush(data) && Pending([line, ""], []) == []
  {
    assert [line, ""][1..] == [""];
    EventsOfBlank(data);
  }
}
