/** The Locust run-time argument: amounts of hours, minutes and seconds, each at most once. */
module RunTime {
  import opened Outcomes

  const U64_LIMIT: nat := 0x1_0000_0000_0000_0000

  datatype Unit = Hours | Minutes | Seconds {
    function Rank(): nat {
      match this
      case Hours => 0
      case Minutes => 1
      case Seconds => 2
    }

    function Letter(): char {
      match this
      case Hours => 'h'
      case Minutes => 'm'
      case Seconds => 's'
    }
  }

  function UnitOf(c: char): Option<Unit> {
    if c == 'h' then Some(Hours) else if c == 'm' then Some(Minutes) else if c == 's' then Some(Seconds) else None
  }

  /** An amount, kept as its digits so that leading zeros survive, and its unit. */
  datatype Segment = Segment(digits: string, unit: Unit)

  predicate IsDigit(c: char) { '0' <= c <= '9' }

  predicate AllDigits(text: string) { forall i :: 0 <= i < |text| ==> IsDigit(text[i]) }

  function DigitValue(c: char): nat
    requires IsDigit(c)
  {
    c as int - '0' as int
  }

  function Amount(digits: string): nat
    requires AllDigits(digits)
  {
    if digits == [] then 0 else 10 * Amount(digits[..|digits| - 1]) + DigitValue(digits[|digits| - 1])
  }

  /** The digits denote a positive 64-bit amount. */
  predicate ValidAmount(digits: string) {
    digits != [] && AllDigits(digits) && 1 <= Amount(digits) < U64_LIMIT
  }

  /** A duration: valid amounts whose units come in the order h, m, s after `previous`. */
  predicate IsDuration(segments: seq<Segment>, previous: Option<Unit>) {
    segments == [] ||
    (&& ValidAmount(segments[0].digits)
     && (previous.Some? ==> previous.value.Rank() < segments[0].unit.Rank())
     && IsDuration(segments[1..], Some(segments[0].unit)))
  }

  function Print(segments: seq<Segment>): string {
    if segments == [] then "" else Text(segments[0]) + Print(segments[1..])
  }

  /** The text is one to three valid amounts of units in order. */
  ghost predicate IsRunTime(value: string) {
    exists segments :: 1 <= |segments| <= 3 && IsDuration(segments, None) && Print(segments) == value
  }

  /** The length of the leading run of digits. */
  function DigitRun(text: string): (n: nat)
    ensures n <= |text| && (forall i :: 0 <= i < n ==> IsDigit(text[i])) && (n < |text| ==> !IsDigit(text[n]))
  {
    if text == [] || !IsDigit(text[0]) then 0 else 1 + DigitRun(text[1..])
  }

  lemma {:induction false} RunIsUnique(text: string, n: nat)
    requires n <= |text| && AllDigits(text[..n]) && (n < |text| ==> !IsDigit(text[n]))
    ensures DigitRun(text) == n
    decreases n
  {
    if n > 0 {
      assert text[..n][0] == text[0];
      assert text[1..][..n - 1] == text[..n][1..];
      RunIsUnique(text[1..], n - 1);
    }
  }

  /** The first segment of a text. */
  function FirstSegment(text: string, previous: Option<Unit>): Option<Segment> {
    var n := DigitRun(text);
    if !ValidAmount(text[..n]) || n == |text| then None
    else
      var unit := UnitOf(text[n]);
      if unit.None? || (previous.Some? && unit.value.Rank() <= previous.value.Rank()) then None
      else Some(Segment(text[..n], unit.value))
  }

  function Text(segment: Segment): string { segment.digits + [segment.unit.Letter()] }

  lemma FirstSegmentIsPrefix(text: string, previous: Option<Unit>)
    requires FirstSegment(text, previous).Some?
    ensures var s := FirstSegment(text, previous).value;
            && ValidAmount(s.digits) && (previous.Some? ==> previous.value.Rank() < s.unit.Rank())
            && |s.digits| < |text| && text == Text(s) + text[|s.digits| + 1..]
  {
  }

  lemma FirstSegmentOfPrinted(segment: Segment, rest: string, previous: Option<Unit>)
    requires ValidAmount(segment.digits) && (previous.Some? ==> previous.value.Rank() < segment.unit.Rank())
    ensures var text := Text(segment) + rest;
            FirstSegment(text, previous) == Some(segment) && text[|segment.digits| + 1..] == rest
  {
    var text, n := Text(segment) + rest, |segment.digits|;
    assert text[..n] == segment.digits && text[n] == segment.unit.Letter();
    RunIsUnique(text, n);
  }

  /** The segments of a text, read greedily. */
  function Segments(text: string, previous: Option<Unit>): Option<seq<Segment>>
    decreases |text|
  {
    if text == [] then Some([])
    else
      var first := FirstSegment(text, previous);
      if first.None? || |first.value.digits| >= |text| then None
      else
        match Segments(text[|first.value.digits| + 1..], Some(first.value.unit))
        case None => None
        case Some(rest) => Some([first.value] + rest)
  }

  /** What is read prints back as the text. */
  lemma {:induction false} SegmentsPrintBack(text: string, previous: Option<Unit>)
    requires Segments(text, previous).Some?
    ensures IsDuration(Segments(text, previous).value, previous) && Print(Segments(text, previous).value) == text
    ensures text != [] ==> Segments(text, previous).value != []
    decreases |text|
  {
    if text != [] {
      var first, segments := FirstSegment(text, previous).value, Segments(text, previous).value;
      FirstSegmentIsPrefix(text, previous);
      hide FirstSegment, ValidAmount;
      SegmentsPrintBack(text[|first.digits| + 1..], Some(first.unit));
      assert segments[1..] == Segments(text[|first.digits| + 1..], Some(first.unit)).value;
    }
  }

  /** What is printed reads back as the segments, so no text has two decompositions. */
  lemma {:induction false} PrintReadsBack(segments: seq<Segment>, previous: Option<Unit>)
    requires IsDuration(segments, previous)
    ensures Segments(Print(segments), previous) == Some(segments)
    decreases |segments|
  {
    if segments != [] {
      hide FirstSegment, ValidAmount;
      FirstSegmentOfPrinted(segments[0], Print(segments[1..]), previous);
      PrintReadsBack(segments[1..], Some(segments[0].unit));
      assert segments == [segments[0]] + segments[1..];
    }
  }

  lemma {:induction false} AtMostOnePerUnit(segments: seq<Segment>, previous: Option<Unit>)
    requires IsDuration(segments, previous)
    ensures |segments| <= if previous.None? then 3 else 2 - previous.value.Rank()
    decreases |segments|
  {
    if segments != [] { AtMostOnePerUnit(segments[1..], Some(segments[0].unit)); }
  }

  /**
   Accepts exactly the durations of one to three segments, and returns the text as it
   is; the segments it has read are the only ones that print as that text.
   */
  method ParseRunTime(value: string) returns (r: Result<string, ()>)
    ensures r.Ok? ==> r.value == value
    ensures r.Ok? <==> IsRunTime(value)
  {
    AcceptedExactlyWhenRead(value);
    if value == [] { return Err(()); }
    assert value[0..] == value;
    hide FirstSegment, ValidAmount, Segments, IsRunTime;
    var position: nat := 0;
    var previous: Option<Unit> := None;
    while position < |value|
      invariant position <= |value|
      invariant Segments(value, None).Some? <==> Segments(value[position..], previous).Some?
      decreases |value| - position
    {
      var read, next := ReadSegment(value, position, previous);
      SegmentsStep(value, position, previous, next);
      if read.None? { return Err(()); }
      position, previous := next, Some(read.value.unit);
    }
    NothingLeft(value, previous);
    return Ok(value);
  }

  /** Reading goes on behind the first segment, and fails where there is none. */
  lemma SegmentsStep(value: string, position: nat, previous: Option<Unit>, next: nat)
    requires position < |value|
    requires var first := FirstSegment(value[position..], previous);
             first.Some? ==> next == position + |first.value.digits| + 1 <= |value|
    ensures var first := FirstSegment(value[position..], previous);
            && (first.None? ==> Segments(value[position..], previous).None?)
            && (first.Some? ==>
                  (Segments(value[position..], previous).Some? <==>
                     Segments(value[next..], Some(first.value.unit)).Some?))
  {
    hide FirstSegment, ValidAmount;
    var rest := value[position..];
    var first := FirstSegment(rest, previous);
    if first.Some? { assert rest[|first.value.digits| + 1..] == value[next..]; }
  }

  lemma NothingLeft(value: string, previous: Option<Unit>)
    ensures Segments(value[|value|..], previous).Some?
  {
    assert value[|value|..] == [];
  }

  /** Reads one segment from a byte position. */
  method ReadSegment(value: string, start: nat, previous: Option<Unit>) returns (r: Option<Segment>, position: nat)
    requires start < |value|
    ensures r == FirstSegment(value[start..], previous)
    ensures r.Some? ==> position == start + |r.value.digits| + 1 <= |value|
  {
    position := start;
    while position < |value| && IsDigit(value[position])
      invariant start <= position <= |value|
      invariant forall i :: start <= i < position ==> IsDigit(value[i])
    {
      position := position + 1;
    }
    var rest := value[start..];
    assert rest[..position - start] == value[start..position];
    RunIsUnique(rest, position - start);
    if start == position { return None, position; }
    var amount := Amount(value[start..position]);
    if amount >= U64_LIMIT || amount == 0 || position == |value| { return None, position; }
    var unit := UnitOf(value[position]);
    if unit.None? || (previous.Some? && unit.value.Rank() <= previous.value.Rank()) {
      return None, position;
    }
    return Some(Segment(value[start..position], unit.value)), position + 1;
  }

  lemma AcceptedExactlyWhenRead(value: string)
    ensures IsRunTime(value) <==> value != [] && Segments(value, None).Some?
  {
    if segments :| 1 <= |segments| <= 3 && IsDuration(segments, None) && Print(segments) == value {
      PrintReadsBack(segments, None);
    }
    if value != [] && Segments(value, None).Some? {
      SegmentsPrintBack(value, None);
      AtMostOnePerUnit(Segments(value, None).value, None);
    }
  }
}
