/**
 Escaping text into cells of a Markdown table, and splitting a table row into cells
 as section 4.10 of the GitHub Flavored Markdown Spec does: at every pipe that no
 backslash escapes.
 */
module Markdown {
  import opened Outcomes

  // -------------------------------------------------------------- escaping

  /** Replacing every occurrence of one character. */
  function Replace(text: string, c: char, with: string): string {
    if text == [] then [] else (if text[0] == c then with else [text[0]]) + Replace(text[1..], c, with)
  }

  /** The chain of replacements, in order. */
  function MarkdownCell(value: string): string {
    var backslashes := Replace(value, '\\', "\\\\");
    var pipes := Replace(backslashes, '|', "\\|");
    var feeds := Replace(pipes, '\r', "");
    var newlines := Replace(feeds, '\n', "<br>");
    var opening := Replace(newlines, '<', "&lt;");
    Replace(opening, '>', "&gt;")
  }

  /** What the chain makes of one character; a newline's break is itself escaped by the later steps. */
  function EscapeCharacter(c: char): string {
    if c == '\\' then "\\\\"
    else if c == '|' then "\\|"
    else if c == '\r' then ""
    else if c == '\n' then "&lt;br&gt;"
    else if c == '<' then "&lt;"
    else if c == '>' then "&gt;"
    else [c]
  }

  function EscapeEach(value: string): string {
    if value == [] then [] else EscapeCharacter(value[0]) + EscapeEach(value[1..])
  }

  lemma {:induction false} ReplaceAppend(a: string, b: string, c: char, with: string)
    ensures Replace(a + b, c, with) == Replace(a, c, with) + Replace(b, c, with)
    decreases |a|
  {
    if a == [] {
      assert a + b == b;
    } else {
      assert (a + b)[1..] == a[1..] + b;
      ReplaceAppend(a[1..], b, c, with);
    }
  }

  lemma {:induction false} ReplaceNothing(text: string, c: char, with: string)
    requires c !in text
    ensures Replace(text, c, with) == text
    decreases |text|
  {
    if text != [] {
      assert text == [text[0]] + text[1..];
      ReplaceNothing(text[1..], c, with);
    }
  }

  lemma ReplaceOne(x: char, c: char, with: string)
    ensures Replace([x], c, with) == if x == c then with else [x]
  {
    assert [x][1..] == [];
  }

  lemma CellAppend(a: string, b: string)
    ensures MarkdownCell(a + b) == MarkdownCell(a) + MarkdownCell(b)
  {
    hide Replace;
    ReplaceAppend(a, b, '\\', "\\\\");
    var a1, b1 := Replace(a, '\\', "\\\\"), Replace(b, '\\', "\\\\");
    ReplaceAppend(a1, b1, '|', "\\|");
    var a2, b2 := Replace(a1, '|', "\\|"), Replace(b1, '|', "\\|");
    ReplaceAppend(a2, b2, '\r', "");
    var a3, b3 := Replace(a2, '\r', ""), Replace(b2, '\r', "");
    ReplaceAppend(a3, b3, '\n', "<br>");
    var a4, b4 := Replace(a3, '\n', "<br>"), Replace(b3, '\n', "<br>");
    ReplaceAppend(a4, b4, '<', "&lt;");
    ReplaceAppend(Replace(a4, '<', "&lt;"), Replace(b4, '<', "&lt;"), '>', "&gt;");
  }

  lemma NewlineBreak()
    ensures Replace(Replace("<br>", '<', "&lt;"), '>', "&gt;") == "&lt;br&gt;"
  {
    hide Replace;
    ReplaceOne('<', '<', "&lt;");
    ReplaceNothing("br>", '<', "&lt;");
    ReplaceAppend("<", "br>", '<', "&lt;");
    assert "<" + "br>" == "<br>" && "&lt;" + "br>" == "&lt;br" + ">";
    ReplaceNothing("&lt;br", '>', "&gt;");
    ReplaceOne('>', '>', "&gt;");
    ReplaceAppend("&lt;br", ">", '>', "&gt;");
    assert "&lt;br" + "&gt;" == "&lt;br&gt;";
  }

  lemma CellOfCharacter(x: char)
    ensures MarkdownCell([x]) == EscapeCharacter(x)
  {
    hide Replace;
    ReplaceOne(x, '\\', "\\\\");
    var s1 := if x == '\\' then "\\\\" else [x];
    if x == '\\' { ReplaceNothing(s1, '|', "\\|"); } else { ReplaceOne(x, '|', "\\|"); }
    var s2 := if x == '|' then "\\|" else s1;
    if x == '\\' || x == '|' { ReplaceNothing(s2, '\r', ""); } else { ReplaceOne(x, '\r', ""); }
    var s3 := if x == '\r' then "" else s2;
    if x == '\\' || x == '|' || x == '\r' { ReplaceNothing(s3, '\n', "<br>"); } else { ReplaceOne(x, '\n', "<br>"); }
    var s4 := if x == '\n' then "<br>" else s3;
    assert MarkdownCell([x]) == Replace(Replace(s4, '<', "&lt;"), '>', "&gt;");
    if x == '\n' {
      NewlineBreak();
    } else if x == '<' {
      ReplaceOne(x, '<', "&lt;");
      ReplaceNothing("&lt;", '>', "&gt;");
    } else {
      ReplaceNothing(s4, '<', "&lt;");
      if x == '>' { ReplaceOne(x, '>', "&gt;"); } else { ReplaceNothing(s4, '>', "&gt;"); }
    }
  }

  /** The chained replacements are one substitution for each character. */
  lemma {:induction false} CellEscapesEach(value: string)
    ensures MarkdownCell(value) == EscapeEach(value)
    decreases |value|
  {
    if value == [] {
      assert MarkdownCell([]) == [];
    } else {
      assert value == [value[0]] + value[1..];
      hide MarkdownCell, EscapeCharacter;
      CellAppend([value[0]], value[1..]);
      CellOfCharacter(value[0]);
      CellEscapesEach(value[1..]);
    }
  }

  // -------------------------------------------------------------- splitting

  /** Whether a backslash before position `i` escapes what is there. */
  predicate EscapedAt(text: string, i: nat)
    requires i <= |text|
  {
    i > 0 && text[i - 1] == '\\' && !EscapedAt(text, i - 1)
  }

  /** The length of the run of backslashes that ends before position `i`. */
  function RunBefore(text: string, i: nat): nat
    requires i <= |text|
  {
    if i == 0 || text[i - 1] != '\\' then 0 else 1 + RunBefore(text, i - 1)
  }

  lemma {:induction false} EscapedMeansOddRun(text: string, i: nat)
    requires i <= |text|
    ensures EscapedAt(text, i) <==> RunBefore(text, i) % 2 == 1
    decreases i
  {
    if i > 0 { EscapedMeansOddRun(text, i - 1); }
  }

  /** The pieces between the pipes that are not escaped. */
  function SplitPipes(text: string): (pieces: seq<string>)
    ensures pieces != []
    decreases |text|
  {
    if text == [] then [""]
    else
      var last := |text| - 1;
      var before := SplitPipes(text[..last]);
      if text[last] == '|' && !EscapedAt(text, last) then before + [""]
      else before[..|before| - 1] + [before[|before| - 1] + [text[last]]]
  }

  /** The pieces without an empty one at either end. */
  function Trimmed(pieces: seq<string>): seq<string>
    requires pieces != []
  {
    var start := if pieces[0] == "" then 1 else 0;
    var end := if |pieces| > start && pieces[|pieces| - 1] == "" then |pieces| - 1 else |pieces|;
    pieces[start..end]
  }

  /** The cells of a table row: the empty pieces outside the outer pipes do not count. */
  function Cells(row: string): seq<string> { Trimmed(SplitPipes(row)) }

  /** No pipe of the text stands alone, wherever it is put after unescaped text. */
  ghost predicate Inert(text: string) {
    forall i :: 0 <= i < |text| && text[i] == '|' ==> EscapedAt(text, i)
  }

  /** Inert, and leaving nothing escaped behind it. */
  ghost predicate Closed(text: string) {
    Inert(text) && !EscapedAt(text, |text|)
  }

  lemma {:induction false} EscapedPrefix(a: string, b: string, i: nat)
    requires i <= |a|
    ensures EscapedAt(a + b, i) == EscapedAt(a, i)
    decreases i
  {
    if i > 0 { EscapedPrefix(a, b, i - 1); }
  }

  lemma {:induction false} EscapedShift(a: string, b: string, i: nat)
    requires i <= |b| && !EscapedAt(a, |a|)
    ensures EscapedAt(a + b, |a| + i) == EscapedAt(b, i)
    decreases i
  {
    if i == 0 { EscapedPrefix(a, b, |a|); } else { EscapedShift(a, b, i - 1); }
  }

  lemma ClosedAppend(a: string, b: string)
    requires Closed(a) && Closed(b)
    ensures Closed(a + b)
  {
    forall i | 0 <= i < |a + b| && (a + b)[i] == '|' ensures EscapedAt(a + b, i) {
      if i < |a| { EscapedPrefix(a, b, i); } else { EscapedShift(a, b, i - |a|); }
    }
    EscapedShift(a, b, |b|);
  }

  lemma PlainIsClosed(text: string)
    requires '|' !in text && (text == [] || text[|text| - 1] != '\\')
    ensures Closed(text)
  {
    assert forall i :: 0 <= i < |text| ==> text[i] in text;
  }

  lemma CharacterIsClosed(c: char)
    ensures Closed(EscapeCharacter(c))
    ensures '\r' !in EscapeCharacter(c) && '\n' !in EscapeCharacter(c)
  {
    var e := EscapeCharacter(c);
    if c == '\\' || c == '|' {
      assert |e| == 2 && e[0] == '\\' && e[1] == c;
      assert !EscapedAt(e, 0);
      assert EscapedAt(e, 1);
      assert !EscapedAt(e, 2);
    } else {
      PlainIsClosed(e);
    }
  }

  /** A cell is one line, and every pipe in it follows an odd run of backslashes. */
  lemma {:induction false} CellIsClosed(value: string)
    ensures Closed(MarkdownCell(value))
    ensures '\r' !in MarkdownCell(value) && '\n' !in MarkdownCell(value)
    decreases |value|
  {
    CellEscapesEach(value);
    if value == [] {
      PlainIsClosed([]);
    } else {
      hide MarkdownCell, EscapeCharacter, Closed;
      CellEscapesEach(value[1..]);
      CharacterIsClosed(value[0]);
      CellIsClosed(value[1..]);
      ClosedAppend(EscapeCharacter(value[0]), EscapeEach(value[1..]));
    }
  }

  lemma ClosedPipesFollowOddRuns(text: string, i: nat)
    requires Closed(text) && i < |text| && text[i] == '|'
    ensures RunBefore(text, i) % 2 == 1
  {
    EscapedMeansOddRun(text, i);
  }

  // ------------------------------------------------------------------- rows

  /** `| a | b |`: a row of padded cells. */
  function Row(cells: seq<string>): string {
    if cells == [] then "|" else Row(cells[..|cells| - 1]) + (" " + cells[|cells| - 1] + " ") + "|"
  }

  function Padded(cells: seq<string>): seq<string> {
    seq(|cells|, i requires 0 <= i < |cells| => " " + cells[i] + " ")
  }

  /** The pieces with more text in the last one. */
  function Extended(pieces: seq<string>, text: string): seq<string>
    requires pieces != []
  {
    pieces[..|pieces| - 1] + [pieces[|pieces| - 1] + text]
  }

  lemma {:induction false} SplitOne(text: string, c: char)
    ensures SplitPipes(text + [c]) ==
            if c == '|' && !EscapedAt(text, |text|) then SplitPipes(text) + [""]
            else Extended(SplitPipes(text), [c])
  {
    assert (text + [c])[..|text|] == text;
    EscapedPrefix(text, [c], |text|);
  }

  lemma InertInit(text: string)
    requires Inert(text) && text != []
    ensures Inert(text[..|text| - 1])
    ensures text[|text| - 1] == '|' ==> EscapedAt(text[..|text| - 1], |text| - 1)
  {
    var init, tail := text[..|text| - 1], text[|text| - 1..];
    assert init + tail == text;
    forall i | 0 <= i < |init| && init[i] == '|' ensures EscapedAt(init, i) {
      assert text[i] == '|';
      EscapedPrefix(init, tail, i);
    }
    EscapedPrefix(init, tail, |init|);
  }

  lemma ExtendedTwice(pieces: seq<string>, a: string, b: string)
    requires pieces != []
    ensures Extended(pieces, "") == pieces && Extended(Extended(pieces, a), b) == Extended(pieces, a + b)
  {
    var last := pieces[|pieces| - 1];
    assert last + "" == last && (last + a) + b == last + (a + b);
    assert Extended(pieces, a)[..|pieces| - 1] == pieces[..|pieces| - 1];
  }

  /** Inert text stays in one piece. */
  lemma {:induction false} SplitInert(a: string, b: string)
    requires !EscapedAt(a, |a|) && Inert(b)
    ensures SplitPipes(a + b) == Extended(SplitPipes(a), b)
    decreases |b|
  {
    if b == [] {
      assert a + b == a;
      ExtendedTwice(SplitPipes(a), "", "");
    } else {
      var init, c := b[..|b| - 1], b[|b| - 1];
      InertInit(b);
      assert a + b == (a + init) + [c] && b == init + [c];
      hide SplitPipes, Extended, Inert, EscapedAt;
      SplitInert(a, init);
      EscapedShift(a, init, |init|);
      SplitInertStep(a, init, c);
    }
  }

  lemma {:induction false} SplitInertStep(a: string, init: string, c: char)
    requires SplitPipes(a + init) == Extended(SplitPipes(a), init)
    requires c == '|' ==> EscapedAt(a + init, |a + init|)
    ensures SplitPipes((a + init) + [c]) == Extended(SplitPipes(a), init + [c])
  {
    hide SplitPipes, Extended, EscapedAt;
    SplitOne(a + init, c);
    ExtendedTwice(SplitPipes(a), init, [c]);
  }

  lemma RowPadded(cells: seq<string>)
    requires cells != []
    ensures var n := |cells| - 1;
            Extended([""] + Padded(cells[..n]) + [""], " " + cells[n] + " ") + [""] == [""] + Padded(cells) + [""]
  {
    var n := |cells| - 1;
    var cell := " " + cells[n] + " ";
    assert "" + cell == cell;
    assert Padded(cells) == Padded(cells[..n]) + [cell];
    var pieces := [""] + Padded(cells[..n]) + [""];
    assert pieces[..|pieces| - 1] == [""] + Padded(cells[..n]);
  }

  lemma PaddedIsClosed(cell: string)
    requires Closed(cell)
    ensures Closed(" " + cell + " ")
  {
    PlainIsClosed(" ");
    hide Closed;
    ClosedAppend(" ", cell);
    ClosedAppend(" " + cell, " ");
  }

  lemma {:induction false} RowSplits(cells: seq<string>)
    requires forall i :: 0 <= i < |cells| ==> Closed(cells[i])
    ensures SplitPipes(Row(cells)) == [""] + Padded(cells) + [""]
    ensures !EscapedAt(Row(cells), |Row(cells)|)
    decreases |cells|
  {
    if cells == [] {
      SplitOne("", '|');
      assert "" + ['|'] == "|" && SplitPipes("") == [""];
    } else {
      var n := |cells| - 1;
      var start, cell := Row(cells[..n]), " " + cells[n] + " ";
      assert start + cell != [] && (start + cell + "|")[|start + cell|] == '|';
      PaddedIsClosed(cells[n]);
      hide SplitPipes, Extended, Padded;
      RowSplits(cells[..n]);
      SplitInert(start, cell);
      EscapedShift(start, cell, |cell|);
      SplitOne(start + cell, '|');
      RowPadded(cells);
    }
  }

  lemma TrimmedOuter(cells: seq<string>)
    ensures Trimmed([""] + cells + [""]) == cells
  {
    var pieces := [""] + cells + [""];
    assert pieces[1..|pieces| - 1] == cells;
  }

  /** A row of closed cells is read back as exactly those cells. */
  lemma {:induction false} RowHasItsCells(cells: seq<string>)
    requires forall i :: 0 <= i < |cells| ==> Closed(cells[i])
    ensures Cells(Row(cells)) == Padded(cells)
  {
    hide SplitPipes, Padded, Row, EscapedAt;
    RowSplits(cells);
    TrimmedOuter(Padded(cells));
  }

  lemma {:induction false} RowIsOneLine(cells: seq<string>)
    requires forall i :: 0 <= i < |cells| ==> '\r' !in cells[i] && '\n' !in cells[i]
    ensures '\r' !in Row(cells) && '\n' !in Row(cells)
    decreases |cells|
  {
    if cells != [] { RowIsOneLine(cells[..|cells| - 1]); }
  }

  // ------------------------------------------------------------- references

  datatype Reference = Reference(id: string, url: Option<string>)

  predicate IsSafeUrl(url: string) {
    && ("https://" <= url || "http://" <= url)
    && forall i :: 0 <= i < |url| ==>
         && url[i] >= ' ' && url[i] != 127 as char
         && url[i] != '<' && url[i] != '>' && url[i] != '(' && url[i] != ')' && url[i] != '|'
  }

  function RenderReference(reference: Reference): string {
    var id := MarkdownCell(reference.id);
    match reference.url
    case Some(url) => if IsSafeUrl(url) then "[" + id + "](" + (url + ")") else id + " (unsafe URL omitted)"
    case None => id
  }

  function RenderReferences(references: seq<Reference>): string {
    if references == [] then ""
    else if |references| == 1 then RenderReference(references[0])
    else RenderReferences(references[..|references| - 1]) + "<br>" + RenderReference(references[|references| - 1])
  }

  ghost predicate CellSafe(text: string) {
    Closed(text) && '\r' !in text && '\n' !in text
  }

  lemma CellSafeAppend(a: string, b: string)
    requires CellSafe(a) && CellSafe(b)
    ensures CellSafe(a + b)
  {
    ClosedAppend(a, b);
  }

  lemma ReferenceIsCellSafe(reference: Reference)
    ensures CellSafe(RenderReference(reference))
  {
    var id := MarkdownCell(reference.id);
    CellIsClosed(reference.id);
    if reference.url.Some? {
      var url := reference.url.value;
      if IsSafeUrl(url) {
        assert '|' !in url && '\r' !in url && '\n' !in url;
        hide MarkdownCell, IsSafeUrl;
        PlainIsClosed("[");
        PlainIsClosed("](");
        PlainIsClosed(url + ")");
        CellSafeAppend("[", id);
        CellSafeAppend("[" + id, "](");
        CellSafeAppend("[" + id + "](", url + ")");
      } else {
        hide MarkdownCell, IsSafeUrl;
        PlainIsClosed(" (unsafe URL omitted)");
        CellSafeAppend(id, " (unsafe URL omitted)");
      }
    }
  }

  lemma {:induction false} ReferencesAreCellSafe(references: seq<Reference>)
    ensures CellSafe(RenderReferences(references))
    decreases |references|
  {
    hide RenderReference;
    if references == [] {
      PlainIsClosed("");
    } else {
      var last := references[|references| - 1];
      ReferenceIsCellSafe(last);
      if |references| > 1 {
        var before := RenderReferences(references[..|references| - 1]);
        ReferencesAreCellSafe(references[..|references| - 1]);
        PlainIsClosed("<br>");
        CellSafeAppend(before, "<br>");
        CellSafeAppend(before + "<br>", RenderReference(last));
      }
    }
  }
}
