/** Exactly which log lines survive printing and parsing. */
module SseRoundTrip {
  import opened Sse

  // ---- text that ends its last line -------------------------------------------------------------

  predicate EndsLine(text: string) {
    text == "" || IsBreak(text[|text| - 1])
  }

  /** a ends with CR and b starts with LF, so that the two are one line break. */
  predicate Straddles(a: string, b: string) {
    a != "" && b != "" && a[|a| - 1] == '\r' && b[0] == '\n'
  }

  lemma EndsWithBreak(text: string)
    requires EndsLine(text) && text != ""
    ensures FirstBreak(text) < |text|
  {
    assert text[..|text|] == text;
  }

  /** After a text that ends its last line, parsing starts afresh. */
  lemma {:induction false} LinesAppend(a: string, b: string, ab: string)
    requires EndsLine(a) && !Straddles(a, b) && ab == a + b
    ensures Lines(ab, true) == Lines(a, true) + Lines(b, true)
    decreases |a|
  {
    if a == "" {
      assert ab == b;
      assert !HasLine(a, true);
    } else {
      EndsWithBreak(a);
      var i := FirstBreak(a);
      var k := NextLine(a, i);
      assert ab[..i] == a[..i] && NextLine(ab, i) == k;
      var rest := a[k..];
      assert ab[k..] == rest + b;
      assert rest != "" ==> rest[|rest| - 1] == a[|a| - 1];
      LineAt(ab, i, true, ab[k..]);
      LinesAppend(rest, b, ab[k..]);
      Reassociate([Text(a[..i])], Lines(rest, true), Lines(b, true));
    }
  }

  lemma PrintedEndsLine(lines: seq<Text>)
    ensures Printed(lines) == "" || Printed(lines)[|Printed(lines)| - 1] == '\n'
  {
  }

  lemma PrintedLines(lines: seq<Text>, last: Text)
    ensures Lines(Printed(lines + [last]), true) == Lines(Printed(lines), true) + Lines(PrintedLine(last.chars), true)
  {
    PrintedEndsLine(lines);
    assert (lines + [last])[..|lines|] == lines;
    LinesAppend(Printed(lines), PrintedLine(last.chars), Printed(lines + [last]));
  }

  // ---- plain lines come back ---------------------------------------------------------------------

  lemma ColonAt(value: string, i: nat)
    requires i < |value| && value[i] == ':' && ':' !in value[..i]
    ensures Colon(value) == i
  {
    var j := Colon(value);
    assert forall k :: 0 <= k < i ==> value[..i][k] == value[k] && value[..i][k] in value[..i];
    assert forall k :: 0 <= k < j ==> value[..j][k] == value[k] && value[..j][k] in value[..j];
  }

  lemma DataField(line: string)
    ensures FieldOf("data: " + line) == "data" && ContentOf("data: " + line) == line
  {
    var value := "data: " + line;
    assert value[..4] == "data";
    assert value[4] == ':' && value[5] == ' ';
    assert ':' !in "data";
    ColonAt(value, 4);
    assert value[5..][1..] == line;
  }

  lemma PlainPrefix(line: string)
    requires Plain(line)
    ensures Plain("data: " + line)
  {
    var value := "data: " + line;
    forall k | 0 <= k < |value|
      ensures !IsBreak(value[k])
    {
      assert k < 6 ==> value[k] == "data: "[k];
      assert k >= 6 ==> value[k] == line[k - 6];
    }
  }

  lemma BlankLine()
    ensures Lines("\n", true) == [Text("")]
  {
    var next: string := "";
    assert "\n"[..0] == "";
    assert "\n"[1..] == next;
    assert !HasLine(next, true);
    LineAt("\n", 0, true, next);
  }

  /** The first line of a printed line carries its text up to the first break. */
  lemma FirstOfPrinted(line: string) returns (more: seq<Text>)
    ensures Lines(PrintedLine(line), true) ==
            [Text("data: " + line[..FirstBreak(line)])] + more + [Text("")]
    ensures Plain(line) ==> more == []
  {
    var i := FirstBreak(line);
    var body := "data: " + line + "\n";
    assert PrintedLine(line) == body + "\n";
    LinesAppend(body, "\n", PrintedLine(line));
    BlankLine();
    var head := "data: " + line[..i];
    PlainPrefix(line[..i]);
    assert body[..6 + i] == head;
    var next := body[NextLine(body, 6 + i)..];
    LineAt(body, 6 + i, true, next);
    more := Lines(next, true);
    if Plain(line) {
      assert i == |line|;
      assert next == "";
      assert !HasLine(next, true);
    }
  }

  lemma Two(p: Parse, a: Text, b: Text)
    ensures AfterLines(p, [a] + [] + [b]) == AfterLine(AfterLine(p, a.chars), b.chars)
  {
    LineDone(p, [], a);
    LineDone(p, [a], b);
    assert [] + [a] == [a] && [a] + [] + [b] == [a] + [b];
  }

  lemma PlainLineDelivered(line: Text, messages: seq<Text>)
    requires Plain(line.chars)
    ensures AfterLines(Parse([], "", messages), Lines(PrintedLine(line.chars), true))
            == Parse([], "", messages + [line])
  {
    var p := Parse([], "", messages);
    var l := line.chars;
    var more := FirstOfPrinted(l);
    assert l[..FirstBreak(l)] == l by {
      assert FirstBreak(l) == |l|;
    }
    Two(p, Text("data: " + l), Text(""));
    DataField(l);
    assert ("data: " + l) != "";
    assert AfterLine(p, "data: " + l) == Parse([Text(l)], "", messages) by {
      assert [] + [Text(l)] == [Text(l)];
    }
  }

  lemma {:induction false} PrintedRoundTrip(lines: seq<Text>)
    requires forall l :: l in lines ==> Plain(l.chars)
    ensures AfterLines(EMPTY, Lines(Printed(lines), true)) == Parse([], "", lines)
  {
    if lines == [] {
      assert !HasLine("", true);
    } else {
      var n := |lines| - 1;
      var last := lines[n];
      assert lines == lines[..n] + [last];
      PrintedRoundTrip(lines[..n]);
      PrintedLines(lines[..n], last);
      AfterLinesConcat(EMPTY, Lines(Printed(lines[..n]), true), Lines(PrintedLine(last.chars), true));
      PlainLineDelivered(last, lines[..n]);
    }
  }

  // ---- and no others do ---------------------------------------------------------------------------------

  /** The characters of a text that are not line breaks. */
  function Visible(text: string): nat {
    if text == "" then 0 else Visible(text[..|text| - 1]) + if IsBreak(text[|text| - 1]) then 0 else 1
  }

  lemma {:induction false} VisibleConcat(a: string, b: string)
    ensures Visible(a + b) == Visible(a) + Visible(b)
  {
    if b == "" {
      assert a + b == a;
    } else {
      assert (a + b)[..|a + b| - 1] == a + b[..|b| - 1];
      VisibleConcat(a, b[..|b| - 1]);
    }
  }

  lemma {:induction false} VisiblePlain(text: string)
    ensures Visible(text) <= |text|
    ensures Visible(text) == |text| <==> Plain(text)
  {
    if text != "" {
      var n := |text| - 1;
      VisiblePlain(text[..n]);
      assert Plain(text) ==> Plain(text[..n]);
      assert Plain(text[..n]) && !IsBreak(text[n]) ==> Plain(text) by {
        assert forall i :: 0 <= i < n ==> text[i] == text[..n][i];
      }
    }
  }

  function Mass(texts: seq<Text>): nat {
    if texts == [] then 0 else Mass(texts[..|texts| - 1]) + |texts[|texts| - 1].chars|
  }

  lemma {:induction false} MassConcat(a: seq<Text>, b: seq<Text>)
    ensures Mass(a + b) == Mass(a) + Mass(b)
  {
    if b == [] {
      assert a + b == a;
    } else {
      assert (a + b)[..|a + b| - 1] == a + b[..|b| - 1];
      MassConcat(a, b[..|b| - 1]);
    }
  }

  lemma MassOne(t: Text)
    ensures Mass([t]) == |t.chars|
  {
    assert [t][..0] == [];
  }

  /** The lines of a text contain its visible characters and nothing else. */
  lemma {:induction false} LinesAreVisible(text: string)
    ensures Mass(Lines(text, true)) <= Visible(text)
    decreases |text|
  {
    var i := FirstBreak(text);
    if HasLine(text, true) {
      var k := NextLine(text, i);
      assert text == text[..i] + text[i..k] + text[k..];
      VisibleConcat(text[..i] + text[i..k], text[k..]);
      VisibleConcat(text[..i], text[i..k]);
      VisiblePlain(text[..i]);
      LinesAreVisible(text[k..]);
      MassConcat([Text(text[..i])], Lines(text[k..], true));
      MassOne(Text(text[..i]));
    }
  }

  function Pending(data: seq<Text>): nat {
    |JoinData(data)|
  }

  function Load(p: Parse): nat {
    Mass(p.messages) + Pending(p.data)
  }

  lemma PendingAppend(data: seq<Text>, t: Text)
    ensures Pending(data + [t]) <= Pending(data) + |t.chars| + 1
    ensures data == [] ==> Pending(data + [t]) == |t.chars|
  {
    assert (data + [t])[..|data|] == data;
  }

  lemma ContentIsShorter(value: string)
    requires FieldOf(value) == "data"
    ensures |ContentOf(value)| + 1 <= |value|
  {
    assert |FieldOf(value)| == 4;
  }

  /** A line adds at most its own length to what is delivered or pending. */
  lemma LineLoad(p: Parse, value: string)
    ensures Load(AfterLine(p, value)) <= Load(p) + |value|
  {
    if value == "" {
      if Deliverable(p) {
        MassConcat(p.messages, [Text(JoinData(p.data))]);
        MassOne(Text(JoinData(p.data)));
      }
    } else if FieldOf(value) == "data" {
      ContentIsShorter(value);
      PendingAppend(p.data, Text(ContentOf(value)));
    }
  }

  lemma {:induction false} LinesLoad(p: Parse, lines: seq<Text>)
    ensures Load(AfterLines(p, lines)) <= Load(p) + Mass(lines)
  {
    if lines != [] {
      var n := |lines| - 1;
      LinesLoad(p, lines[..n]);
      LineLoad(AfterLines(p, lines[..n]), lines[n].chars);
    }
  }

  /** A printed line leaves a clean parser and adds at most its visible characters to the messages. */
  lemma PrintedLineLoad(line: string, messages: seq<Text>)
    ensures var q := AfterLines(Parse([], "", messages), Lines(PrintedLine(line), true));
            q.data == [] && q.event == "" && Mass(q.messages) <= Mass(messages) + Visible(line)
  {
    var p := Parse([], "", messages);
    var more := FirstOfPrinted(line);
    var head := line[..FirstBreak(line)];
    var first := Text("data: " + head);
    var lines := Lines(PrintedLine(line), true);
    var a := AfterLine(p, first.chars);
    var b := AfterLines(a, more);
    DataField(head);
    PendingAppend([], Text(head));
    assert Load(a) == Mass(messages) + |head|;
    LinesLoad(a, more);
    LineLoad(b, "");
    assert AfterLines(p, lines) == AfterLine(b, "") by {
      AfterLinesConcat(p, [first] + more, [Text("")]);
      AfterLinesConcat(p, [first], more);
      LineDone(p, [], first);
      LineDone(b, [], Text(""));
      assert [] + [first] == [first] && [] + [Text("")] == [Text("")];
    }
    PrintedVisible(line);
    LinesAreVisible(PrintedLine(line));
    MassConcat([first] + more, [Text("")]);
    MassConcat([first], more);
    MassOne(first);
    MassOne(Text(""));
  }

  lemma PrintedVisible(line: string)
    ensures Visible(PrintedLine(line)) == 6 + Visible(line)
  {
    VisibleConcat("data: " + line, "\n\n");
    VisibleConcat("data: ", line);
    VisiblePlain("data: ");
    assert "\n\n"[..1] == "\n" && "\n"[..0] == "";
    assert Visible("\n") == 0;
    assert Visible("\n\n") == 0;
  }

  function VisibleTotal(lines: seq<Text>): nat {
    if lines == [] then 0 else VisibleTotal(lines[..|lines| - 1]) + Visible(lines[|lines| - 1].chars)
  }

  lemma {:induction false} PrintedLoad(lines: seq<Text>)
    ensures var q := AfterLines(EMPTY, Lines(Printed(lines), true));
            q.data == [] && q.event == "" && Mass(q.messages) <= VisibleTotal(lines)
  {
    if lines == [] {
      assert !HasLine("", true);
    } else {
      var n := |lines| - 1;
      var last := lines[n];
      assert lines == lines[..n] + [last];
      PrintedLoad(lines[..n]);
      PrintedLines(lines[..n], last);
      AfterLinesConcat(EMPTY, Lines(Printed(lines[..n]), true), Lines(PrintedLine(last.chars), true));
      PrintedLineLoad(last.chars, AfterLines(EMPTY, Lines(Printed(lines[..n]), true)).messages);
    }
  }

  lemma {:induction false} VisibleTotalPlain(lines: seq<Text>)
    ensures VisibleTotal(lines) <= Mass(lines)
    ensures VisibleTotal(lines) == Mass(lines) ==> forall l :: l in lines ==> Plain(l.chars)
  {
    if lines != [] {
      var n := |lines| - 1;
      VisibleTotalPlain(lines[..n]);
      VisiblePlain(lines[n].chars);
      assert lines == lines[..n] + [lines[n]];
    }
  }

  /** Printed log lines come back unchanged exactly when none of them contains CR or LF. */
  lemma RoundTripExact(lines: seq<Text>)
    ensures Messages(Printed(lines)) == lines <==> forall l :: l in lines ==> Plain(l.chars)
  {
    if forall l :: l in lines ==> Plain(l.chars) {
      PrintedRoundTrip(lines);
    } else {
      PrintedLoad(lines);
      VisibleTotalPlain(lines);
    }
  }

  /** For every way of cutting the printed stream into chunks, the reader delivers exactly the lines. */
  lemma RoundTripChunked(lines: seq<Text>, chunks: seq<Text>)
    requires Concat(chunks) == Printed(lines)
    requires forall l :: l in lines ==> Plain(l.chars)
    ensures ReadChunks(EMPTY, "", chunks).messages == lines
  {
    ChunkingIrrelevant(EMPTY, "", chunks);
    assert "" + Concat(chunks) == Concat(chunks);
    PrintedRoundTrip(lines);
  }

  /** A progress bar that rewrites its line with CR loses everything after the first CR. */
  lemma CarriageReturnTruncates()
    ensures Messages(Printed([Text("10%\r20%")])) != [Text("10%\r20%")]
  {
    var line := Text("10%\r20%");
    assert line.chars[3] == '\r';
    assert line in [line] && !Plain(line.chars);
    RoundTripExact([line]);
  }

  /** An event that is not ended by a blank line is dropped. */
  lemma {:induction false} NoBlankNoMessage(p: Parse, lines: seq<Text>)
    requires Text("") !in lines
    ensures AfterLines(p, lines).messages == p.messages
  {
    if lines != [] {
      var n := |lines| - 1;
      assert lines[n] in lines;
      assert forall t :: t in lines[..n] ==> t in lines;
      NoBlankNoMessage(p, lines[..n]);
      assert lines[n].chars != "" by {
        assert lines[n] != Text("");
      }
    }
  }

  lemma BlankFirst(tail: string)
    requires tail != "" && tail[0] == '\n'
    ensures Text("") in Lines(tail, true)
  {
    assert tail[..0] == "";
    LineAt(tail, 0, true, tail[1..]);
  }

  lemma UnterminatedEventDropped(text: string, tail: string)
    requires EndsLine(text) && Text("") !in Lines(tail, true)
    ensures Messages(text + tail) == Messages(text)
  {
    if tail != "" && tail[0] == '\n' {
      BlankFirst(tail);
    }
    LinesAppend(text, tail, text + tail);
    AfterLinesConcat(EMPTY, Lines(text, true), Lines(tail, true));
    NoBlankNoMessage(AfterLines(EMPTY, Lines(text, true)), Lines(tail, true));
  }
}
