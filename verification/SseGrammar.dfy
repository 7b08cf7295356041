/** The reader against the grammar of an event stream (sections 9.2.5 and 9.2.6 of the WHATWG HTML Living Standard). */
module SseGrammar {
  import opened Sse
  import opened SseRoundTrip

  // ---- lines end with LF, CR or CRLF ---------------------------------------------------------------

  /** Every CRLF and every other CR turned into LF. */
  function Normal(text: string): string {
    if text == "" then ""
    else if text[0] != '\r' then [text[0]] + Normal(text[1..])
    else if |text| > 1 && text[1] == '\n' then "\n" + Normal(text[2..])
    else "\n" + Normal(text[1..])
  }

  /** The lines that LF ends, with line read so far; what no LF ends is no line. */
  function Split(text: string, line: string): seq<Text> {
    if text == "" then []
    else if text[0] == '\n' then [Text(line)] + Split(text[1..], "")
    else Split(text[1..], line + [text[0]])
  }

  lemma {:induction false} NormalOfPlain(front: string, rest: string)
    requires Plain(front)
    ensures Normal(front + rest) == front + Normal(rest)
  {
    if front == "" {
      assert front + rest == rest;
    } else {
      assert (front + rest)[1..] == front[1..] + rest;
      assert Plain(front[1..]);
      NormalOfPlain(front[1..], rest);
    }
  }

  lemma {:induction false} SplitOfPlain(front: string, rest: string, line: string)
    requires Plain(front)
    ensures Split(front + rest, line) == Split(rest, line + front)
  {
    if front == "" {
      assert front + rest == rest && line + front == line;
    } else {
      assert (front + rest)[1..] == front[1..] + rest;
      assert Plain(front[1..]);
      assert line + [front[0]] + front[1..] == line + front;
      SplitOfPlain(front[1..], rest, line + [front[0]]);
    }
  }

  /** The lines of a text are those between its LFs once every CRLF and CR counts as one LF. */
  lemma {:induction false} LinesAreSplit(text: string)
    ensures Lines(text, true) == Split(Normal(text), "")
    decreases |text|
  {
    var i := FirstBreak(text);
    var front := text[..i];
    if i == |text| {
      assert front == text && text + "" == text;
      NormalOfPlain(text, "");
      SplitOfPlain(text, "", "");
    } else {
      var rest := if text[i] == '\r' && i + 1 < |text| && text[i + 1] == '\n' then text[i + 2..] else text[i + 1..];
      assert text == front + text[i..];
      NormalOfPlain(front, text[i..]);
      assert Normal(text[i..]) == "\n" + Normal(rest) by {
        BreakNormal(text[i..], rest);
      }
      SplitOfPlain(front, "\n" + Normal(rest), "");
      assert "" + front == front;
      assert ("\n" + Normal(rest))[1..] == Normal(rest);
      LineAt(text, i, true, rest);
      LinesAreSplit(rest);
    }
  }

  lemma BreakNormal(text: string, rest: string)
    requires text != "" && IsBreak(text[0])
    requires rest == if text[0] == '\r' && 1 < |text| && text[1] == '\n' then text[2..] else text[1..]
    ensures Normal(text) == "\n" + Normal(rest)
  {
  }

  /** Streams that differ only in how their lines end carry the same messages. */
  lemma EndingsIrrelevant(a: string, b: string)
    requires Normal(a) == Normal(b)
    ensures Messages(a) == Messages(b)
  {
    LinesAreSplit(a);
    LinesAreSplit(b);
  }

  // ---- written lines come back ---------------------------------------------------------------------

  datatype Ending = Lf | Cr | CrLf

  datatype Row = Row(text: string, ending: Ending)

  function Mark(ending: Ending): string {
    match ending
    case Lf => "\n"
    case Cr => "\r"
    case CrLf => "\r\n"
  }

  function Written(rows: seq<Row>): string {
    if rows == [] then ""
    else
      var n := |rows| - 1;
      Written(rows[..n]) + (rows[n].text + Mark(rows[n].ending))
  }

  function TextsOf(rows: seq<Row>): seq<Text> {
    seq(|rows|, i requires 0 <= i < |rows| => Text(rows[i].text))
  }

  /** Plain lines, and no empty LF line after a CR line: that pair would be read as one CRLF. */
  ghost predicate Unambiguous(rows: seq<Row>) {
    && (forall i :: 0 <= i < |rows| ==> Plain(rows[i].text))
    && forall i :: 0 < i < |rows| && rows[i].text == "" && rows[i].ending.Lf? ==> !rows[i - 1].ending.Cr?
  }

  lemma OneRow(row: Row)
    requires Plain(row.text)
    ensures var text := row.text + Mark(row.ending);
            Lines(text, true) == [Text(row.text)] && text != "" && EndsLine(text)
            && (text[0] == '\n' <==> row.text == "" && row.ending.Lf?)
            && (text[|text| - 1] == '\r' <==> row.ending.Cr?)
  {
    var text := row.text + Mark(row.ending);
    var i := |row.text|;
    var none: string := "";
    assert text[..i] == row.text;
    assert text[NextLine(text, i)..] == none;
    assert !HasLine(none, true);
    LineAt(text, i, true, none);
    assert row.text != "" ==> text[0] == row.text[0];
  }

  lemma {:induction false} WrittenEnds(rows: seq<Row>)
    requires forall i :: 0 <= i < |rows| ==> Plain(rows[i].text)
    ensures EndsLine(Written(rows))
    ensures rows != [] ==>
              Written(rows) != ""
              && (Written(rows)[|Written(rows)| - 1] == '\r' <==> rows[|rows| - 1].ending.Cr?)
  {
    if rows != [] {
      OneRow(rows[|rows| - 1]);
    }
  }

  lemma RowAppended(front: string, row: Row)
    requires EndsLine(front) && Plain(row.text)
    requires row.text == "" && row.ending.Lf? && front != "" ==> front[|front| - 1] != '\r'
    ensures Lines(front + (row.text + Mark(row.ending)), true) == Lines(front, true) + [Text(row.text)]
  {
    var last := row.text + Mark(row.ending);
    OneRow(row);
    LinesAppend(front, last, front + last);
  }

  /** Lines written with any endings come back. */
  lemma {:induction false} RowsComeBack(rows: seq<Row>)
    requires Unambiguous(rows)
    ensures Lines(Written(rows), true) == TextsOf(rows)
  {
    if rows == [] {
      assert !HasLine("", true);
    } else {
      var n := |rows| - 1;
      var front := rows[..n];
      assert forall i :: 0 <= i < n ==> front[i] == rows[i];
      RowsComeBack(front);
      WrittenEnds(front);
      RowAppended(Written(front), rows[n]);
      TextsAppend(rows, n);
    }
  }

  lemma TextsAppend(rows: seq<Row>, n: nat)
    requires |rows| == n + 1
    ensures TextsOf(rows) == TextsOf(rows[..n]) + [Text(rows[n].text)]
  {
  }

  lemma TailIsNoLine(rows: seq<Row>, tail: string)
    requires Unambiguous(rows) && Plain(tail)
    ensures Lines(Written(rows) + tail, true) == TextsOf(rows)
  {
    WrittenEnds(rows);
    RowsComeBack(rows);
    assert FirstBreak(tail) == |tail|;
    assert tail != "" ==> !IsBreak(tail[0]);
    LinesAppend(Written(rows), tail, Written(rows) + tail);
  }

  // ---- a stream of events ------------------------------------------------------------------------------

  function Joined(lines: seq<Text>): Text
    requires lines != []
  {
    if |lines| == 1 then lines[0] else Text(lines[0].chars + "\n" + Joined(lines[1..]).chars)
  }

  lemma {:induction false} JoinedMore(lines: seq<Text>, last: Text)
    requires lines != []
    ensures Joined(lines + [last]) == Text(Joined(lines).chars + "\n" + last.chars)
  {
    assert (lines + [last])[1..] == lines[1..] + [last];
    if |lines| > 1 {
      JoinedMore(lines[1..], last);
      Assemble(lines[0].chars, Joined(lines[1..]).chars, last.chars);
    } else {
      assert lines[1..] + [last] == [last];
    }
  }

  lemma Assemble(a: string, b: string, c: string)
    ensures a + "\n" + (b + "\n" + c) == a + "\n" + b + "\n" + c
  {
  }

  lemma {:induction false} JoinDataIsJoined(lines: seq<Text>)
    requires lines != []
    ensures Text(JoinData(lines)) == Joined(lines)
  {
    var n := |lines| - 1;
    if n > 0 {
      JoinDataIsJoined(lines[..n]);
      assert lines == lines[..n] + [lines[n]];
      JoinedMore(lines[..n], lines[n]);
    }
  }

  /** Comments, an event name unless empty, and the lines of the content, as one event is written. */
  datatype Block = Block(remarks: seq<Text>, event: string, lines: seq<Text>)

  function Prefixed(prefix: string, lines: seq<Text>): seq<Text> {
    seq(|lines|, i requires 0 <= i < |lines| => Text(prefix + lines[i].chars))
  }

  function BlockLines(b: Block): seq<Text> {
    Prefixed(":", b.remarks) + (if b.event == "" then [] else [Text("event: " + b.event)])
    + Prefixed("data: ", b.lines) + [Text("")]
  }

  function StreamLines(blocks: seq<Block>): seq<Text> {
    if blocks == [] then [] else StreamLines(blocks[..|blocks| - 1]) + BlockLines(blocks[|blocks| - 1])
  }

  /** An event with content is delivered, as its lines joined by LF, when it is unnamed or named message. */
  function Delivered(blocks: seq<Block>): seq<Text> {
    if blocks == [] then []
    else
      var b := blocks[|blocks| - 1];
      Delivered(blocks[..|blocks| - 1]) +
      if b.lines != [] && (b.event == "" || b.event == "message") then [Joined(b.lines)] else []
  }

  lemma EventStep(p: Parse, name: string)
    ensures AfterLine(p, "event: " + name) == p.(event := name)
  {
    var value := "event: " + name;
    assert value[..5] == "event" && ':' !in "event";
    ColonAt(value, 5);
    assert value[6..] == " " + name && value[6..][1..] == name;
  }

  lemma RemarkStep(p: Parse, remark: string)
    ensures AfterLine(p, ":" + remark) == p
  {
    assert Colon(":" + remark) == 0;
    assert FieldOf(":" + remark) == "";
  }

  lemma {:induction false} RemarksIgnored(p: Parse, remarks: seq<Text>)
    ensures AfterLines(p, Prefixed(":", remarks)) == p
  {
    if remarks != [] {
      var n := |remarks| - 1;
      RemarksIgnored(p, remarks[..n]);
      assert Prefixed(":", remarks)[..n] == Prefixed(":", remarks[..n]);
      RemarkStep(p, remarks[n].chars);
    }
  }

  lemma {:induction false} DataCollects(p: Parse, lines: seq<Text>)
    requires p.data == []
    ensures AfterLines(p, Prefixed("data: ", lines)) == p.(data := lines)
  {
    if lines != [] {
      var n := |lines| - 1;
      DataCollects(p, lines[..n]);
      assert Prefixed("data: ", lines)[..n] == Prefixed("data: ", lines[..n]);
      DataField(lines[n].chars);
      assert ("data: " + lines[n].chars) != "";
      assert lines == lines[..n] + [lines[n]];
    }
  }

  lemma BlankStep(p: Parse)
    ensures AfterLine(p, "") ==
              Parse([], "", p.messages +
                            if p.data != [] && (p.event == "" || p.event == "message") then [Joined(p.data)] else [])
  {
    if p.data != [] {
      JoinDataIsJoined(p.data);
    }
    assert p.messages + [] == p.messages;
  }

  lemma BlockDelivers(p: Parse, b: Block)
    requires p.data == [] && p.event == ""
    ensures AfterLines(p, BlockLines(b)) == AfterLine(p.(event := b.event, data := b.lines), "")
  {
    var remarks, data := Prefixed(":", b.remarks), Prefixed("data: ", b.lines);
    var event := if b.event == "" then [] else [Text("event: " + b.event)];
    var named := p.(event := b.event);
    RemarksIgnored(p, b.remarks);
    AfterLinesConcat(p, remarks, event);
    if b.event == "" {
      assert AfterLines(p, []) == p;
    } else {
      EventStep(p, b.event);
      LineDone(p, [], event[0]);
      assert [] + event == event;
    }
    assert AfterLines(p, remarks + event) == named;
    DataCollects(named, b.lines);
    AfterLinesConcat(p, remarks + event, data);
    LineDone(p, remarks + event + data, Text(""));
  }

  lemma {:induction false} StreamDelivers(blocks: seq<Block>)
    ensures AfterLines(EMPTY, StreamLines(blocks)) == Parse([], "", Delivered(blocks))
  {
    if blocks != [] {
      var n := |blocks| - 1;
      var p := Parse([], "", Delivered(blocks[..n]));
      StreamDelivers(blocks[..n]);
      AfterLinesConcat(EMPTY, StreamLines(blocks[..n]), BlockLines(blocks[n]));
      BlockDelivers(p, blocks[n]);
      BlankStep(p.(event := blocks[n].event, data := blocks[n].lines));
    }
  }

  /** Events written with any line endings, in any unambiguous mixture, and followed by a tail that no line end
      completes, deliver exactly their messages, in order. */
  lemma EventsComeBack(blocks: seq<Block>, rows: seq<Row>, tail: string)
    requires TextsOf(rows) == StreamLines(blocks) && Unambiguous(rows) && Plain(tail)
    ensures Messages(Written(rows) + tail) == Delivered(blocks)
  {
    TailIsNoLine(rows, tail);
    StreamDelivers(blocks);
  }

  /** In particular a single event of several lines ended throughout by CRLF. */
  lemma CrLfEvent(a: string, b: string)
    requires Plain(a) && Plain(b)
    ensures Messages("data: " + a + "\r\n" + ("data: " + b + "\r\n") + "\r\n") == [Text(a + "\n" + b)]
  {
    var block := Block([], "", [Text(a), Text(b)]);
    var rows := [Row("data: " + a, CrLf), Row("data: " + b, CrLf), Row("", CrLf)];
    var text := "data: " + a + "\r\n" + ("data: " + b + "\r\n") + "\r\n";
    PlainPrefix(a);
    PlainPrefix(b);
    assert StreamLines([block]) == TextsOf(rows) by {
      assert [block][..0] == [];
    }
    assert Delivered([block]) == [Joined(block.lines)] by {
      assert [block][..0] == [];
    }
    assert block.lines[1..] == [Text(b)];
    WrittenThree(rows);
    EventsComeBack([block], rows, "");
    assert Written(rows) + "" == text;
  }

  lemma WrittenThree(rows: seq<Row>)
    requires |rows| == 3
    ensures Written(rows) == rows[0].text + Mark(rows[0].ending) + (rows[1].text + Mark(rows[1].ending))
                             + (rows[2].text + Mark(rows[2].ending))
  {
    assert rows[..2][..1] == rows[..1] && rows[..1][..0] == [];
    assert Written(rows[..1]) == rows[0].text + Mark(rows[0].ending);
    assert Written(rows[..2]) == Written(rows[..1]) + (rows[1].text + Mark(rows[1].ending));
  }
}
