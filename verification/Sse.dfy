/** Log streaming as server-sent events: the Go printer and the incremental JavaScript reader. */
module Sse {

  /** A line, chunk or message is a value of its own, so that lists of texts are not lists of lists. */
  datatype Text = Text(chars: string)

  predicate IsBreak(c: char) {
    c == '\r' || c == '\n'
  }

  predicate Plain(line: string) {
    forall i :: 0 <= i < |line| ==> !IsBreak(line[i])
  }

  ghost predicate BreaksAt(text: string, i: nat) {
    i <= |text| && Plain(text[..i]) && (i < |text| ==> IsBreak(text[i]))
  }

  lemma {:induction false} SomeBreak(text: string, n: nat) returns (i: nat)
    requires n <= |text| && Plain(text[..n])
    ensures BreaksAt(text, i)
    decreases |text| - n
  {
    if n == |text| || IsBreak(text[n]) {
      i := n;
    } else {
      assert text[..n + 1] == text[..n] + [text[n]];
      i := SomeBreak(text, n + 1);
    }
  }

  /** Index of the first line break, or the length of the text. */
  ghost function FirstBreak(text: string): (i: nat)
    ensures BreaksAt(text, i)
  {
    assert exists i :: BreaksAt(text, i) by {
      var i := SomeBreak(text, 0);
    }
    var i: nat :| BreaksAt(text, i);
    i
  }

  lemma FirstBreakAt(text: string, i: nat)
    requires i < |text| && Plain(text[..i]) && IsBreak(text[i])
    ensures FirstBreak(text) == i
  {
    var j := FirstBreak(text);
    assert forall k :: 0 <= k < i ==> text[..i][k] == text[k] && !IsBreak(text[k]);
    assert forall k :: 0 <= k < j ==> text[..j][k] == text[k] && !IsBreak(text[k]);
  }

  // ---- the printer ------------------------------------------------------------------------

  function PrintedLine(line: string): string {
    "data: " + line + "\n\n"
  }

  function Printed(lines: seq<Text>): string {
    if lines == [] then "" else Printed(lines[..|lines| - 1]) + PrintedLine(lines[|lines| - 1].chars)
  }

  /** The scanner loop: one event per line, stopping at the first failed write. */
  method PrintLines(lines: seq<Text>, writable: nat) returns (out: string)
    ensures out == Printed(if writable < |lines| then lines[..writable] else lines)
  {
    out := "";
    for i := 0 to |lines|
      invariant i <= writable && out == Printed(lines[..i])
    {
      if i >= writable {
        return;
      }
      assert lines[..i + 1][..i] == lines[..i];
      assert out + PrintedLine(lines[i].chars) == out + "data: " + lines[i].chars + "\n\n";
      out := out + "data: " + lines[i].chars + "\n\n";
    }
    assert lines[..|lines|] == lines;
  }

  // ---- one line of the stream -----------------------------------------------------------------

  /** The event under construction and the messages delivered so far. */
  datatype Parse = Parse(data: seq<Text>, event: string, messages: seq<Text>)

  const EMPTY := Parse([], "", [])

  function Colon(value: string): (i: nat)
    ensures i <= |value| && (i < |value| ==> value[i] == ':') && ':' !in value[..i]
  {
    if value == "" || value[0] == ':' then 0
    else
      var i := 1 + Colon(value[1..]);
      assert value[..i] == [value[0]] + value[1..][..i - 1];
      i
  }

  function JoinData(data: seq<Text>): string {
    if data == [] then ""
    else if |data| == 1 then data[0].chars
    else JoinData(data[..|data| - 1]) + "\n" + data[|data| - 1].chars
  }

  function FieldOf(value: string): string {
    value[..Colon(value)]
  }

  function ContentOf(value: string): string {
    var raw := if Colon(value) == |value| then "" else value[Colon(value) + 1..];
    if raw != "" && raw[0] == ' ' then raw[1..] else raw
  }

  predicate Deliverable(p: Parse) {
    p.data != [] && (p.event == "" || p.event == "message")
  }

  /** The effect of one complete line. */
  function AfterLine(p: Parse, value: string): Parse {
    if value == "" then
      Parse([], "", if Deliverable(p) then p.messages + [Text(JoinData(p.data))] else p.messages)
    else
      p.(data := if FieldOf(value) == "data" then p.data + [Text(ContentOf(value))] else p.data,
         event := if FieldOf(value) == "event" then ContentOf(value) else p.event)
  }

  // ---- the lines of a text ---------------------------------------------------------------------------

  /** The break at i cannot be judged yet: a CR at the very end may be half of a CRLF. */
  predicate Undecided(text: string, i: nat, final: bool)
    requires i < |text|
  {
    text[i] == '\r' && i == |text| - 1 && !final
  }

  /** Where the next line starts after the break at i. */
  function NextLine(text: string, i: nat): (k: nat)
    requires i < |text|
    ensures i < k <= |text|
  {
    if text[i] == '\r' && i + 1 < |text| && text[i + 1] == '\n' then i + 2 else i + 1
  }

  ghost predicate HasLine(text: string, final: bool) {
    FirstBreak(text) < |text| && !Undecided(text, FirstBreak(text), final)
  }

  /** The complete lines of a text. */
  ghost function Lines(text: string, final: bool): seq<Text>
    decreases |text|
  {
    if !HasLine(text, final) then []
    else [Text(text[..FirstBreak(text)])] + Lines(text[NextLine(text, FirstBreak(text))..], final)
  }

  /** What is left after the complete lines. */
  ghost function Leftover(text: string, final: bool): string
    decreases |text|
  {
    if !HasLine(text, final) then text
    else Leftover(text[NextLine(text, FirstBreak(text))..], final)
  }

  function AfterLines(p: Parse, lines: seq<Text>): Parse {
    if lines == [] then p else AfterLine(AfterLines(p, lines[..|lines| - 1]), lines[|lines| - 1].chars)
  }

  /** What a whole stream means, independently of how it arrives. */
  ghost function Messages(text: string): seq<Text> {
    AfterLines(EMPTY, Lines(text, true)).messages
  }

  function Concat(chunks: seq<Text>): string {
    if chunks == [] then "" else chunks[0].chars + Concat(chunks[1..])
  }

  lemma LineAt(text: string, i: nat, final: bool, next: string)
    requires i < |text| && Plain(text[..i]) && IsBreak(text[i]) && !Undecided(text, i, final)
    requires next == text[NextLine(text, i)..]
    ensures Lines(text, final) == [Text(text[..i])] + Lines(next, final)
    ensures Leftover(text, final) == Leftover(next, final)
  {
    FirstBreakAt(text, i);
  }

  lemma {:induction false} AfterLinesConcat(p: Parse, a: seq<Text>, b: seq<Text>)
    ensures AfterLines(p, a + b) == AfterLines(AfterLines(p, a), b)
  {
    if b == [] {
      assert a + b == a;
    } else {
      var n := |b| - 1;
      assert (a + b)[..|a + b| - 1] == a + b[..n];
      AfterLinesConcat(p, a, b[..n]);
    }
  }

  // ---- the reader ----------------------------------------------------------------------------------------

  class Reader {
    var buffer: string
    var data: seq<Text>
    var event: string
    var messages: seq<Text>

    constructor ()
      ensures View() == EMPTY && buffer == ""
    {
      buffer, data, event, messages := "", [], "", [];
    }

    function View(): Parse
      reads this
    {
      Parse(data, event, messages)
    }

    method Line(value: string)
      modifies this`data, this`event, this`messages
      ensures View() == AfterLine(old(View()), value)
    {
      if value == "" {
        if |data| > 0 && (event == "" || event == "message") {
          messages := messages + [Text(JoinData(data))];
        }
        data, event := [], "";
        return;
      }
      var colon := Colon(value);
      var field := value[..colon];
      var content := if colon == |value| then "" else value[colon + 1..];
      if content != "" && content[0] == ' ' {
        content := content[1..];
      }
      if field == "data" {
        data := data + [Text(content)];
      }
      if field == "event" {
        event := content;
      }
    }

    /** Hand over the line that ends at the break at i. */
    method HandOver(start: nat, i: nat, ghost final: bool, ghost before: seq<Text>, ghost begin: Parse)
      returns (ghost seen: seq<Text>)
      requires start <= i < |buffer| && Plain(buffer[start..i])
      requires IsBreak(buffer[i]) && !Undecided(buffer, i, final)
      requires View() == AfterLines(begin, before) && AtLine(buffer, final, start, before)
      modifies this`data, this`event, this`messages
      ensures View() == AfterLines(begin, seen) && AtLine(buffer, final, NextLine(buffer, i), seen)
    {
      seen := before + [Text(buffer[start..i])];
      LineFound(buffer, start, i, final, before);
      LineDone(begin, before, Text(buffer[start..i]));
      Line(buffer[start..i]);
    }

    /** Scan the buffer once, hand over its complete lines and keep the rest. */
    method Drain(final: bool)
      modifies this
      ensures View() == AfterLines(old(View()), Lines(old(buffer), final))
      ensures buffer == Leftover(old(buffer), final)
    {
      ghost var text := buffer;
      ghost var seen: seq<Text> := [];
      var start, i := 0, 0;
      AtStart(text, final);
      while i < |buffer|
        invariant 0 <= start <= i <= |buffer| && buffer == text
        invariant Plain(text[start..i])
        invariant View() == AfterLines(old(View()), seen)
        invariant AtLine(text, final, start, seen)
        decreases |buffer| - i
      {
        if buffer[i] == '\r' || buffer[i] == '\n' {
          if buffer[i] == '\r' && i == |buffer| - 1 && !final {
            break;
          }
          ghost var next := NextLine(text, i);
          seen := HandOver(start, i, final, seen, old(View()));
          if buffer[i] == '\r' && i + 1 < |buffer| && buffer[i + 1] == '\n' {
            i := i + 1;
          }
          start := i + 1;
          assert start == next;
        } else {
          PlainExtend(text, start, i);
        }
        i := i + 1;
      }
      NoMoreLines(text, start, i, final, seen);
      buffer := buffer[start..];
    }

    /** Read all chunks; the end of the stream is drained as final and an unfinished event is dropped. */
    method ReadAll(chunks: seq<Text>)
      requires buffer == "" && View() == EMPTY
      modifies this
      ensures messages == Messages(Concat(chunks))
      ensures View() == ReadChunks(EMPTY, "", chunks)
    {
      ghost var whole := Concat(chunks);
      ghost var rest := whole;
      ghost var seen: seq<Text> := [];
      assert chunks[0..] == chunks;
      assert buffer + rest == whole;
      for k := 0 to |chunks|
        invariant rest == Concat(chunks[k..])
        invariant View() == AfterLines(EMPTY, seen)
        invariant Lines(whole, true) == seen + Lines(buffer + rest, true)
      {
        assert chunks[k..][1..] == chunks[k + 1..];
        ghost var later := Concat(chunks[k + 1..]);
        assert buffer + rest == (buffer + chunks[k].chars) + later;
        buffer := buffer + chunks[k].chars;
        ghost var text := buffer;
        LinesInTwo(text, later, text + later, true);
        AfterLinesConcat(EMPTY, seen, Lines(text, false));
        Reassociate(seen, Lines(text, false), Lines(Leftover(text, false) + later, true));
        Drain(false);
        seen, rest := seen + Lines(text, false), later;
      }
      assert buffer + rest == buffer;
      AfterLinesConcat(EMPTY, seen, Lines(buffer, true));
      Drain(true);
      ChunkingIrrelevant(EMPTY, "", chunks);
      assert "" + whole == whole;
    }
  }

  lemma LineDone(p: Parse, seen: seq<Text>, line: Text)
    ensures AfterLines(p, seen + [line]) == AfterLine(AfterLines(p, seen), line.chars)
  {
    assert (seen + [line])[..|seen|] == seen;
  }

  /** The scan stands at the start of a line, having seen the lines before it. */
  ghost predicate AtLine(text: string, final: bool, start: nat, seen: seq<Text>) {
    && start <= |text|
    && Lines(text, final) == seen + Lines(text[start..], final)
    && Leftover(text, final) == Leftover(text[start..], final)
  }

  lemma PlainExtend(text: string, start: nat, i: nat)
    requires start <= i < |text| && Plain(text[start..i]) && !IsBreak(text[i])
    ensures Plain(text[start..i + 1])
  {
    assert text[start..i + 1] == text[start..i] + [text[i]];
  }

  lemma AtStart(text: string, final: bool)
    ensures AtLine(text, final, 0, [])
  {
    assert text[0..] == text;
    assert [] + Lines(text, final) == Lines(text, final);
  }

  lemma LineFound(text: string, start: nat, i: nat, final: bool, seen: seq<Text>)
    requires start <= i < |text| && Plain(text[start..i])
    requires IsBreak(text[i]) && !Undecided(text, i, final)
    requires AtLine(text, final, start, seen)
    ensures AtLine(text, final, NextLine(text, i), seen + [Text(text[start..i])])
  {
    var rest, next := text[start..], text[NextLine(text, i)..];
    assert rest[..i - start] == text[start..i];
    assert next == rest[NextLine(rest, i - start)..];
    LineAt(rest, i - start, final, next);
    Reassociate(seen, [Text(text[start..i])], Lines(next, final));
  }

  lemma NoMoreLines(text: string, start: nat, i: nat, final: bool, seen: seq<Text>)
    requires start <= i <= |text| && Plain(text[start..i])
    requires i < |text| ==> text[i] == '\r' && i == |text| - 1 && !final
    requires AtLine(text, final, start, seen)
    ensures Lines(text, final) == seen && Leftover(text, final) == text[start..]
  {
    var rest := text[start..];
    assert rest[..i - start] == text[start..i];
    if i < |text| {
      FirstBreakAt(rest, i - start);
    } else {
      assert rest[..i - start] == rest;
    }
    assert seen + [] == seen;
  }

  // ---- chunking does not matter --------------------------------------------------------------------

  /** The lines of a prefix, then those of its remainder with the rest, are the lines of the whole text. */
  lemma {:induction false} LinesInTwo(a: string, b: string, ab: string, final: bool)
    requires ab == a + b
    ensures Lines(ab, final) == Lines(a, false) + Lines(Leftover(a, false) + b, final)
    decreases |a|
  {
    if HasLine(a, false) {
      var i := FirstBreak(a);
      var k := NextLine(a, i);
      assert ab[..i] == a[..i];
      assert NextLine(ab, i) == k;
      assert ab[k..] == a[k..] + b;
      LineAt(ab, i, final, ab[k..]);
      LinesInTwo(a[k..], b, ab[k..], final);
      Reassociate([Text(a[..i])], Lines(a[k..], false), Lines(Leftover(a, false) + b, final));
    }
  }

  lemma Reassociate(a: seq<Text>, b: seq<Text>, c: seq<Text>)
    ensures a + (b + c) == (a + b) + c
  {
  }

  /** The state ReadAll reaches, as a fold over the chunks. */
  ghost function ReadChunks(p: Parse, buffer: string, chunks: seq<Text>): Parse
    decreases |chunks|
  {
    if chunks == [] then AfterLines(p, Lines(buffer, true))
    else
      var text := buffer + chunks[0].chars;
      ReadChunks(AfterLines(p, Lines(text, false)), Leftover(text, false), chunks[1..])
  }

  /** However a stream is cut into chunks, the reader sees the same lines. */
  lemma {:induction false} ChunkingIrrelevant(p: Parse, buffer: string, chunks: seq<Text>)
    ensures ReadChunks(p, buffer, chunks) == AfterLines(p, Lines(buffer + Concat(chunks), true))
    decreases |chunks|
  {
    if chunks == [] {
      assert buffer + Concat(chunks) == buffer;
    } else {
      var text, later := buffer + chunks[0].chars, Concat(chunks[1..]);
      assert buffer + Concat(chunks) == text + later;
      LinesInTwo(text, later, text + later, true);
      AfterLinesConcat(p, Lines(text, false), Lines(Leftover(text, false) + later, true));
      ChunkingIrrelevant(AfterLines(p, Lines(text, false)), Leftover(text, false), chunks[1..]);
    }
  }
}
