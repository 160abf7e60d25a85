/** Two independent decoders of a server-sent event stream: the TypeScript client, which
    cuts a growing buffer at blank lines, and the Python client, which goes line by line.
    Payloads are compared as text; turning them into JSON is the same step in both. */
module EventDecoders {
  import opened Wrappers
  import opened Collections

  datatype Event = Event(id: Option<string>, kind: string, data: string)

  /** What has been read of an event so far. */
  datatype Partial = Partial(id: Option<string>, kind: string, data: seq<string>)

  const START: Partial := Partial(None, "message", [])

  function Join(parts: seq<string>): (text: string)
  {
    if parts == [] then "" else if |parts| == 1 then parts[0] else parts[0] + "\n" + Join(parts[1..])
  }

  function Emit(p: Partial): (events: seq<Event>)
  {
    if p.data == [] then [] else [Event(p.id, p.kind, Join(p.data))]
  }

  function Unspaced(value: string): (trimmed: string)
  {
    if value != "" && value[0] == ' ' then value[1..] else value
  }

  /** One line of an event. A comment, a blank line and an unknown field change nothing. */
  function Field(p: Partial, line: string): (next: Partial)
  {
    var colon := IndexOf(line, ':');
    var name := line[..colon];
    var value := if colon < |line| then Unspaced(line[colon + 1..]) else "";
    if name == "id" then p.(id := Some(value))
    else if name == "event" then p.(kind := value)
    else if name == "data" then p.(data := p.data + [value])
    else p
  }

  function Fields(p: Partial, lines: seq<string>): (next: Partial)
    decreases |lines|
  {
    if lines == [] then p else Fields(Field(p, lines[0]), lines[1..])
  }

  /** The pieces of `text` between newlines. */
  function Split(text: string): (lines: seq<string>)
    ensures lines != []
    decreases |text|
  {
    var at := IndexOf(text, '\n');
    if at < |text| then [text[..at]] + Split(text[at + 1..]) else [text]
  }

  // ---------------------------------------------------------------- by blocks

  function DecodeBlock(block: string): (events: seq<Event>)
  {
    Emit(Fields(START, Split(block)))
  }

  predicate BoundaryAt(text: string, i: int)
  {
    0 <= i < |text| - 1 && text[i] == '\n' && text[i + 1] == '\n'
  }

  /** Where the first blank line begins, if there is one. */
  function FirstBoundary(text: string): (at: Option<nat>)
    ensures at.Some? ==> BoundaryAt(text, at.value) && forall i :: 0 <= i < at.value ==> !BoundaryAt(text, i)
    ensures at.None? ==> forall i :: !BoundaryAt(text, i)
  {
    if |text| < 2 then None
    else if BoundaryAt(text, 0) then Some(0)
    else
      var rest := FirstBoundary(text[1..]);
      assert forall i :: 0 < i ==> BoundaryAt(text, i) == BoundaryAt(text[1..], i - 1);
      match rest case Some(n) => Some(n + 1) case None => None
  }

  /** The events of a whole text, block by block. */
  function ByBlocks(text: string): (events: seq<Event>)
    decreases |text|
  {
    match FirstBoundary(text)
    case Some(at) => DecodeBlock(text[..at]) + ByBlocks(text[at + 2..])
    case None => DecodeBlock(text)
  }

  // ---------------------------------------------------------------- by lines

  /** The events of a list of lines; a blank line ends an event. */
  function ByLines(lines: seq<string>, p: Partial): (events: seq<Event>)
    decreases |lines|
  {
    if lines == [] then Emit(p)
    else if lines[0] == "" then Emit(p) + ByLines(lines[1..], START)
    else ByLines(lines[1..], Field(p, lines[0]))
  }

  predicate NoBlank(lines: seq<string>)
  {
    forall i :: 0 <= i < |lines| ==> lines[i] != ""
  }

  lemma BlankChangesNothing(p: Partial)
    ensures Field(p, "") == p
  {
  }

  /** Lines up to a blank one are one block. */
  lemma {:induction false} BlockThenRest(lines: seq<string>, rest: seq<string>, p: Partial)
    requires NoBlank(lines)
    ensures ByLines(lines + [""] + rest, p) == Emit(Fields(p, lines)) + ByLines(rest, START)
    ensures ByLines(lines, p) == Emit(Fields(p, lines))
    decreases |lines|
  {
    if lines == [] {
      assert lines + [""] + rest == [""] + rest;
    } else {
      assert (lines + [""] + rest)[1..] == lines[1..] + [""] + rest;
      BlockThenRest(lines[1..], rest, Field(p, lines[0]));
    }
  }

  // ---------------------------------------------------------------- splitting

  /** The first line, and the lines after it. */
  lemma SplitFirst(text: string)
    ensures var at := IndexOf(text, '\n');
            Split(text) == if at < |text| then [text[..at]] + Split(text[at + 1..]) else [text]
  {
    hide IndexOf;
  }

  lemma {:induction false} SplitJoined(a: string, b: string)
    ensures Split(a + "\n" + b) == Split(a) + Split(b)
    decreases |a|
  {
    hide IndexOf, Split;
    SplitFirst(a);
    SplitFirst(a + "\n" + b);
    var whole := a + "\n" + b;
    var at := IndexOf(a, '\n');
    assert forall i :: 0 <= i < at ==> whole[i] == a[i];
    FirstNewline(whole, at);
    if at < |a| {
      assert whole[..at] == a[..at] && whole[at + 1..] == a[at + 1..] + "\n" + b;
      SplitJoined(a[at + 1..], b);
    } else {
      assert whole[..at] == a && whole[at + 1..] == b;
    }
  }

  lemma FirstNewline(text: string, at: nat)
    requires at < |text| && text[at] == '\n' && forall i :: 0 <= i < at ==> text[i] != '\n'
    ensures IndexOf(text, '\n') == at
  {
    hide IndexOf;
    var found := IndexOf(text, '\n');
    assert found <= at && at <= found;
  }

  ghost predicate NoBoundary(text: string)
  {
    forall i :: !BoundaryAt(text, i)
  }

  lemma NoBoundaryPart(text: string, from: nat, end: nat)
    requires NoBoundary(text) && from <= end <= |text|
    ensures NoBoundary(text[from..end])
  {
    forall i ensures !BoundaryAt(text[from..end], i) {
      assert !BoundaryAt(text, from + i);
    }
  }

  /** Without a boundary only the first and the last line can be blank. */
  lemma {:induction false} InnerNotBlank(text: string, k: nat)
    requires NoBoundary(text) && 0 < k < |Split(text)| - 1
    ensures Split(text)[k] != ""
    decreases |text|
  {
    hide IndexOf, Split;
    SplitFirst(text);
    var at := IndexOf(text, '\n');
    var rest := text[at + 1..];
    SplitFirst(rest);
    NoBoundaryPart(text, at + 1, |text|);
    assert text[at + 1..|text|] == rest;
    if k == 1 {
      assert !BoundaryAt(text, at);
    } else {
      InnerNotBlank(rest, k - 1);
    }
  }

  lemma {:induction false} LastBlankIff(text: string)
    ensures Split(text)[|Split(text)| - 1] == "" <==> text == "" || text[|text| - 1] == '\n'
    decreases |text|
  {
    hide IndexOf, Split;
    SplitFirst(text);
    var at := IndexOf(text, '\n');
    if at < |text| {
      var rest := text[at + 1..];
      LastBlankIff(rest);
      assert rest != "" ==> text[|text| - 1] == rest[|rest| - 1];
    }
  }

  lemma {:induction false} FieldsAppend(p: Partial, lines: seq<string>, line: string)
    ensures Fields(p, lines + [line]) == Field(Fields(p, lines), line)
    decreases |lines|
  {
    if lines == [] {
      assert lines + [line] == [line];
      assert [line][1..] == [];
    } else {
      assert (lines + [line])[1..] == lines[1..] + [line];
      FieldsAppend(Field(p, lines[0]), lines[1..], line);
    }
  }

  // ---------------------------------------------------------------- agreement

  /** The same lines with a leading blank one dropped: it changes neither reading. */
  function Trimmed(lines: seq<string>): (trimmed: seq<string>)
    requires lines != []
  {
    if lines[0] == "" then lines[1..] else lines
  }

  lemma LeadingBlank(lines: seq<string>, rest: seq<string>)
    requires lines != []
    ensures ByLines(lines + rest, START) == ByLines(Trimmed(lines) + rest, START)
    ensures Fields(START, lines) == Fields(START, Trimmed(lines))
  {
    if lines[0] == "" {
      BlankChangesNothing(START);
      assert (lines + rest)[1..] == lines[1..] + rest;
    }
  }

  lemma TrimmedNotBlank(block: string)
    requires NoBoundary(block) && (block == "" || block[|block| - 1] != '\n')
    ensures NoBlank(Trimmed(Split(block)))
  {
    hide Split, NoBoundary;
    var lines := Split(block);
    LastBlankIff(block);
    forall k | 0 < k < |lines| - 1 ensures lines[k] != "" {
      InnerNotBlank(block, k);
    }
    if block == "" {
      SplitNothing();
    }
    var trimmed := Trimmed(lines);
    forall i | 0 <= i < |trimmed| ensures trimmed[i] != "" {
      assert trimmed[i] == if lines[0] == "" then lines[i + 1] else lines[i];
    }
  }

  lemma OneBlock(block: string, rest: seq<string>)
    requires NoBoundary(block) && (block == "" || block[|block| - 1] != '\n')
    ensures ByLines(Split(block) + [""] + rest, START) == DecodeBlock(block) + ByLines(rest, START)
    ensures ByLines(Split(block), START) == DecodeBlock(block)
  {
    hide Split, ByLines, Fields, NoBlank, NoBoundary;
    var lines := Split(block);
    TrimmedNotBlank(block);
    BlockThenRest(Trimmed(lines), rest, START);
    LeadingBlank(lines, [""] + rest);
    LeadingBlank(lines, []);
    assert lines + ([""] + rest) == lines + [""] + rest;
    assert Trimmed(lines) + ([""] + rest) == Trimmed(lines) + [""] + rest;
    assert lines + [] == lines && Trimmed(lines) + [] == Trimmed(lines);
  }

  /** What is left in the buffer at the end of the stream. */
  lemma LastBlock(block: string)
    requires NoBoundary(block)
    ensures ByLines(Split(block), START) == DecodeBlock(block)
  {
    if block == "" || block[|block| - 1] != '\n' {
      OneBlock(block, []);
    } else {
      var n := |block| - 1;
      var shorter := block[..n];
      assert block[0..n] == shorter;
      NoBoundaryPart(block, 0, n);
      assert n > 0 ==> !BoundaryAt(block, n - 1);
      assert block == shorter + "\n" + "";
      SplitJoined(shorter, "");
      OneBlock(shorter, []);
      FieldsAppend(START, Split(shorter), "");
      BlankChangesNothing(Fields(START, Split(shorter)));
      assert Split(shorter) + [""] + [] == Split(shorter) + [""];
    }
  }

  lemma SplitNothing()
    ensures Split("") == [""]
  {
  }

  /** Cutting at blank lines and going line by line read the same events. */
  lemma {:induction false} BlocksAreLines(text: string)
    ensures ByBlocks(text) == ByLines(Split(text), START)
    decreases |text|
  {
    hide Split, ByLines, DecodeBlock;
    match FirstBoundary(text)
    case None => LastBlock(text);
    case Some(at) =>
      var block, rest := text[..at], text[at + 2..];
      assert text == block + "\n" + ("\n" + rest) && "\n" + rest == "" + "\n" + rest;
      SplitJoined(block, "\n" + rest);
      SplitJoined("", rest);
      SplitNothing();
      assert Split(text) == Split(block) + [""] + Split(rest);
      forall i ensures !BoundaryAt(block, i) {
        assert i < at ==> !BoundaryAt(text, i);
      }
      assert at > 0 ==> !BoundaryAt(text, at - 1);
      OneBlock(block, Split(rest));
      BlocksAreLines(rest);
  }

  // ---------------------------------------------------------------- the TypeScript client

  method DecodeEvent(block: string) returns (event: Option<Event>)
    ensures DecodeBlock(block) == match event case Some(e) => [e] case None => []
  {
    var id: Option<string>, kind, data: seq<string> := None, "message", [];
    var lines := Split(block);
    assert Fields(START, lines[..0]) == START;
    hide Split, Fields, Join, IndexOf;
    for i := 0 to |lines|
      invariant Partial(id, kind, data) == Fields(START, lines[..i])
    {
      var line := lines[i];
      assert lines[..i + 1] == lines[..i] + [line];
      FieldsAppend(START, lines[..i], line);
      var colon := IndexOf(line, ':');
      if line != "" && line[0] == ':' {
        assert colon == 0;
        continue;
      }
      assert colon == |line| ==> line[..colon] == line;
      var field := if colon == |line| then line else line[..colon];
      var value := if colon == |line| then "" else Unspaced(line[colon + 1..]);
      if field == "id" {
        id := Some(value);
      }
      if field == "event" {
        kind := value;
      }
      if field == "data" {
        data := data + [value];
      }
    }
    assert lines[..|lines|] == lines;
    event := if data == [] then None else Some(Event(id, kind, Join(data)));
  }

  /** Every carriage return and newline pair inside one chunk becomes a newline. */
  function Normal(chunk: string): (text: string)
  {
    if |chunk| < 2 then chunk
    else if chunk[0] == '\r' && chunk[1] == '\n' then "\n" + Normal(chunk[2..])
    else [chunk[0]] + Normal(chunk[1..])
  }

  /** The text a client that normalizes each chunk puts together. */
  function Received(chunks: seq<string>): (text: string)
  {
    if chunks == [] then "" else Normal(chunks[0]) + Received(chunks[1..])
  }

  /** A boundary already in the buffer is the first one whatever arrives later. */
  lemma BufferedBoundary(buffered: string, later: string)
    requires FirstBoundary(buffered).Some?
    ensures FirstBoundary(buffered + later) == FirstBoundary(buffered)
  {
    var at := FirstBoundary(buffered).value;
    assert BoundaryAt(buffered + later, at);
    forall i | 0 <= i < at ensures !BoundaryAt(buffered + later, i) {
      assert !BoundaryAt(buffered, i);
    }
  }

  lemma FirstBlock(text: string)
    requires FirstBoundary(text).Some?
    ensures var at := FirstBoundary(text).value;
            ByBlocks(text) == DecodeBlock(text[..at]) + ByBlocks(text[at + 2..])
  {
    hide FirstBoundary, DecodeBlock;
  }

  lemma TakeBlock(buffered: string, later: string)
    requires FirstBoundary(buffered).Some?
    ensures var at := FirstBoundary(buffered).value;
            ByBlocks(buffered + later) == DecodeBlock(buffered[..at]) + ByBlocks(buffered[at + 2..] + later)
  {
    hide FirstBoundary, DecodeBlock, ByBlocks;
    BufferedBoundary(buffered, later);
    FirstBlock(buffered + later);
    var at := FirstBoundary(buffered).value;
    assert (buffered + later)[..at] == buffered[..at];
    assert (buffered + later)[at + 2..] == buffered[at + 2..] + later;
  }

  /** Emit every block that is complete; what remains has no boundary. */
  method Drain(buffered: string, ghost later: string) returns (events: seq<Event>, left: string)
    ensures ByBlocks(buffered + later) == events + ByBlocks(left + later)
    ensures FirstBoundary(left).None?
  {
    hide ByBlocks, DecodeBlock;
    events, left := [], buffered;
    var boundary := FirstBoundary(left);
    while boundary.Some?
      invariant boundary == FirstBoundary(left)
      invariant ByBlocks(buffered + later) == events + ByBlocks(left + later)
      decreases |left|
    {
      TakeBlock(left, later);
      var decoded := DecodeEvent(left[..boundary.value]);
      left := left[boundary.value + 2..];
      if decoded.Some? {
        events := events + [decoded.value];
      }
      boundary := FirstBoundary(left);
    }
  }

  /** The events a client yields that reads chunks as they come: cutting the stream
      differently changes nothing. */
  method ChunkedEvents(chunks: seq<string>) returns (events: seq<Event>)
    ensures events == ByBlocks(Received(chunks))
  {
    hide ByBlocks, DecodeBlock;
    events := [];
    var buffered := "";
    assert buffered + Received(chunks[0..]) == Received(chunks) by {
      assert chunks[0..] == chunks;
    }
    for i := 0 to |chunks|
      invariant ByBlocks(Received(chunks)) == events + ByBlocks(buffered + Received(chunks[i..]))
      invariant FirstBoundary(buffered).None?
    {
      assert chunks[i..][1..] == chunks[i + 1..];
      var longer := buffered + Normal(chunks[i]);
      assert buffered + Received(chunks[i..]) == longer + Received(chunks[i + 1..]);
      var more, left := Drain(longer, Received(chunks[i + 1..]));
      events, buffered := events + more, left;
    }
    LastOfBlocks(buffered);
    assert buffered + Received(chunks[|chunks|..]) == buffered;
    var last := DecodeEvent(buffered);
    if last.Some? {
      events := events + [last.value];
    }
  }

  lemma LastOfBlocks(buffered: string)
    requires FirstBoundary(buffered).None?
    ensures ByBlocks(buffered) == DecodeBlock(buffered)
  {
  }

  // ---------------------------------------------------------------- the Python client

  /** The lines of a response as they are iterated, each with its newline. */
  function RawLines(text: string): (lines: seq<string>)
    decreases |text|
  {
    var at := IndexOf(text, '\n');
    if text == "" then []
    else if at < |text| then [text[..at + 1]] + RawLines(text[at + 1..])
    else [text]
  }

  function Stripped(line: string): (text: string)
  {
    if line != "" && (line[|line| - 1] == '\r' || line[|line| - 1] == '\n') then Stripped(line[..|line| - 1]) else line
  }

  function AllStripped(lines: seq<string>): (texts: seq<string>)
    ensures |texts| == |lines|
  {
    seq(|lines|, i requires 0 <= i < |lines| => Stripped(lines[i]))
  }

  method LineEvents(raw: seq<string>) returns (events: seq<Event>)
    ensures events == ByLines(AllStripped(raw), START)
  {
    hide Emit;
    ghost var lines := AllStripped(raw);
    var id: Option<string>, kind, data: seq<string> := None, "message", [];
    events := [];
    assert lines[0..] == lines;
    for i := 0 to |raw|
      invariant ByLines(lines, START) == events + ByLines(lines[i..], Partial(id, kind, data))
    {
      var line := Stripped(raw[i]);
      assert lines[i..][0] == line && lines[i..][1..] == lines[i + 1..];
      if line == "" {
        var out := Emit(Partial(id, kind, data));
        events := events + out;
        id, kind, data := None, "message", [];
        continue;
      }
      if line[0] == ':' {
        continue;
      }
      var colon := IndexOf(line, ':');
      var field := line[..colon];
      var value := if colon < |line| then Unspaced(line[colon + 1..]) else "";
      if field == "id" {
        id := Some(value);
      } else if field == "event" {
        kind := value;
      } else if field == "data" {
        data := data + [value];
      }
    }
    events := events + Emit(Partial(id, kind, data));
  }

  // ---------------------------------------------------------------- the theorem

  lemma {:induction false} StripsNothing(line: string)
    requires '\r' !in line && '\n' !in line
    ensures Stripped(line) == line && Stripped(line + "\n") == line
  {
    assert (line + "\n")[..|line|] == line;
  }

  lemma StripFirst(first: string, rest: seq<string>)
    ensures AllStripped([first] + rest) == [Stripped(first)] + AllStripped(rest)
  {
    hide Stripped;
  }

  /** Iterating lines and splitting differ by a last blank line at most. */
  lemma {:induction false} RawLinesSplit(text: string)
    requires '\r' !in text
    ensures Split(text) == AllStripped(RawLines(text)) + (if text == "" || text[|text| - 1] == '\n' then [""] else [])
    decreases |text|
  {
    hide IndexOf, Stripped, AllStripped;
    var at := IndexOf(text, '\n');
    if at < |text| {
      var line, rest := text[..at], text[at + 1..];
      RawLinesSplit(rest);
      assert '\n' !in line;
      StripsNothing(line);
      assert text[..at + 1] == line + "\n";
      StripFirst(line + "\n", RawLines(rest));
      assert rest == "" || text[|text| - 1] == rest[|rest| - 1];
    } else if text != "" {
      StripsNothing(text);
      StripFirst(text, []);
      assert [text] + [] == [text];
    }
  }

  lemma {:induction false} LastBlankIgnored(lines: seq<string>, p: Partial)
    ensures ByLines(lines + [""], p) == ByLines(lines, p)
    decreases |lines|
  {
    if lines == [] {
      assert lines + [""] == [""] && [""][1..] == [];
    } else {
      assert (lines + [""])[1..] == lines[1..] + [""];
      LastBlankIgnored(lines[1..], if lines[0] == "" then START else Field(p, lines[0]));
    }
  }

  function Concat(chunks: seq<string>): (text: string)
  {
    if chunks == [] then "" else chunks[0] + Concat(chunks[1..])
  }

  lemma {:induction false} NormalPlain(chunk: string)
    requires '\r' !in chunk
    ensures Normal(chunk) == chunk
    decreases |chunk|
  {
    if |chunk| >= 2 {
      NormalPlain(chunk[1..]);
    }
  }

  lemma {:induction false} ReceivedPlain(chunks: seq<string>)
    requires forall c :: c in chunks ==> '\r' !in c
    ensures Received(chunks) == Concat(chunks) && '\r' !in Concat(chunks)
    decreases |chunks|
  {
    if chunks != [] {
      NormalPlain(chunks[0]);
      ReceivedPlain(chunks[1..]);
    }
  }

  /** For every stream without carriage returns and every way of cutting it into chunks,
      the block decoder and the line decoder yield the same events. */
  lemma DecodersAgree(chunks: seq<string>)
    requires forall c :: c in chunks ==> '\r' !in c
    ensures ByBlocks(Received(chunks)) == ByLines(AllStripped(RawLines(Concat(chunks))), START)
  {
    hide ByBlocks, ByLines, Split, RawLines, AllStripped, Received;
    ReceivedPlain(chunks);
    var text := Concat(chunks);
    BlocksAreLines(text);
    RawLinesSplit(text);
    LastBlankIgnored(AllStripped(RawLines(text)), START);
    assert AllStripped(RawLines(text)) + [] == AllStripped(RawLines(text));
  }
}
