/** What event streams mean, from the sending side: the text of a stream of events, and that
    both decoders read those very events back, however the stream is cut and whichever way
    its lines end. Nothing here refers to how a decoder reads a field. */
module EventStreams {
  import opened Wrappers
  import opened Collections
  import opened EventDecoders

  /** An event to be sent: an id and a type if there are any, and the lines of its data. */
  datatype Wire = Wire(id: Option<string>, kind: Option<string>, data: seq<string>)

  predicate OneLine(text: string)
  {
    '\n' !in text && '\r' !in text
  }

  predicate Sendable(w: Wire)
  {
    && (w.id.Some? ==> OneLine(w.id.value)) && (w.kind.Some? ==> OneLine(w.kind.value))
    && forall d :: d in w.data ==> OneLine(d)
  }

  function Labelled(name: string, value: string): (line: string)
  {
    name + ": " + value
  }

  function DataLines(data: seq<string>): (lines: seq<string>)
  {
    if data == [] then [] else [Labelled("data", data[0])] + DataLines(data[1..])
  }

  function EventLines(w: Wire): (lines: seq<string>)
  {
    (if w.id.Some? then [Labelled("id", w.id.value)] else [])
    + (if w.kind.Some? then [Labelled("event", w.kind.value)] else [])
    + DataLines(w.data)
  }

  /** Every line, each with its newline. */
  function Ended(lines: seq<string>): (text: string)
    ensures lines != [] ==> text != ""
  {
    if lines == [] then "" else lines[0] + "\n" + Ended(lines[1..])
  }

  /** The stream that sends these events: their lines, and a blank line after each. */
  function StreamOf(ws: seq<Wire>): (text: string)
  {
    if ws == [] then "" else Ended(EventLines(ws[0])) + "\n" + StreamOf(ws[1..])
  }

  /** The event a receiver should see: the type is `message` if none was sent, and the data
      are the lines with newlines between them. */
  function EventOf(w: Wire): (e: Event)
    requires w.data != []
  {
    var ended := Ended(w.data);
    Event(w.id, if w.kind.Some? then w.kind.value else "message", ended[..|ended| - 1])
  }

  /** The events a receiver should see; what has no data is no event. */
  function MeantBy(ws: seq<Wire>): (events: seq<Event>)
  {
    if ws == [] then []
    else (if ws[0].data == [] then [] else [EventOf(ws[0])]) + MeantBy(ws[1..])
  }

  // ---------------------------------------------------------------- single lines

  lemma ColonAt(name: string, rest: string)
    requires ':' !in name
    ensures IndexOf(name + ":" + rest, ':') == |name|
  {
    hide IndexOf;
    var line := name + ":" + rest;
    assert line[|name|] == ':' && forall i :: 0 <= i < |name| ==> line[i] == name[i];
    var at := IndexOf(line, ':');
    assert at <= |name| && |name| <= at;
  }

  /** A field is read back as it was written: the one space after the colon is dropped, and
      any further one belongs to the value. */
  lemma FieldReads(p: Partial, name: string, value: string)
    requires ':' !in name
    ensures Field(p, Labelled(name, value)) ==
            if name == "id" then p.(id := Some(value))
            else if name == "event" then p.(kind := value)
            else if name == "data" then p.(data := p.data + [value])
            else p
  {
    hide IndexOf;
    var line := Labelled(name, value);
    assert line == name + ":" + (" " + value);
    ColonAt(name, " " + value);
    assert line[..|name|] == name && line[|name| + 1..] == " " + value;
    assert (" " + value)[1..] == value;
  }

  /** The space may be left out, unless the value itself begins with one. */
  lemma SpaceIsOptional(p: Partial, name: string, value: string)
    requires ':' !in name && (value == "" || value[0] != ' ')
    ensures Field(p, name + ":" + value) == Field(p, Labelled(name, value))
  {
    hide IndexOf;
    FieldReads(p, name, value);
    var line := name + ":" + value;
    ColonAt(name, value);
    assert line[..|name|] == name && line[|name| + 1..] == value;
  }

  /** Comments and fields of other names change nothing, with a value or without. */
  lemma OthersIgnored(p: Partial, name: string, rest: string)
    requires ':' !in name && name != "id" && name != "event" && name != "data"
    ensures Field(p, name + ":" + rest) == p && Field(p, name) == p
    ensures Field(p, ":" + rest) == p
  {
    hide IndexOf;
    ColonAt(name, rest);
    ColonAt("", rest);
    assert (name + ":" + rest)[..|name|] == name && "" + ":" + rest == ":" + rest;
    assert IndexOf(name, ':') == |name|;
    assert name[..|name|] == name;
  }

  /** A field name alone is a field with an empty value. */
  lemma BareField(p: Partial)
    ensures Field(p, "data") == p.(data := p.data + [""])
    ensures Field(p, "id") == p.(id := Some("")) && Field(p, "event") == p.(kind := "")
  {
    hide IndexOf;
    assert IndexOf("data", ':') == 4 && IndexOf("id", ':') == 2 && IndexOf("event", ':') == 5;
    assert "data"[..4] == "data" && "id"[..2] == "id" && "event"[..5] == "event";
  }

  // ---------------------------------------------------------------- one event

  lemma {:induction false} FieldsConcat(p: Partial, a: seq<string>, b: seq<string>)
    ensures Fields(p, a + b) == Fields(Fields(p, a), b)
    decreases |a|
  {
    if a == [] {
      assert a + b == b;
    } else {
      assert (a + b)[1..] == a[1..] + b;
      FieldsConcat(Field(p, a[0]), a[1..], b);
    }
  }

  lemma FieldsFrom(p: Partial, line: string, rest: seq<string>)
    ensures Fields(p, [line] + rest) == Fields(Field(p, line), rest)
  {
    hide Field;
    assert ([line] + rest)[1..] == rest;
  }

  lemma {:induction false} DataReads(p: Partial, data: seq<string>)
    ensures Fields(p, DataLines(data)) == p.(data := p.data + data)
    decreases |data|
  {
    hide Field, Fields, Labelled;
    if data == [] {
      NoFields(p);
      assert p.data + data == p.data;
    } else {
      var first, rest := data[0], data[1..];
      FieldReads(p, "data", first);
      FieldsFrom(p, Labelled("data", first), DataLines(rest));
      DataReads(p.(data := p.data + [first]), rest);
      assert p.data + [first] + rest == p.data + data;
    }
  }

  lemma OneField(p: Partial, line: string)
    ensures Fields(p, [line]) == Field(p, line)
  {
    hide Field;
    assert [line][1..] == [];
  }

  lemma EventReads(w: Wire)
    ensures Fields(START, EventLines(w)) == Partial(w.id, if w.kind.Some? then w.kind.value else "message", w.data)
  {
    hide Field, Fields, DataLines, Labelled;
    var ids := if w.id.Some? then [Labelled("id", w.id.value)] else [];
    var kinds := if w.kind.Some? then [Labelled("event", w.kind.value)] else [];
    var p1 := START.(id := w.id);
    var p2 := p1.(kind := if w.kind.Some? then w.kind.value else "message");
    assert Fields(START, ids) == p1 by {
      if w.id.Some? {
        FieldReads(START, "id", w.id.value);
        OneField(START, ids[0]);
      } else {
        NoFields(START);
      }
    }
    assert Fields(p1, kinds) == p2 by {
      if w.kind.Some? {
        FieldReads(p1, "event", w.kind.value);
        OneField(p1, kinds[0]);
      } else {
        NoFields(p1);
      }
    }
    FieldsConcat(START, ids, kinds);
    FieldsConcat(START, ids + kinds, DataLines(w.data));
    DataReads(p2, w.data);
    assert [] + w.data == w.data;
  }

  lemma NoFields(p: Partial)
    ensures Fields(p, []) == p
  {
  }

  lemma {:induction false} JoinEnded(data: seq<string>)
    requires data != []
    ensures Join(data) + "\n" == Ended(data)
    decreases |data|
  {
    if |data| == 1 {
      assert data[1..] == [];
      assert data[0] + "\n" + "" == data[0] + "\n";
    } else {
      JoinEnded(data[1..]);
      assert data[0] + "\n" + Join(data[1..]) + "\n" == data[0] + "\n" + (Join(data[1..]) + "\n");
    }
  }

  lemma EmitsEvent(w: Wire)
    ensures Emit(Fields(START, EventLines(w))) == if w.data == [] then [] else [EventOf(w)]
  {
    hide Fields, EventLines, Ended, Join;
    EventReads(w);
    if w.data != [] {
      JoinEnded(w.data);
      assert Ended(w.data)[..|Ended(w.data)| - 1] == Join(w.data);
    }
  }

  // ---------------------------------------------------------------- lines of a stream

  predicate AllOneLine(lines: seq<string>)
  {
    forall l :: l in lines ==> OneLine(l)
  }

  lemma LabelledIsOneLine(name: string, value: string)
    requires OneLine(name) && OneLine(value)
    ensures OneLine(Labelled(name, value)) && Labelled(name, value) != ""
  {
  }

  lemma {:induction false} DataLinesAreLines(data: seq<string>)
    requires AllOneLine(data)
    ensures AllOneLine(DataLines(data)) && NoBlank(DataLines(data))
    decreases |data|
  {
    hide Labelled, OneLine;
    if data != [] {
      assert data[0] in data;
      assert OneLine("data") by { NamesAreLines(); }
      LabelledIsOneLine("data", data[0]);
      DataLinesAreLines(data[1..]);
    }
  }

  lemma NamesAreLines()
    ensures OneLine("id") && OneLine("event") && OneLine("data")
  {
  }

  lemma EventLinesAreLines(w: Wire)
    requires Sendable(w)
    ensures AllOneLine(EventLines(w)) && NoBlank(EventLines(w))
  {
    hide Labelled, DataLines, OneLine;
    NamesAreLines();
    if w.id.Some? {
      LabelledIsOneLine("id", w.id.value);
    }
    if w.kind.Some? {
      LabelledIsOneLine("event", w.kind.value);
    }
    DataLinesAreLines(w.data);
  }

  lemma SplitLine(line: string)
    requires '\n' !in line
    ensures Split(line) == [line]
  {
    hide IndexOf;
    assert IndexOf(line, '\n') == |line|;
  }

  lemma {:induction false} SplitEnded(lines: seq<string>, tail: string)
    requires AllOneLine(lines)
    ensures Split(Ended(lines) + tail) == lines + Split(tail)
    decreases |lines|
  {
    hide Split;
    if lines == [] {
      assert Ended(lines) + tail == tail && lines + Split(tail) == Split(tail);
    } else {
      var line, rest := lines[0], lines[1..];
      assert line in lines;
      SplitEnded(rest, tail);
      SplitLine(line);
      SplitJoined(line, Ended(rest) + tail);
      assert Ended(lines) + tail == line + "\n" + (Ended(rest) + tail);
      assert [line] + (rest + Split(tail)) == lines + Split(tail);
    }
  }

  lemma SplitBlank(tail: string)
    ensures Split("\n" + tail) == [""] + Split(tail)
  {
    hide Split;
    SplitJoined("", tail);
    SplitLine("");
    assert "" + "\n" + tail == "\n" + tail;
  }

  lemma StreamFrom(w: Wire, rest: string)
    requires Sendable(w)
    ensures ByLines(Split(Ended(EventLines(w)) + "\n" + rest), START)
         == (if w.data == [] then [] else [EventOf(w)]) + ByLines(Split(rest), START)
  {
    EventLinesAreLines(w);
    hide Split, Sendable, EventLines, Fields, Emit, ByLines, EventOf, Ended, AllOneLine, NoBlank;
    var lines := EventLines(w);
    SplitEnded(lines, "\n" + rest);
    SplitBlank(rest);
    assert Ended(lines) + "\n" + rest == Ended(lines) + ("\n" + rest);
    assert lines + ([""] + Split(rest)) == lines + [""] + Split(rest);
    BlockThenRest(lines, Split(rest), START);
    EmitsEvent(w);
  }

  /** By lines, a stream reads back as the events that were sent. */
  lemma {:induction false} LinesReadBack(ws: seq<Wire>)
    requires forall w :: w in ws ==> Sendable(w)
    ensures ByLines(Split(StreamOf(ws)), START) == MeantBy(ws)
    decreases |ws|
  {
    hide Split, Sendable, EventLines, ByLines, EventOf, Ended;
    if ws == [] {
      SplitLine("");
      NothingByLines();
    } else {
      assert ws[0] in ws;
      StreamFrom(ws[0], StreamOf(ws[1..]));
      LinesReadBack(ws[1..]);
    }
  }

  lemma NothingByLines()
    ensures ByLines([""], START) == []
  {
    assert [""][1..] == [];
  }

  lemma {:induction false} StreamIsPlain(ws: seq<Wire>)
    requires forall w :: w in ws ==> Sendable(w)
    ensures '\r' !in StreamOf(ws)
    decreases |ws|
  {
    hide Sendable, EventLines;
    if ws != [] {
      assert ws[0] in ws;
      EventLinesAreLines(ws[0]);
      EndedIsPlain(EventLines(ws[0]));
      StreamIsPlain(ws[1..]);
    }
  }

  lemma {:induction false} EndedIsPlain(lines: seq<string>)
    requires AllOneLine(lines)
    ensures '\r' !in Ended(lines)
    decreases |lines|
  {
    if lines != [] {
      assert lines[0] in lines;
      EndedIsPlain(lines[1..]);
    }
  }

  lemma {:induction false} ChunksOfPlain(chunks: seq<string>)
    requires '\r' !in Concat(chunks)
    ensures forall c :: c in chunks ==> '\r' !in c
    decreases |chunks|
  {
    if chunks != [] {
      ChunksOfPlain(chunks[1..]);
      assert forall c :: c in chunks[0] ==> c in Concat(chunks);
    }
  }

  /** The round trip. Whatever events are sent, with whatever ids, types and data lines, and
      however the stream is cut into chunks, both decoders yield exactly those events. */
  lemma StreamReadsBack(ws: seq<Wire>, chunks: seq<string>)
    requires (forall w :: w in ws ==> Sendable(w)) && Concat(chunks) == StreamOf(ws)
    ensures ByBlocks(Received(chunks)) == MeantBy(ws)
    ensures ByLines(AllStripped(RawLines(Concat(chunks))), START) == MeantBy(ws)
  {
    hide Sendable, Concat, StreamOf, MeantBy, ByBlocks, ByLines, Split, RawLines, AllStripped, Received;
    StreamIsPlain(ws);
    ChunksOfPlain(chunks);
    ReceivedPlain(chunks);
    BlocksAreLines(StreamOf(ws));
    LinesReadBack(ws);
    DecodersAgree(chunks);
  }

  // ---------------------------------------------------------------- carriage returns

  /** A character as it is sent where lines end in carriage return and newline. */
  function Sent(c: char): (text: string)
  {
    if c == '\n' then "\r\n" else [c]
  }

  /** The same text with a carriage return before every newline. */
  function Returned(text: string): (crlf: string)
  {
    if text == "" then "" else Sent(text[0]) + Returned(text[1..])
  }

  function AllReturned(chunks: seq<string>): (crlf: seq<string>)
  {
    if chunks == [] then [] else [Returned(chunks[0])] + AllReturned(chunks[1..])
  }

  lemma {:induction false} NormalOfReturned(text: string)
    requires '\r' !in text
    ensures Normal(Returned(text)) == text
    decreases |text|
  {
    if text != "" {
      var rest := text[1..];
      NormalOfReturned(rest);
      var crlf := Returned(text);
      assert text == [text[0]] + rest;
      if text[0] == '\n' {
        assert crlf[2..] == Returned(rest);
      } else {
        assert crlf[1..] == Returned(rest);
      }
    }
  }

  lemma ReturnedFirst(c: char, rest: string)
    ensures Returned([c] + rest) == Sent(c) + Returned(rest) && Returned("") == ""
  {
    hide Sent;
    assert ([c] + rest)[1..] == rest;
  }

  lemma {:induction false} ReturnedConcat(a: string, b: string)
    ensures Returned(a + b) == Returned(a) + Returned(b)
    decreases |a|
  {
    hide Returned, Sent;
    if a == "" {
      ReturnedFirst('a', "");
      assert a + b == b && "" + Returned(b) == Returned(b);
    } else {
      var c, rest := a[0], a[1..];
      assert a == [c] + rest && a + b == [c] + (rest + b);
      ReturnedFirst(c, rest);
      ReturnedFirst(c, rest + b);
      ReturnedConcat(rest, b);
      assert Sent(c) + (Returned(rest) + Returned(b)) == Sent(c) + Returned(rest) + Returned(b);
    }
  }

  lemma {:induction false} ReturnedLine(line: string)
    requires '\n' !in line
    ensures Returned(line) == line
    decreases |line|
  {
    if line != "" {
      ReturnedLine(line[1..]);
    }
  }

  lemma StripsReturn(line: string)
    requires OneLine(line)
    ensures Stripped(line + "\r\n") == line
  {
    StripsNothing(line);
    assert (line + "\r\n")[..|line| + 1] == line + "\r";
    assert (line + "\r")[..|line|] == line;
  }

  /** The first line of a text, with a carriage return or without. */
  lemma RawLinesFrom(line: string, rest: string)
    requires OneLine(line)
    ensures AllStripped(RawLines(line + "\n" + rest)) == [line] + AllStripped(RawLines(rest))
    ensures AllStripped(RawLines(line + "\r\n" + rest)) == [line] + AllStripped(RawLines(rest))
  {
    hide RawLines, Stripped, AllStripped;
    RawCut(line, rest);
    RawCut(line + "\r", rest);
    assert line + "\r" + "\n" == line + "\r\n";
    StripsNothing(line);
    StripsReturn(line);
    StripFirst(line + "\n", RawLines(rest));
    StripFirst(line + "\r\n", RawLines(rest));
  }

  /** Line by line, carriage returns at the end of lines make no difference. */
  lemma {:induction false} RawLinesReturned(text: string)
    requires '\r' !in text
    ensures AllStripped(RawLines(Returned(text))) == AllStripped(RawLines(text))
    decreases |text|
  {
    hide IndexOf, Stripped, AllStripped, RawLines, Returned;
    var at := IndexOf(text, '\n');
    if at < |text| {
      var line, rest := text[..at], text[at + 1..];
      assert OneLine(line) && text == line + "\n" + rest;
      ReturnedCut(line, rest);
      RawLinesFrom(line, rest);
      RawLinesFrom(line, Returned(rest));
      RawLinesReturned(rest);
    } else {
      ReturnedLine(text);
    }
  }

  lemma ReturnedCut(line: string, rest: string)
    requires '\n' !in line
    ensures Returned(line + "\n" + rest) == line + "\r\n" + Returned(rest)
  {
    ReturnedConcat(line, "\n" + rest);
    ReturnedLine(line);
    assert line + "\n" + rest == line + ("\n" + rest) && ("\n" + rest)[1..] == rest;
    assert line + ("\r\n" + Returned(rest)) == line + "\r\n" + Returned(rest);
  }

  lemma RawCut(line: string, rest: string)
    requires '\n' !in line
    ensures RawLines(line + "\n" + rest) == [line + "\n"] + RawLines(rest)
  {
    hide IndexOf;
    var text := line + "\n" + rest;
    assert text[|line|] == '\n' && forall i :: 0 <= i < |line| ==> text[i] == line[i];
    FirstNewline(text, |line|);
    assert text[..|line| + 1] == line + "\n" && text[|line| + 1..] == rest;
  }

  lemma {:induction false} ReceivedReturned(chunks: seq<string>)
    requires forall c :: c in chunks ==> '\r' !in c
    ensures Received(AllReturned(chunks)) == Concat(chunks)
    ensures Concat(AllReturned(chunks)) == Returned(Concat(chunks))
    decreases |chunks|
  {
    if chunks != [] {
      NormalOfReturned(chunks[0]);
      ReceivedReturned(chunks[1..]);
      ReturnedConcat(chunks[0], Concat(chunks[1..]));
      assert AllReturned(chunks)[1..] == AllReturned(chunks[1..]);
    }
  }

  /** Lines that end in carriage return and newline, with no pair cut between two chunks,
      read the same by both decoders as lines that end in a newline alone. */
  lemma ReturnsMakeNoDifference(chunks: seq<string>)
    requires forall c :: c in chunks ==> '\r' !in c
    ensures ByBlocks(Received(AllReturned(chunks))) == ByBlocks(Received(chunks))
    ensures ByLines(AllStripped(RawLines(Concat(AllReturned(chunks)))), START) == ByBlocks(Received(chunks))
  {
    hide ByBlocks, ByLines, RawLines, AllStripped, Received, Concat, AllReturned, Returned;
    ReceivedPlain(chunks);
    ReceivedReturned(chunks);
    RawLinesReturned(Concat(chunks));
    DecodersAgree(chunks);
  }

  /** A pair that is cut between two chunks is not put together again, and then the two
      decoders differ: whatever line of data is sent so, one of them leaves the return in. */
  lemma CutPairDiffers(value: string)
    requires OneLine(value)
    ensures var chunks := [Labelled("data", value) + "\r", "\n\n"];
            ByBlocks(Received(chunks)) != ByLines(AllStripped(RawLines(Concat(chunks))), START)
  {
    hide ByBlocks, ByLines, Split, Field, Fields, Emit, IndexOf, EventOf, AllStripped, RawLines, Received, Concat, Labelled;
    var line := Labelled("data", value);
    NamesAreLines();
    LabelledIsOneLine("data", value);
    CutText(line);
    BlocksAreLines(line + "\r" + "\n" + "\n");
    CutLines(line);
    OneEvent(value + "\r");
    OneEvent(value);
    assert Labelled("data", value + "\r") == line + "\r" by { LabelledMore(value); }
  }

  lemma LabelledMore(value: string)
    ensures Labelled("data", value + "\r") == Labelled("data", value) + "\r"
  {
    assert "data" + ": " + (value + "\r") == "data" + ": " + value + "\r";
  }

  lemma CutText(line: string)
    requires OneLine(line)
    ensures var chunks := [line + "\r", "\n\n"];
            Received(chunks) == line + "\r" + "\n" + "\n" && Concat(chunks) == line + "\r" + "\n" + "\n"
  {
    var chunks := [line + "\r", "\n\n"];
    assert chunks[1..] == ["\n\n"] && ["\n\n"][1..] == [];
    NoPair(line + "\r");
    NoPair("\n\n");
    hide Normal;
    assert Concat(chunks) == line + "\r" + ("\n\n" + "");
    assert Received(chunks) == line + "\r" + ("\n\n" + "");
    assert line + "\r" + ("\n\n" + "") == line + "\r" + "\n" + "\n";
  }

  lemma {:induction false} NoPair(chunk: string)
    requires forall i :: 0 <= i < |chunk| - 1 ==> !(chunk[i] == '\r' && chunk[i + 1] == '\n')
    ensures Normal(chunk) == chunk
    decreases |chunk|
  {
    if |chunk| >= 2 {
      assert !(chunk[0] == '\r' && chunk[1] == '\n');
      NoPair(chunk[1..]);
    }
  }

  lemma CutLines(line: string)
    requires OneLine(line)
    ensures Split(line + "\r" + "\n" + "\n") == [line + "\r"] + ["", ""]
    ensures AllStripped(RawLines(line + "\r" + "\n" + "\n")) == [line] + [""]
  {
    hide Split, RawLines, Stripped, AllStripped;
    SplitJoined(line + "\r", "\n");
    SplitLine(line + "\r");
    SplitBlank("");
    SplitLine("");
    assert "\n" + "" == "\n" && [""] + [""] == ["", ""];
    RawCut(line + "\r", "\n");
    RawCut("", "");
    assert "" + "\n" + "" == "\n" && "" + "\n" == "\n";
    NoRawLines();
    assert line + "\r" + "\n" == line + "\r\n";
    StripsReturn(line);
    StripsNothing("");
    assert ["\n"] + [] == ["\n"];
    StripFirst(line + "\r\n", ["\n"]);
    StripFirst("\n", []);
    assert [""] + [] == [""];
  }

  lemma NoRawLines()
    ensures RawLines("") == [] && AllStripped([]) == []
  {
  }

  /** One line of data is one event with that data. */
  lemma OneEvent(value: string)
    ensures var e := Event(None, "message", value);
            var lines := [Labelled("data", value)];
            ByLines(lines + [""], START) == [e] && ByLines(lines + ["", ""], START) == [e]
  {
    hide Field, Fields, Emit, ByLines, Labelled, Ended;
    var w, lines := Wire(None, None, [value]), [Labelled("data", value)];
    OneDataLine(value);
    EmitsEvent(w);
    DataOf(value);
    assert Labelled("data", value) != "" by { LabelledNotBlank(value); }
    BlockThenRest(lines, [], START);
    BlockThenRest(lines, [""], START);
    NothingByLines();
    NoLines();
    assert lines + [""] + [] == lines + [""] && lines + [""] + [""] == lines + ["", ""];
  }

  lemma OneDataLine(value: string)
    ensures EventLines(Wire(None, None, [value])) == [Labelled("data", value)]
  {
    hide Labelled;
    assert [value][1..] == [] && DataLines([]) == [];
    assert [] + [] + ([Labelled("data", value)] + []) == [Labelled("data", value)];
  }

  lemma LabelledNotBlank(value: string)
    ensures Labelled("data", value) != ""
  {
  }

  lemma NoLines()
    ensures ByLines([], START) == []
  {
  }

  lemma DataOf(value: string)
    ensures EventOf(Wire(None, None, [value])).data == value
  {
    assert [value][1..] == [];
    assert Ended([value]) == value + "\n" + "" == value + "\n";
  }
}
