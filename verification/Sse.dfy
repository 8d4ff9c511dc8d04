/** The CLI's incremental parser of server-sent events. */
module Sse {
  import opened Common
  import opened Text

  datatype Message = Message(event: Option<string>, id: Option<string>, data: string)

  const EMPTY := Message(None, None, "")

  predicate Blank(m: Message)
  {
    m.data == "" && m.event.None? && m.id.None?
  }

  function TrimCr(s: string): string
  {
    if s != [] && s[|s| - 1] == '\r' then TrimCr(s[..|s| - 1]) else s
  }

  /** Position of the first `c`, or the length. */
  function Find(s: string, c: char): (i: nat)
    ensures i <= |s| && (i < |s| ==> s[i] == c) && c !in s[..i]
  {
    if s == [] || s[0] == c then 0 else 1 + Find(s[1..], c)
  }

  /** Field name and value of a line; one space after the colon is dropped. */
  function FieldAndValue(line: string): (string, string)
  {
    var i := Find(line, ':');
    if i == |line| then (line, "")
    else
      var v := line[i + 1..];
      (line[..i], if v != [] && v[0] == ' ' then v[1..] else v)
  }

  function SetField(m: Message, field: string, value: string): Message
  {
    if field == "event" then m.(event := Some(value))
    else if field == "id" then m.(id := Some(value))
    else if field == "data" then m.(data := if m.data == "" then value else m.data + "\n" + value)
    else m
  }

  /** One complete line: the pending message after it, and the message it completes. */
  function Feed(m: Message, line: string): (Message, Option<Message>)
  {
    if line == "" then (if Blank(m) then (m, None) else (EMPTY, Some(m)))
    else if line[0] == ':' then (m, None)
    else var (field, value) := FieldAndValue(line); (SetField(m, field, value), None)
  }

  datatype Parsed = Parsed(messages: seq<Message>, pending: Message, rest: string) {
    function After(earlier: seq<Message>): Parsed { this.(messages := earlier + messages) }
  }

  function Emitted(out: Option<Message>): seq<Message>
  {
    if out.Some? then [out.value] else []
  }

  /** Everything a text completes, starting from a pending message. */
  function Parse(m: Message, text: string): Parsed
    decreases |text|
  {
    var i := Find(text, '\n');
    if i == |text| then Parsed([], m, text)
    else
      var (m', out) := Feed(m, TrimCr(text[..i]));
      Parse(m', text[i + 1..]).After(Emitted(out))
  }

  // ----- the stream -----

  datatype Chunk = Data(text: string) | Failure(error: string)

  /** The text up to the first failing chunk. */
  function Readable(chunks: seq<Chunk>): string
  {
    if chunks == [] || chunks[0].Failure? then "" else chunks[0].text + Readable(chunks[1..])
  }

  function FirstFailure(chunks: seq<Chunk>): Option<string>
  {
    if chunks == [] then None
    else if chunks[0].Failure? then Some(chunks[0].error)
    else FirstFailure(chunks[1..])
  }

  class SseStream {
    var body: seq<Chunk>
    var buf: string
    var pending: Message

    constructor (body: seq<Chunk>)
      ensures this.body == body && buf == "" && pending == EMPTY
    {
      this.body := body;
      buf := "";
      pending := EMPTY;
    }

    /** All that is still to come, as far as the stream can be read. */
    function Ahead(): Parsed
      reads this
    {
      Parse(pending, buf + Readable(body))
    }

    /** The next message, `None` at the end of the stream, or the stream's failure: the
        first message of what was ahead, exactly as long as there is one. */
    method Next() returns (r: Result<Option<Message>, string>)
      modifies this
      ensures r.Ok? && r.value.Some? ==>
                old(Ahead()) == Ahead().After([r.value.value])
                && FirstFailure(body) == old(FirstFailure(body))
      ensures r.Ok? && r.value.None? ==>
                old(Ahead()) == Parsed([], pending, buf) && body == [] && old(FirstFailure(body)) == None
      ensures r.Err? ==> old(Ahead()).messages == [] && old(FirstFailure(body)) == Some(r.error)
    {
      while true
        invariant Ahead() == old(Ahead()) && FirstFailure(body) == old(FirstFailure(body))
        decreases |body|
      {
        var found := DrainLines();
        if found.Some? {
          return Ok(found);
        }
        if body == [] {
          assert buf + Readable(body) == buf;
          return Ok(None);
        }
        var chunk := body[0];
        match chunk {
          case Data(text) =>
            assert buf + Readable(body) == (buf + text) + Readable(body[1..]);
            buf := buf + text;
            body := body[1..];
          case Failure(error) =>
            assert buf + Readable(body) == buf;
            body := body[1..];
            return Err(error);
        }
      }
    }

    /** The inner loop: complete lines already in the buffer, up to the first message. */
    method DrainLines() returns (found: Option<Message>)
      modifies `buf, `pending
      ensures found.None? ==> Ahead() == old(Ahead()) && '\n' !in buf
      ensures found.Some? ==> old(Ahead()) == Ahead().After([found.value])
      ensures Find(buf, '\n') == |buf| || found.Some?
    {
      while Find(buf, '\n') < |buf|
        invariant Ahead() == old(Ahead())
        decreases |buf|
      {
        var i := Find(buf, '\n');
        var line := TrimCr(buf[..i]);
        FirstLine(pending, buf, Readable(body));
        buf := buf[i + 1..];
        if line == "" {
          if !Blank(pending) {
            var msg := pending;
            pending := EMPTY;
            return Some(msg);
          }
        } else if line[0] != ':' {
          var (field, value) := FieldAndValue(line);
          pending := SetField(pending, field, value);
        }
      }
      found := None;
    }
  }

  lemma {:induction false} FindInPrefix(a: string, b: string, c: char)
    ensures Find(a, c) < |a| ==> Find(a + b, c) == Find(a, c)
  {
    if a != [] && a[0] != c {
      FindInPrefix(a[1..], b, c);
      assert (a + b)[1..] == a[1..] + b;
    }
  }

  /** A line complete in the buffer is the first line of the whole input. */
  lemma FirstLine(m: Message, buf: string, more: string)
    requires Find(buf, '\n') < |buf|
    ensures var i := Find(buf, '\n');
            var (m', out) := Feed(m, TrimCr(buf[..i]));
            Parse(m, buf + more) == Parse(m', buf[i + 1..] + more).After(Emitted(out))
  {
    var i := Find(buf, '\n');
    FindInPrefix(buf, more, '\n');
    assert (buf + more)[..i] == buf[..i];
    assert (buf + more)[i + 1..] == buf[i + 1..] + more;
  }

  /** Calling `Next` until the stream ends or fails gives every message of the readable
      text, whatever the chunks, and then reports the failure if there is one. */
  method ReadAll(chunks: seq<Chunk>) returns (messages: seq<Message>, error: Option<string>)
    ensures messages == Parse(EMPTY, Readable(chunks)).messages
    ensures error == FirstFailure(chunks)
  {
    var stream := new SseStream(chunks);
    messages, error := [], None;
    assert "" + Readable(chunks) == Readable(chunks);
    ghost var whole := Parse(EMPTY, Readable(chunks));
    ghost var ahead := stream.Ahead();
    while true
      invariant ahead == stream.Ahead()
      invariant messages + ahead.messages == whole.messages
      invariant FirstFailure(stream.body) == FirstFailure(chunks)
      decreases |ahead.messages|
    {
      var r := stream.Next();
      if r.Err? {
        return messages, Some(r.error);
      }
      if r.value.None? {
        return messages, None;
      }
      messages := messages + [r.value.value];
      ahead := stream.Ahead();
    }
  }

  // ----- chunk boundaries -----

  function Flat(chunks: seq<string>): string
  {
    if chunks == [] then "" else Flat(chunks[..|chunks| - 1]) + chunks[|chunks| - 1]
  }

  /** Parsing chunk by chunk, each chunk continuing where the last one stopped. */
  function ParseChunks(chunks: seq<string>): Parsed
  {
    if chunks == [] then Parsed([], EMPTY, "")
    else
      var before := ParseChunks(chunks[..|chunks| - 1]);
      var r := Parse(before.pending, before.rest + chunks[|chunks| - 1]);
      r.After(before.messages)
  }

  /** Parsing stops and resumes anywhere without changing what is parsed. */
  lemma {:induction false} ParseResumes(m: Message, a: string, b: string)
    ensures var first := Parse(m, a);
            Parse(m, a + b) == Parse(first.pending, first.rest + b).After(first.messages)
    decreases |a|
  {
    if Find(a, '\n') == |a| {
      AfterNothing(Parse(m, a + b));
    } else {
      var m', tail, earlier := LineOff(m, a, b);
      ParseResumes(m', tail, b);
      var rest := Parse(m', tail);
      ResumeAfter(Parse(m, a), rest, Parse(m, a + b), Parse(m', tail + b), Parse(rest.pending, rest.rest + b), earlier);
    }
  }

  /** Taking the first line off a text and off any continuation of it. */
  lemma LineOff(m: Message, a: string, b: string) returns (m': Message, tail: string, earlier: seq<Message>)
    requires Find(a, '\n') < |a|
    ensures |tail| < |a|
    ensures Parse(m, a) == Parse(m', tail).After(earlier)
    ensures Parse(m, a + b) == Parse(m', tail + b).After(earlier)
  {
    var i := Find(a, '\n');
    var (next, out) := Feed(m, TrimCr(a[..i]));
    FirstLine(m, a, b);
    m', tail, earlier := next, a[i + 1..], Emitted(out);
  }

  lemma ResumeAfter(first: Parsed, rest: Parsed, whole: Parsed, inner: Parsed, resumed: Parsed, earlier: seq<Message>)
    requires first == rest.After(earlier) && whole == inner.After(earlier) && inner == resumed.After(rest.messages)
    ensures whole == resumed.After(first.messages)
  {
    AfterTwice(resumed, rest.messages, earlier);
  }

  lemma AfterNothing(r: Parsed)
    ensures r.After([]) == r
  {
    assert [] + r.messages == r.messages;
  }

  lemma AfterTwice(r: Parsed, later: seq<Message>, earlier: seq<Message>)
    ensures r.After(later).After(earlier) == r.After(earlier + later)
  {
    assert earlier + (later + r.messages) == (earlier + later) + r.messages;
  }

  lemma {:induction false} ChunksParseTheText(chunks: seq<string>)
    ensures ParseChunks(chunks) == Parse(EMPTY, Flat(chunks))
  {
    if chunks != [] {
      var n := |chunks| - 1;
      ChunksParseTheText(chunks[..n]);
      ParseResumes(EMPTY, Flat(chunks[..n]), chunks[n]);
    }
  }

  /** Two splittings of one text give the same messages, pending fields and leftover. */
  lemma ChunkIndependence(chunks: seq<string>, chunks': seq<string>)
    requires Flat(chunks) == Flat(chunks')
    ensures ParseChunks(chunks) == ParseChunks(chunks')
  {
    ChunksParseTheText(chunks);
    ChunksParseTheText(chunks');
  }

  // ----- the fold over lines -----

  /** Feeding a list of complete lines. */
  function FeedAll(m: Message, lines: seq<string>): (seq<Message>, Message)
    decreases |lines|
  {
    if lines == [] then ([], m)
    else
      var (m', out) := Feed(m, TrimCr(lines[0]));
      var (messages, last) := FeedAll(m', lines[1..]);
      (Emitted(out) + messages, last)
  }

  /** The parser is the fold over the complete lines; the piece after the last newline
      waits, and at the end of the stream is dropped with the pending fields. */
  lemma {:induction false} ParseIsLineFold(m: Message, text: string)
    ensures var parts := Split(text, '\n');
            var (messages, last) := FeedAll(m, parts[..|parts| - 1]);
            Parse(m, text) == Parsed(messages, last, parts[|parts| - 1])
    decreases |text|
  {
    var i := Find(text, '\n');
    if i == |text| {
      assert text[..i] == text;
      SplitPlain(text, '\n');
    } else {
      var line, rest := text[..i], text[i + 1..];
      assert text == line + ['\n'] + rest;
      SplitFirst(line, rest, '\n');
      var (m', out) := Feed(m, TrimCr(line));
      ParseIsLineFold(m', rest);
      var parts, tail := Split(text, '\n'), Split(rest, '\n');
      assert parts[..|parts| - 1] == [line] + tail[..|tail| - 1];
      assert ([line] + tail[..|tail| - 1])[1..] == tail[..|tail| - 1];
    }
  }

  // ----- what a sender gets across -----

  function DataLines(lines: seq<string>): string
  {
    if lines == [] then "" else "data: " + lines[0] + "\n" + DataLines(lines[1..])
  }

  /** The event-stream encoding of a message: one `data` line per line of data. */
  function Encode(m: Message): string
  {
    FieldText("event", m.event) + (FieldText("id", m.id) + (DataLines(Split(m.data, '\n')) + "\n"))
  }

  predicate OneLine(s: string)
  {
    '\n' !in s && '\r' !in s
  }

  predicate Sendable(m: Message)
  {
    && (m.event.Some? ==> OneLine(m.event.value))
    && (m.id.Some? ==> OneLine(m.id.value))
    && '\r' !in m.data
  }

  function DropNewlines(s: string): string
  {
    if s != [] && s[0] == '\n' then DropNewlines(s[1..]) else s
  }

  lemma TrimCrClean(s: string)
    requires '\r' !in s
    ensures TrimCr(s) == s
  {
  }

  lemma {:induction false} FindIs(a: string, c: char, b: string)
    requires c !in a
    ensures Find(a + [c] + b, c) == |a|
  {
    var s := a + [c] + b;
    if a != [] {
      FindIs(a[1..], c, b);
      assert s[1..] == a[1..] + [c] + b;
      assert s[0] == a[0];
    }
  }

  /** One encoded field line sets that field. */
  lemma FieldLine(m: Message, field: string, value: string, rest: string)
    requires OneLine(value) && field in {"event", "id", "data"}
    ensures Parse(m, field + ": " + value + "\n" + rest) == Parse(SetField(m, field, value), rest)
  {
    var line := field + ": " + value;
    var text := line + ['\n'] + rest;
    assert text == field + ": " + value + "\n" + rest;
    assert ':' !in field && '\n' !in field && '\r' !in field;
    FindIs(line, '\n', rest);
    assert text[..|line|] == line && text[|line| + 1..] == rest;
    TrimCrClean(line);
    FieldLineParts(field, value);
    AfterNothing(Parse(SetField(m, field, value), rest));
  }

  lemma FieldLineParts(field: string, value: string)
    requires ':' !in field && field != ""
    ensures FieldAndValue(field + ": " + value) == (field, value)
    ensures (field + ": " + value)[0] != ':'
  {
    var line := field + ": " + value;
    assert line == field + [':'] + ([' '] + value);
    FindIs(field, ':', [' '] + value);
    assert line[..|field|] == field;
    assert line[|field| + 1..] == [' '] + value;
    assert ([' '] + value)[1..] == value;
    assert line[0] == field[0];
  }

  /** Data lines accumulate, except that leading empty lines are lost. */
  function Accumulate(data: string, lines: seq<string>): string
    decreases |lines|
  {
    if lines == [] then data
    else Accumulate(if data == "" then lines[0] else data + "\n" + lines[0], lines[1..])
  }

  lemma {:induction false} DataLinesParse(m: Message, lines: seq<string>, rest: string)
    requires forall l :: l in lines ==> OneLine(l)
    ensures Parse(m, DataLines(lines) + rest) == Parse(m.(data := Accumulate(m.data, lines)), rest)
    decreases |lines|
  {
    if lines == [] {
      assert DataLines(lines) + rest == rest;
    } else {
      assert lines[0] in lines;
      assert DataLines(lines) + rest == "data" + ": " + lines[0] + "\n" + (DataLines(lines[1..]) + rest);
      FieldLine(m, "data", lines[0], DataLines(lines[1..]) + rest);
      DataLinesParse(SetField(m, "data", lines[0]), lines[1..], rest);
    }
  }

  lemma {:induction false} AccumulateJoins(data: string, lines: seq<string>)
    ensures data != "" ==> Accumulate(data, lines) == if lines == [] then data else data + "\n" + Join(lines, '\n')
    ensures data == "" && (forall l :: l in lines ==> '\n' !in l) ==>
              Accumulate(data, lines) == DropNewlines(Join(lines, '\n'))
    decreases |lines|
  {
    if lines != [] {
      var next := if data == "" then lines[0] else data + "\n" + lines[0];
      AccumulateJoins(next, lines[1..]);
      if data == "" && lines[0] != "" && forall l :: l in lines ==> '\n' !in l {
        assert lines[0] in lines && lines[0][0] in lines[0];
        assert Join(lines, '\n')[0] == lines[0][0];
      }
      if lines[0] == "" && |lines| > 1 {
        assert Join(lines, '\n')[1..] == Join(lines[1..], '\n');
      }
    }
  }

  /** What arrives when a message is sent: leading newlines of the data are lost (the parser
      puts no newline after an empty first line, unlike the standard), and a message left
      with no field at all is not dispatched. */
  lemma EncodedArrives(m: Message)
    requires Sendable(m)
    ensures var got := m.(data := DropNewlines(m.data));
            Parse(EMPTY, Encode(m)) == Parsed(Emitted(if Blank(got) then None else Some(got)), EMPTY, "")
  {
    var tail := DataLines(Split(m.data, '\n')) + "\n";
    var m1 := EMPTY.(event := m.event);
    EventLine(EMPTY, m.event, FieldText("id", m.id) + tail);
    IdLine(m1, m.id, tail);
    DataArrives(m1.(id := m.id), m.data);
  }

  function FieldText(field: string, value: Option<string>): string
  {
    if value.Some? then field + ": " + value.value + "\n" else ""
  }

  lemma EventLine(m: Message, event: Option<string>, rest: string)
    requires (event.Some? ==> OneLine(event.value)) && m.event.None?
    ensures Parse(m, FieldText("event", event) + rest) == Parse(m.(event := event), rest)
  {
    if event.Some? {
      FieldLine(m, "event", event.value, rest);
    } else {
      assert FieldText("event", event) + rest == rest;
    }
  }

  lemma IdLine(m: Message, id: Option<string>, rest: string)
    requires (id.Some? ==> OneLine(id.value)) && m.id.None?
    ensures Parse(m, FieldText("id", id) + rest) == Parse(m.(id := id), rest)
  {
    if id.Some? {
      FieldLine(m, "id", id.value, rest);
    } else {
      assert FieldText("id", id) + rest == rest;
    }
  }

  lemma DataArrives(m: Message, data: string)
    requires m.data == "" && '\r' !in data
    ensures var got := m.(data := DropNewlines(data));
            Parse(m, DataLines(Split(data, '\n')) + "\n") ==
              Parsed(Emitted(if Blank(got) then None else Some(got)), EMPTY, "")
  {
    var lines := Split(data, '\n');
    SplitLinesClean(data);
    JoinSplit(data, '\n');
    DataLinesParse(m, lines, "\n");
    AccumulateJoins("", lines);
    BlankLine(m.(data := DropNewlines(data)));
  }

  lemma {:induction false} SplitLinesClean(s: string)
    requires '\r' !in s
    ensures forall l :: l in Split(s, '\n') ==> '\r' !in l
  {
    if s != [] {
      SplitLinesClean(s[1..]);
      var rest := Split(s[1..], '\n');
      assert rest[0] in rest && s[0] in s;
    }
  }

  lemma BlankLine(m: Message)
    ensures Parse(m, "\n") == Parsed(Emitted(if Blank(m) then None else Some(m)), EMPTY, "")
  {
    assert Find("\n", '\n') == 0;
    assert "\n"[..0] == "" && "\n"[1..] == "";
    assert TrimCr("") == "";
  }

  /** A message crosses unchanged exactly when it has a field to carry and its data does not
      begin with a newline. */
  lemma CrossesUnchangedIff(m: Message)
    requires Sendable(m)
    ensures Parse(EMPTY, Encode(m)).messages == [m] <==> !Blank(m) && (m.data != "" ==> m.data[0] != '\n')
  {
    EncodedArrives(m);
    DropShrinks(m.data);
  }

  lemma {:induction false} DropShrinks(s: string)
    ensures |DropNewlines(s)| <= |s|
    ensures DropNewlines(s) == s <==> (s != "" ==> s[0] != '\n')
  {
    if s != [] {
      DropShrinks(s[1..]);
    }
  }
}
