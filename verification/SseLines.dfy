/** The event-stream format, line by line, as the parser reads it. */
module SseLines {
  import opened Common
  import opened Sse

  predicate AllReturns(cr: string)
  {
    forall i :: 0 <= i < |cr| ==> cr[i] == '\r'
  }

  /** Text of a line: it holds no newline and does not end in a carriage return. */
  predicate LineText(s: string)
  {
    '\n' !in s && (s != "" ==> s[|s| - 1] != '\r')
  }

  lemma {:induction false} ReturnsDrop(s: string, cr: string)
    requires AllReturns(cr) && (s != "" ==> s[|s| - 1] != '\r')
    ensures TrimCr(s + cr) == s
    decreases |cr|
  {
    if cr == "" {
      assert s + cr == s;
    } else {
      assert (s + cr)[..|s + cr| - 1] == s + cr[..|cr| - 1];
      ReturnsDrop(s, cr[..|cr| - 1]);
    }
  }

  /** The first line of a text is fed, without the carriage returns at its end. */
  lemma FirstLineIsFed(m: Message, line: string, cr: string, rest: string)
    requires LineText(line) && AllReturns(cr)
    ensures var (m', out) := Feed(m, line);
            Parse(m, line + cr + "\n" + rest) == Parse(m', rest).After(Emitted(out))
  {
    var whole, text := line + cr, line + cr + "\n" + rest;
    assert '\n' !in cr;
    FindIs(whole, '\n', rest);
    assert text == whole + ['\n'] + rest;
    assert text[..|whole|] == whole && text[|whole| + 1..] == rest;
    ReturnsDrop(line, cr);
  }

  lemma QuietLine(m: Message, m': Message, line: string, cr: string, rest: string)
    requires LineText(line) && AllReturns(cr) && Feed(m, line) == (m', None)
    ensures Parse(m, line + cr + "\n" + rest) == Parse(m', rest)
  {
    FirstLineIsFed(m, line, cr, rest);
    AfterNothing(Parse(m', rest));
  }

  /** A line that starts with a colon is a comment. */
  lemma CommentIsSkipped(m: Message, comment: string, cr: string, rest: string)
    requires LineText(":" + comment) && AllReturns(cr)
    ensures Parse(m, ":" + comment + cr + "\n" + rest) == Parse(m, rest)
  {
    QuietLine(m, m, ":" + comment, cr, rest);
  }

  /** What a field does to the pending message: data lines are joined, an unknown field is
      ignored. */
  function WithField(m: Message, field: string, value: string): Message
  {
    match field
    case "event" => Message(Some(value), m.id, m.data)
    case "id" => Message(m.event, Some(value), m.data)
    case "data" => Message(m.event, m.id, if m.data == "" then value else m.data + "\n" + value)
    case _ => m
  }

  lemma FieldSets(m: Message, field: string, value: string)
    ensures SetField(m, field, value) == WithField(m, field, value)
  {
  }

  /** `field:value` and `field: value` mean the same; a second space belongs to the value. */
  lemma FieldIsRead(m: Message, field: string, space: string, value: string, cr: string, rest: string)
    requires field != "" && ':' !in field && LineText(field + ":" + space + value) && AllReturns(cr)
    requires space == " " || (space == "" && (value != "" ==> value[0] != ' '))
    ensures Parse(m, field + ":" + space + value + cr + "\n" + rest) == Parse(WithField(m, field, value), rest)
  {
    var line := field + ":" + space + value;
    FieldParts(field, space, value);
    QuietLine(m, WithField(m, field, value), line, cr, rest);
  }

  lemma FieldParts(field: string, space: string, value: string)
    requires field != "" && ':' !in field
    requires space == " " || (space == "" && (value != "" ==> value[0] != ' '))
    ensures var line := field + ":" + space + value;
            line != "" && line[0] != ':' && FieldAndValue(line) == (field, value)
  {
    var line, after := field + ":" + space + value, space + value;
    assert line == field + [':'] + after;
    FindIs(field, ':', after);
    assert line[..|field|] == field && line[|field| + 1..] == after;
    assert line[0] == field[0];
    assert space == " " ==> after[1..] == value;
    assert space == "" ==> after == value;
  }

  /** A line without a colon is a field without a value. */
  lemma BareFieldIsRead(m: Message, field: string, cr: string, rest: string)
    requires field != "" && ':' !in field && LineText(field) && AllReturns(cr)
    ensures Parse(m, field + cr + "\n" + rest) == Parse(WithField(m, field, ""), rest)
  {
    NowhereFound(field, ':');
    BareFieldFed(m, field);
    QuietLine(m, WithField(m, field, ""), field, cr, rest);
  }

  lemma BareFieldFed(m: Message, field: string)
    requires field != "" && field[0] != ':' && Find(field, ':') == |field|
    ensures Feed(m, field) == (WithField(m, field, ""), None)
  {
    assert FieldAndValue(field) == (field, "");
    FieldSets(m, field, "");
  }

  lemma {:induction false} NowhereFound(s: string, c: char)
    requires c !in s
    ensures Find(s, c) == |s|
  {
  }

  /** An empty line completes the pending message, unless nothing is pending. */
  lemma EmptyLineCompletes(m: Message, cr: string, rest: string)
    requires AllReturns(cr)
    ensures Parse(m, cr + "\n" + rest) ==
            if m == Message(None, None, "") then Parse(m, rest)
            else Parse(Message(None, None, ""), rest).After([m])
  {
    var text := cr + "\n" + rest;
    assert '\n' !in cr;
    FindIs(cr, '\n', rest);
    assert text == cr + ['\n'] + rest;
    assert text[..|cr|] == cr && text[|cr| + 1..] == rest;
    OnlyReturns(cr);
    EmptyFirstLine(m, text, rest);
  }

  lemma OnlyReturns(cr: string)
    requires AllReturns(cr)
    ensures TrimCr(cr) == ""
  {
    ReturnsDrop("", cr);
    assert "" + cr == cr;
  }

  lemma EmptyFirstLine(m: Message, text: string, rest: string)
    requires var i := Find(text, '\n'); i < |text| && TrimCr(text[..i]) == "" && text[i + 1..] == rest
    ensures Parse(m, text) ==
            if m == Message(None, None, "") then Parse(m, rest)
            else Parse(Message(None, None, ""), rest).After([m])
  {
    AfterNothing(Parse(m, rest));
  }

  /** What no newline ends waits. */
  lemma OpenLineWaits(m: Message, text: string)
    requires '\n' !in text
    ensures Parse(m, text) == Parsed([], m, text)
  {
    NowhereFound(text, '\n');
  }
}
