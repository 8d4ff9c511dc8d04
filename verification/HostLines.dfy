/** The known_hosts text format: one entry per line, parsed and printed. */
module HostLines {
  import opened Common
  import opened Text
  import opened ManifestBodies
  import opened Base64

  datatype HostPattern = Plain(hosts: seq<string>) | Hashed(salt: Bytes, hash: Bytes)

  datatype HostEntry = HostEntry(pattern: HostPattern, keyType: string, keyText: string)

  predicate IsKnownKeyType(s: string)
  {
    || s == "ssh-rsa" || s == "ssh-dss" || s == "ssh-ed25519" || s == "ssh-ed448"
    || s == "ecdsa-sha2-nistp256" || s == "ecdsa-sha2-nistp384" || s == "ecdsa-sha2-nistp521"
    || s == "sk-ecdsa-sha2-nistp256@openssh.com" || s == "sk-ssh-ed25519@openssh.com"
  }

  /** Non-empty and free of whitespace. */
  predicate IsToken(s: string)
  {
    s != "" && forall i :: 0 <= i < |s| ==> !IsWhitespace(s[i])
  }

  function RunLength(s: string): (n: nat)
    ensures n <= |s|
    ensures forall i :: 0 <= i < n ==> !IsWhitespace(s[i])
    ensures n < |s| ==> IsWhitespace(s[n])
  {
    if s == "" || IsWhitespace(s[0]) then 0 else 1 + RunLength(s[1..])
  }

  /** `split_whitespace`: the maximal runs of other characters. */
  function Tokens(s: string): (r: seq<string>)
    ensures forall t :: t in r ==> IsToken(t)
    decreases |s|
  {
    if s == "" then []
    else if IsWhitespace(s[0]) then Tokens(s[1..])
    else [s[..RunLength(s)]] + Tokens(s[RunLength(s)..])
  }

  predicate StartsWith(s: string, prefix: string)
  {
    prefix <= s
  }

  function ParsePattern(first: string): Option<HostPattern>
  {
    if StartsWith(first, "|1|") then
      var parts := Split(first[3..], '|');
      if |parts| < 2 then None
      else
        match (Decode(parts[0]), Decode(parts[1]))
        case (Some(salt), Some(hash)) => Some(Hashed(salt, hash))
        case _ => None
    else Some(Plain(Split(first, ',')))
  }

  /** Host pattern, key type and key text; a leading `@marker` is skipped, further tokens ignored. */
  function ParseTokens(tokens: seq<string>): Option<HostEntry>
  {
    var rest := if tokens != [] && StartsWith(tokens[0], "@") then tokens[1..] else tokens;
    if |rest| < 3 || !IsKnownKeyType(rest[1]) then None
    else
      match (ParsePattern(rest[0]), Decode(rest[2]))
      case (Some(pattern), Some(key)) => if key == [] then None else Some(HostEntry(pattern, rest[1], rest[2]))
      case _ => None
  }

  function ParseLine(line: string): Option<HostEntry>
  {
    var trimmed := Trim(line);
    if trimmed == "" || StartsWith(trimmed, "#") then None else ParseTokens(Tokens(trimmed))
  }

  /** The line `append` writes, without its newline. */
  function LineOf(form: string, keyType: string, key: Bytes): string
  {
    form + " " + (keyType + " " + Encode(key))
  }

  function EntryOf(form: string, keyType: string, key: Bytes): HostEntry
  {
    HostEntry(Plain([form]), keyType, Encode(key))
  }

  /** Host forms that survive the format. */
  predicate CleanForm(form: string)
  {
    && IsToken(form) && ',' !in form
    && !StartsWith(form, "#") && !StartsWith(form, "@") && !StartsWith(form, "|1|")
  }

  predicate Clean(form: string, keyType: string, key: Bytes)
  {
    CleanForm(form) && IsKnownKeyType(keyType) && key != []
  }

  // ---------- Tokens of a printed line ----------

  lemma PlainKeyTypes(s: string)
    requires s == "ssh-rsa" || s == "ssh-dss" || s == "ssh-ed25519" || s == "ssh-ed448"
    ensures IsToken(s)
  {
  }

  lemma CurveKeyTypes(s: string)
    requires s == "ecdsa-sha2-nistp256" || s == "ecdsa-sha2-nistp384" || s == "ecdsa-sha2-nistp521"
    ensures IsToken(s)
  {
  }

  lemma SecurityKeyTypes(s: string)
    requires s == "sk-ecdsa-sha2-nistp256@openssh.com" || s == "sk-ssh-ed25519@openssh.com"
    ensures IsToken(s)
  {
  }

  lemma KeyTypesAreTokens(s: string)
    requires IsKnownKeyType(s)
    ensures IsToken(s)
  {
    if s == "ssh-rsa" || s == "ssh-dss" || s == "ssh-ed25519" || s == "ssh-ed448" {
      PlainKeyTypes(s);
    } else if s == "sk-ecdsa-sha2-nistp256@openssh.com" || s == "sk-ssh-ed25519@openssh.com" {
      SecurityKeyTypes(s);
    } else {
      CurveKeyTypes(s);
    }
  }

  lemma AlphabetIsVisible(c: char)
    requires InAlphabet(c)
    ensures !IsWhitespace(c)
  {
  }

  lemma KeyTextIsToken(key: Bytes)
    requires key != []
    ensures IsToken(Encode(key))
  {
    var text := Encode(key);
    EncodeEmpty(key);
    EncodedAlphabet(key);
    forall i | 0 <= i < |text| ensures !IsWhitespace(text[i]) {
      AlphabetIsVisible(text[i]);
    }
  }

  lemma RunOfToken(t: string, rest: string)
    requires IsToken(t) && (rest == "" || IsWhitespace(rest[0]))
    ensures RunLength(t + rest) == |t|
  {
    var s := t + rest;
    assert forall i :: 0 <= i < |t| ==> s[i] == t[i];
    assert rest != "" ==> s[|t|] == rest[0];
  }

  lemma LastToken(t: string)
    requires IsToken(t)
    ensures Tokens(t) == [t]
  {
    RunOfToken(t, "");
    assert t + "" == t;
    assert t[..|t|] == t && t[|t|..] == "";
  }

  lemma FirstToken(t: string, rest: string)
    requires IsToken(t)
    ensures Tokens(t + " " + rest) == [t] + Tokens(rest)
  {
    var s, tail := t + " " + rest, " " + rest;
    RunOfToken(t, tail);
    assert s == t + tail;
    assert s[0] == t[0];
    assert s[..|t|] == t && s[|t|..] == tail;
    assert tail[1..] == rest;
    assert Tokens(tail) == Tokens(rest);
  }

  lemma TokensOfLine(a: string, b: string, c: string)
    requires IsToken(a) && IsToken(b) && IsToken(c)
    ensures Tokens(a + " " + (b + " " + c)) == [a, b, c]
    ensures Trim(a + " " + (b + " " + c)) == a + " " + (b + " " + c)
  {
    FirstToken(a, b + " " + c);
    FirstToken(b, c);
    LastToken(c);
    var s := a + " " + (b + " " + c);
    assert s[0] == a[0] && s[|s| - 1] == c[|c| - 1];
    TrimClean(s);
  }

  lemma ParsePrintedTokens(form: string, keyType: string, key: Bytes)
    requires CleanForm(form) && IsKnownKeyType(keyType) && key != []
    ensures ParseTokens([form, keyType, Encode(key)]) == Some(EntryOf(form, keyType, key))
  {
    Base64RoundTrip(key);
    SplitPlain(form, ',');
  }

  lemma FormOfPattern(first: string, form: string)
    requires ParsePattern(first) == Some(Plain([form]))
    ensures first == form && ',' !in form && !StartsWith(form, "|1|")
  {
    JoinSplit(first, ',');
    var parts := Split(first, ',');
    assert form in [form];
  }

  /** Whatever line it came from, an entry recorded under one plain form has a well-formed one. */
  lemma ParsedEntryIsToken(tokens: seq<string>, form: string, keyType: string, key: Bytes)
    requires forall t :: t in tokens ==> IsToken(t)
    requires ParseTokens(tokens) == Some(EntryOf(form, keyType, key))
    ensures IsToken(form) && ',' !in form && !StartsWith(form, "|1|") && IsKnownKeyType(keyType) && key != []
  {
    var rest := if tokens != [] && StartsWith(tokens[0], "@") then tokens[1..] else tokens;
    FormOfPattern(rest[0], form);
    assert rest[0] in tokens;
    Base64RoundTrip(key);
  }

  /** The printed line parses back to its entry exactly when the host form is clean, the key type is one of the
      known ones and the key is not empty. */
  lemma LineRoundTrip(form: string, keyType: string, key: Bytes)
    ensures ParseLine(LineOf(form, keyType, key)) == Some(EntryOf(form, keyType, key)) <==> Clean(form, keyType, key)
  {
    var line := LineOf(form, keyType, key);
    if Clean(form, keyType, key) {
      PrintedLineParses(form, keyType, key);
    } else if ParseLine(line) == Some(EntryOf(form, keyType, key)) {
      ParsedEntryIsToken(Tokens(Trim(line)), form, keyType, key);
      MarkedLineIsDropped(form, keyType, key);
    }
  }

  lemma MarkedLineIsDropped(form: string, keyType: string, key: Bytes)
    requires IsToken(form) && IsKnownKeyType(keyType) && key != []
    ensures StartsWith(form, "#") || StartsWith(form, "@") ==> ParseLine(LineOf(form, keyType, key)) == None
  {
    KeyTypesAreTokens(keyType);
    KeyTextIsToken(key);
    TokensOfLine(form, keyType, Encode(key));
    assert LineOf(form, keyType, key)[0] == form[0];
    assert [form, keyType, Encode(key)][1..] == [keyType, Encode(key)];
  }

  lemma PrintedLineParses(form: string, keyType: string, key: Bytes)
    requires Clean(form, keyType, key)
    ensures ParseLine(LineOf(form, keyType, key)) == Some(EntryOf(form, keyType, key))
  {
    var line := LineOf(form, keyType, key);
    KeyTypesAreTokens(keyType);
    KeyTextIsToken(key);
    TokensOfLine(form, keyType, Encode(key));
    ParsePrintedTokens(form, keyType, key);
    assert line[0] == form[0];
    assert !StartsWith(line, "#");
  }

  // ---------- The file ----------

  function DropReturn(line: string): string
  {
    if line != "" && line[|line| - 1] == '\r' then line[..|line| - 1] else line
  }

  /** The lines that end in a newline; `\r\n` counts as one. */
  function FullLines(text: string): seq<string>
  {
    var parts := Split(text, '\n');
    seq(|parts| - 1, i requires 0 <= i < |parts| - 1 => DropReturn(parts[i]))
  }

  /** What follows the last newline. */
  function OpenLine(text: string): string
  {
    var parts := Split(text, '\n');
    parts[|parts| - 1]
  }

  /** `BufRead::lines`: there is no empty last line. */
  function Lines(text: string): seq<string>
  {
    FullLines(text) + (if OpenLine(text) == "" then [] else [OpenLine(text)])
  }

  function Parsed(line: string): seq<HostEntry>
  {
    match ParseLine(line)
    case Some(entry) => [entry]
    case None => []
  }

  function EntriesOf(lines: seq<string>): seq<HostEntry>
  {
    if lines == [] then [] else EntriesOf(lines[..|lines| - 1]) + Parsed(lines[|lines| - 1])
  }

  /** The entries `load` keeps of a file's text. */
  function Entries(text: string): seq<HostEntry>
  {
    EntriesOf(Lines(text))
  }

  /** Empty, or ending in a newline. */
  predicate Terminated(text: string)
  {
    text == "" || text[|text| - 1] == '\n'
  }

  lemma {:induction false} SplitAppend(text: string, line: string)
    requires '\n' !in line
    ensures Split(text + line, '\n') == GrowLast(Split(text, '\n'), line)
  {
    if text == "" {
      assert text + line == line;
      SplitPlain(line, '\n');
    } else {
      SplitAppend(text[1..], line);
      assert (text + line)[1..] == text[1..] + line;
      LastPartGrows(text[0], Split(text[1..], '\n'), line);
    }
  }

  /** One more character in front of a split text: a new empty part, or a longer first part. */
  function PutInFront(c: char, parts: seq<string>): seq<string>
    requires |parts| >= 1
  {
    if c == '\n' then [""] + parts else [[c] + parts[0]] + parts[1..]
  }

  function GrowLast(parts: seq<string>, line: string): seq<string>
    requires |parts| >= 1
  {
    parts[..|parts| - 1] + [parts[|parts| - 1] + line]
  }

  lemma LastPartGrows(c: char, parts: seq<string>, line: string)
    requires |parts| >= 1
    ensures PutInFront(c, GrowLast(parts, line)) == GrowLast(PutInFront(c, parts), line)
  {
    var m := |parts| - 1;
    var a, b := PutInFront(c, GrowLast(parts, line)), GrowLast(PutInFront(c, parts), line);
    assert |a| == |b|;
    if c == '\n' {
      assert forall i :: 0 <= i < |a| ==> a[i] == b[i];
    } else {
      assert m == 0 ==> [c] + (parts[0] + line) == [c] + parts[0] + line;
      assert forall i :: 0 <= i < |a| ==> a[i] == b[i];
    }
  }

  lemma {:induction false} SplitNewline(text: string)
    ensures Split(text + "\n", '\n') == Split(text, '\n') + [""]
  {
    if text == "" {
      assert (text + "\n")[1..] == "";
    } else {
      SplitNewline(text[1..]);
      assert (text + "\n")[1..] == text[1..] + "\n";
    }
  }

  lemma TerminatedIff(text: string)
    ensures Terminated(text) <==> OpenLine(text) == ""
  {
    if text != "" {
      var front, last := text[..|text| - 1], text[|text| - 1];
      assert text == front + [last];
      if last == '\n' {
        SplitNewline(front);
      } else {
        SplitAppend(front, [last]);
      }
    }
  }

  /** A printed line completes whatever unfinished line the file ended in. */
  lemma AppendCompletesLine(text: string, line: string)
    requires '\n' !in line && line != "" && line[|line| - 1] != '\r'
    ensures Lines(text + line + "\n") == FullLines(text) + [OpenLine(text) + line]
    ensures OpenLine(text + line + "\n") == ""
  {
    var parts := Split(text, '\n');
    var n := |parts| - 1;
    var longer := parts[..n] + [parts[n] + line];
    SplitAppend(text, line);
    SplitNewline(text + line);
    assert Split(text + line + "\n", '\n') == longer + [""];
    assert forall i :: 0 <= i < n ==> (longer + [""])[i] == parts[i];
    assert DropReturn(parts[n] + line) == parts[n] + line;
    assert FullLines(text + line + "\n") == FullLines(text) + [OpenLine(text) + line];
  }

  lemma EntriesSplit(text: string)
    ensures Entries(text) == EntriesOf(FullLines(text)) + Parsed(OpenLine(text))
  {
    var full, open := FullLines(text), OpenLine(text);
    if open != "" {
      assert (full + [open])[..|full|] == full;
    } else {
      assert full + [] == full;
      assert Trim("") == "";
    }
  }

  lemma PrintedLineShape(form: string, keyType: string, key: Bytes)
    requires IsToken(form) && IsToken(keyType)
    ensures var line := LineOf(form, keyType, key);
            '\n' !in line && line != "" && line[|line| - 1] != '\r'
  {
    var text := Encode(key);
    EncodeEmpty(key);
    if key != [] {
      KeyTextIsToken(key);
      assert LineOf(form, keyType, key)[|LineOf(form, keyType, key)| - 1] == text[|text| - 1];
    }
  }

  /** What a file holds once a line has been appended to it. */
  lemma EntriesAfterAppend(text: string, form: string, keyType: string, key: Bytes)
    requires IsToken(form) && IsToken(keyType)
    ensures var line := LineOf(form, keyType, key);
            Entries(text + line + "\n") == EntriesOf(FullLines(text)) + Parsed(OpenLine(text) + line)
  {
    var line := LineOf(form, keyType, key);
    PrintedLineShape(form, keyType, key);
    AppendCompletesLine(text, line);
    var full := FullLines(text);
    assert (full + [OpenLine(text) + line])[..|full|] == full;
  }

  lemma {:induction false} LoadedEntryIsToken(lines: seq<string>, form: string, keyType: string, key: Bytes)
    requires EntryOf(form, keyType, key) in EntriesOf(lines)
    ensures IsToken(form) && ',' !in form && !StartsWith(form, "|1|") && IsKnownKeyType(keyType) && key != []
  {
    var n := |lines| - 1;
    if EntryOf(form, keyType, key) in Parsed(lines[n]) {
      ParsedEntryIsToken(Tokens(Trim(lines[n])), form, keyType, key);
    } else {
      LoadedEntryIsToken(lines[..n], form, keyType, key);
    }
  }

  ghost predicate Survives(text: string, form: string, keyType: string, key: Bytes)
  {
    Entries(text + LineOf(form, keyType, key) + "\n") == Entries(text) + [EntryOf(form, keyType, key)]
  }

  /** Reloading an appended file gives the old entries and the new one exactly when the host form is clean, the
      key type known and the key not empty: for every file that is empty or ends in a newline. */
  lemma AppendSurvivesIff(text: string, form: string, keyType: string, key: Bytes)
    requires Terminated(text)
    ensures Survives(text, form, keyType, key) <==> Clean(form, keyType, key)
  {
    var line, entry := LineOf(form, keyType, key), EntryOf(form, keyType, key);
    if Survives(text, form, keyType, key) {
      assert (Entries(text) + [entry])[|Entries(text)|] == entry;
      LoadedEntryIsToken(Lines(text + line + "\n"), form, keyType, key);
    }
    if IsToken(form) && IsKnownKeyType(keyType) && key != [] {
      TerminatedIff(text);
      EntriesSplit(text);
      KeyTypesAreTokens(keyType);
      EntriesAfterAppend(text, form, keyType, key);
      LineRoundTrip(form, keyType, key);
      assert OpenLine(text) + line == line;
    }
  }

  /** A file whose unfinished last line is an entry or a comment swallows the appended one. */
  lemma SwallowedByOpenLine(text: string, form: string, keyType: string, key: Bytes)
    requires Clean(form, keyType, key)
    requires Parsed(OpenLine(text)) != [] || StartsWith(OpenLine(text), "#")
    ensures !Survives(text, form, keyType, key)
  {
    var open, line := OpenLine(text), LineOf(form, keyType, key);
    EntriesSplit(text);
    KeyTypesAreTokens(keyType);
    EntriesAfterAppend(text, form, keyType, key);
    if StartsWith(open, "#") {
      CommentStays(open, line);
    }
  }

  lemma CommentStays(open: string, line: string)
    requires StartsWith(open, "#")
    ensures Parsed(open + line) == []
  {
    var s := open + line;
    assert s[0] == '#';
    TrimEndKeepsFirst(s);
  }

  lemma {:induction false} TrimEndKeepsFirst(s: string)
    requires s != "" && !IsWhitespace(s[0])
    ensures TrimEnd(s) != "" && TrimEnd(s)[0] == s[0]
  {
    if IsWhitespace(s[|s| - 1]) {
      TrimEndKeepsFirst(s[..|s| - 1]);
    }
  }
}
