/** When a file is fit to be appended to: what its unfinished last line may hold. */
module HostAppend {
  import opened Common
  import opened Text
  import opened ManifestBodies
  import opened Base64
  import opened HostLines

  // ----- a line is its tokens -----

  function ParseByTokens(tokens: seq<string>): Option<HostEntry>
  {
    if tokens == [] || StartsWith(tokens[0], "#") then None else ParseTokens(tokens)
  }

  lemma {:induction false} TrimStartKeepsTokens(s: string)
    ensures Tokens(TrimStart(s)) == Tokens(s)
    ensures TrimStart(s) != "" ==> !IsWhitespace(TrimStart(s)[0])
  {
    if s != "" && IsWhitespace(s[0]) {
      TrimStartKeepsTokens(s[1..]);
    }
  }

  lemma {:induction false} TrailingSpace(s: string, c: char)
    requires IsWhitespace(c)
    ensures Tokens(s + [c]) == Tokens(s)
    decreases |s|
  {
    if s == "" {
      assert (s + [c])[1..] == "";
    } else if IsWhitespace(s[0]) {
      TrailingSpace(s[1..], c);
      assert (s + [c])[1..] == s[1..] + [c];
    } else {
      var n := RunLength(s);
      RunOf(s, [c]);
      assert n > 0;
      TrailingSpace(s[n..], c);
      assert (s + [c])[..n] == s[..n] && (s + [c])[n..] == s[n..] + [c];
    }
  }

  /** What follows a space changes nothing in the first run before it. */
  lemma {:induction false} RunOf(s: string, more: string)
    requires more == "" || IsWhitespace(more[0]) || RunLength(s) < |s|
    ensures RunLength(s + more) == RunLength(s)
    decreases |s|
  {
    if s == "" {
      assert s + more == more;
    } else if !IsWhitespace(s[0]) {
      RunOf(s[1..], more);
      assert (s + more)[1..] == s[1..] + more;
    }
  }

  lemma {:induction false} TrimEndKeepsTokens(s: string)
    ensures Tokens(TrimEnd(s)) == Tokens(s)
  {
    if s != "" && IsWhitespace(s[|s| - 1]) {
      TrimEndKeepsTokens(s[..|s| - 1]);
      TrailingSpace(s[..|s| - 1], s[|s| - 1]);
      assert s[..|s| - 1] + [s[|s| - 1]] == s;
    }
  }

  lemma FirstCharacter(s: string)
    requires s != "" && !IsWhitespace(s[0])
    ensures Tokens(s) != [] && Tokens(s)[0] != "" && Tokens(s)[0][0] == s[0]
  {
  }

  lemma LineIsItsTokens(line: string)
    ensures ParseLine(line) == ParseByTokens(Tokens(line))
  {
    var start := TrimStart(line);
    TrimStartKeepsTokens(line);
    TrimEndKeepsTokens(start);
    if start != "" {
      TrimEndKeepsFirst(start);
      FirstCharacter(Trim(line));
    }
  }

  // ----- a line put after an unfinished one -----

  predicate EndsOpen(s: string)
  {
    s != "" && !IsWhitespace(s[|s| - 1])
  }

  /** A token put after some others, or onto the last of them. */
  function Glue(tokens: seq<string>, t: string, onto: bool): seq<string>
  {
    if onto && tokens != [] then tokens[..|tokens| - 1] + [tokens[|tokens| - 1] + t] else tokens + [t]
  }

  /** The tokens of `s` and a token put right after it. */
  function Glued(s: string, t: string): seq<string>
  {
    Glue(Tokens(s), t, EndsOpen(s))
  }

  lemma {:induction false} TokensGlue(s: string, t: string, rest: string)
    requires IsToken(t)
    ensures Tokens(s + (t + " " + rest)) == Glued(s, t) + Tokens(rest)
    decreases |s|
  {
    var tail := t + " " + rest;
    if s == "" {
      assert s + tail == tail;
      FirstToken(t, rest);
    } else if IsWhitespace(s[0]) {
      TokensGlue(s[1..], t, rest);
      SkipSpace(s, tail);
    } else if RunLength(s) < |s| {
      var n := RunLength(s);
      FirstRun(s, tail);
      TokensGlue(s[n..], t, rest);
      GluedAfter(s, t);
      var first, glued, last := [s[..n]], Glued(s[n..], t), Tokens(rest);
      AppendTwice(first, glued, last, first + glued, first + glued + last);
    } else {
      GlueOnToken(s, t, rest);
    }
  }

  lemma SkipSpace(s: string, more: string)
    requires s != "" && IsWhitespace(s[0])
    ensures Tokens(s + more) == Tokens(s[1..] + more) && Tokens(s) == Tokens(s[1..])
    ensures EndsOpen(s) == EndsOpen(s[1..])
  {
    assert (s + more)[1..] == s[1..] + more;
  }

  lemma FirstRun(s: string, more: string)
    requires s != "" && !IsWhitespace(s[0]) && RunLength(s) < |s|
    ensures var n := RunLength(s); n > 0 && Tokens(s + more) == [s[..n]] + Tokens(s[n..] + more)
  {
    var n := RunLength(s);
    RunOf(s, more);
    assert (s + more)[..n] == s[..n] && (s + more)[n..] == s[n..] + more;
  }

  lemma GlueOnToken(s: string, t: string, rest: string)
    requires IsToken(s) && IsToken(t)
    ensures Tokens(s + (t + " " + rest)) == Glued(s, t) + Tokens(rest)
  {
    LastToken(s);
    assert Glued(s, t) == [s + t];
    TokenOnToken(s, t);
    FirstToken(s + t, rest);
    AssociateText(s, t, rest);
  }

  lemma TokenOnToken(s: string, t: string)
    requires IsToken(s) && IsToken(t)
    ensures IsToken(s + t)
  {
  }

  lemma AssociateText(s: string, t: string, rest: string)
    ensures s + (t + " " + rest) == s + t + " " + rest
  {
  }

  lemma GluedAfter(s: string, t: string)
    requires s != "" && !IsWhitespace(s[0]) && RunLength(s) < |s|
    ensures var n := RunLength(s); Glued(s, t) == [s[..n]] + Glued(s[n..], t)
  {
    var n := RunLength(s);
    SameEnd(s, n);
    if EndsOpen(s) {
      LastCharacter(s[n..]);
    }
    assert Tokens(s) == [s[..n]] + Tokens(s[n..]);
    GlueBehind(s[..n], Tokens(s[n..]), t, EndsOpen(s));
  }

  lemma SameEnd(s: string, n: nat)
    requires n < |s|
    ensures EndsOpen(s[n..]) == EndsOpen(s)
  {
    assert s[n..][|s[n..]| - 1] == s[|s| - 1];
  }

  lemma GlueBehind(first: string, tokens: seq<string>, t: string, onto: bool)
    requires onto ==> tokens != []
    ensures Glue([first] + tokens, t, onto) == [first] + Glue(tokens, t, onto)
  {
    if onto {
      assert ([first] + tokens)[..|tokens|] == [first] + tokens[..|tokens| - 1];
    }
  }

  lemma {:induction false} LastCharacter(s: string)
    requires EndsOpen(s)
    ensures Tokens(s) != []
    decreases |s|
  {
    if IsWhitespace(s[0]) {
      LastCharacter(s[1..]);
    }
  }

  lemma AppendedTokens(open: string, form: string, keyType: string, key: Bytes)
    requires IsToken(form) && IsToken(keyType)
    ensures Tokens(open + LineOf(form, keyType, key)) ==
            Glued(open, form) + (if key == [] then [keyType] else [keyType, Encode(key)])
  {
    EncodeEmpty(key);
    if key != [] {
      KeyTextIsToken(key);
      LastToken(Encode(key));
    }
    FirstToken(keyType, Encode(key));
    TokensGlue(open, form, keyType + " " + Encode(key));
  }

  // ----- the condition -----

  /** A lone marker, with white space after it. */
  predicate BareMarker(s: string)
  {
    |Tokens(s)| == 1 && StartsWith(Tokens(s)[0], "@") && IsWhitespace(s[|s| - 1])
  }

  /** The unfinished line of the file leaves room for a whole entry. */
  predicate Fit(text: string)
  {
    AllWhite(OpenLine(text)) || BareMarker(OpenLine(text))
  }

  lemma {:induction false} BlankIff(s: string)
    ensures AllWhite(s) <==> Tokens(s) == []
    decreases |s|
  {
    if s != "" && IsWhitespace(s[0]) {
      BlankIff(s[1..]);
      assert forall i :: 1 <= i < |s| ==> s[i] == s[1..][i - 1];
    }
  }

  /** Reloading keeps every clean entry appended to this file. */
  ghost predicate KeepsEveryAppend(text: string)
  {
    forall form, keyType, key :: Clean(form, keyType, key) ==> Survives(text, form, keyType, key)
  }

  /** For a clean entry, an append survives if and only if the unfinished line was no entry and now is this one. */
  lemma SurvivesByLine(text: string, form: string, keyType: string, key: Bytes)
    requires Clean(form, keyType, key)
    ensures Survives(text, form, keyType, key) <==>
            && ParseLine(OpenLine(text)) == None
            && ParseLine(OpenLine(text) + LineOf(form, keyType, key)) == Some(EntryOf(form, keyType, key))
  {
    EntriesSplit(text);
    KeyTypesAreTokens(keyType);
    EntriesAfterAppend(text, form, keyType, key);
    var before, entry := EntriesOf(FullLines(text)), EntryOf(form, keyType, key);
    var p, q := Parsed(OpenLine(text)), Parsed(OpenLine(text) + LineOf(form, keyType, key));
    OnePerLine(before, p, q, entry);
  }

  lemma OnePerLine(before: seq<HostEntry>, p: seq<HostEntry>, q: seq<HostEntry>, entry: HostEntry)
    requires |p| <= 1 && |q| <= 1
    ensures before + q == before + p + [entry] <==> p == [] && q == [entry]
  {
    if before + q == before + p + [entry] {
      assert |before + q| == |before + p + [entry]|;
      assert (before + q)[|before|] == entry;
    }
  }

  lemma FitSurvives(text: string, form: string, keyType: string, key: Bytes)
    requires Fit(text) && Clean(form, keyType, key)
    ensures Survives(text, form, keyType, key)
  {
    var open, line := OpenLine(text), LineOf(form, keyType, key);
    SurvivesByLine(text, form, keyType, key);
    LineIsItsTokens(open);
    LineIsItsTokens(open + line);
    KeyTypesAreTokens(keyType);
    AppendedTokens(open, form, keyType, key);
    if AllWhite(open) {
      AfterBlank(open, form, keyType, key);
    } else {
      AfterMarker(open, form, keyType, key);
    }
  }

  lemma AfterBlank(open: string, form: string, keyType: string, key: Bytes)
    requires AllWhite(open) && Clean(form, keyType, key)
    ensures ParseByTokens(Tokens(open)) == None
    ensures ParseByTokens(Glued(open, form) + [keyType, Encode(key)]) == Some(EntryOf(form, keyType, key))
  {
    BlankIff(open);
    ParsePrintedTokens(form, keyType, key);
    assert Glued(open, form) == [form];
    assert [form] + [keyType, Encode(key)] == [form, keyType, Encode(key)];
  }

  lemma AfterMarker(open: string, form: string, keyType: string, key: Bytes)
    requires BareMarker(open) && Clean(form, keyType, key)
    ensures ParseByTokens(Tokens(open)) == None
    ensures ParseByTokens(Glued(open, form) + [keyType, Encode(key)]) == Some(EntryOf(form, keyType, key))
  {
    var marker := Tokens(open)[0];
    assert Tokens(open) == [marker];
    assert Glued(open, form) == [marker, form];
    assert [marker, form] + [keyType, Encode(key)] == [marker, form, keyType, Encode(key)];
    MarkerSkipped(marker, [form, keyType, Encode(key)]);
    ParsePrintedTokens(form, keyType, key);
  }

  lemma MarkerSkipped(marker: string, rest: seq<string>)
    requires StartsWith(marker, "@") && rest != [] && !StartsWith(rest[0], "@")
    ensures ParseByTokens([marker] + rest) == ParseTokens(rest) && ParseByTokens([marker]) == None
  {
    assert marker[0] == '@' && "#"[0] == '#';
    assert ([marker] + rest)[1..] == rest;
  }

  const WITNESS_KEY: Bytes := [0]

  lemma WitnessIsClean()
    ensures Clean("h", "ssh-rsa", WITNESS_KEY) && Encode(WITNESS_KEY) == "AA=="
  {
    assert Group(0, 0, 0)[..2] == "AA";
    assert "h"[0] == 'h' && "#"[0] == '#' && "@"[0] == '@';
  }

  /** Where the host form stands: behind a marker or first. */
  function FormAt(tokens: seq<string>): nat
  {
    if tokens != [] && StartsWith(tokens[0], "@") then 1 else 0
  }

  /** The three tokens of the witness, one after the other. */
  predicate WitnessAt(tokens: seq<string>, k: nat)
  {
    |tokens| >= k + 3 && tokens[k] == "h" && tokens[k + 1] == "ssh-rsa" && tokens[k + 2] == "AA=="
  }

  lemma WitnessFound(tokens: seq<string>)
    requires ParseTokens(tokens) == Some(EntryOf("h", "ssh-rsa", WITNESS_KEY))
    ensures WitnessAt(tokens, FormAt(tokens))
  {
    WitnessIsClean();
    FormOfPattern(tokens[FormAt(tokens)..][0], "h");
  }

  lemma WitnessParses(tokens: seq<string>)
    requires WitnessAt(tokens, FormAt(tokens))
    ensures ParseTokens(tokens) != None
  {
    WitnessIsClean();
    Base64RoundTrip(WITNESS_KEY);
    var rest := tokens[FormAt(tokens)..];
    assert rest[0] == "h" && rest[1] == "ssh-rsa" && rest[2] == "AA==";
    assert ParsePattern("h") != None;
  }

  /** Only a lone marker, or nothing, can stand before the tokens of the witness line. */
  lemma WitnessShape(front: seq<string>, x: string, tokens: seq<string>)
    requires tokens == if x == "" then front else front + [x]
    requires ParseByTokens(tokens) == None
    requires ParseByTokens(front + [x + "h", "ssh-rsa", "AA=="]) == Some(EntryOf("h", "ssh-rsa", WITNESS_KEY))
    ensures x == "" && |front| <= 1 && (front != [] ==> StartsWith(front[0], "@"))
  {
    var all := front + [x + "h", "ssh-rsa", "AA=="];
    WitnessFound(all);
    OnlyHere(front, x, FormAt(all));
    if |front| >= FormAt(all) + 3 {
      assert FormAt(tokens) == FormAt(all) && tokens[0] == all[0];
      WitnessParses(tokens);
    }
  }

  /** The token the form was put onto ends in `h`: it is the form itself, or stands beyond the entry. */
  lemma OnlyHere(front: seq<string>, x: string, k: nat)
    requires k <= 1 && WitnessAt(front + [x + "h", "ssh-rsa", "AA=="], k)
    ensures |front| >= k + 3 || (|front| == k && x == "")
    ensures |front| >= k + 3 ==> WitnessAt(front, k)
  {
    var all := front + [x + "h", "ssh-rsa", "AA=="];
    assert all[|front|] == x + "h" && (x + "h")[|x|] == 'h';
    assert forall i :: 0 <= i < |front| ==> all[i] == front[i];
    assert "ssh-rsa"[6] == 'a' && "AA=="[3] == '=';
    assert x + "h" != "ssh-rsa" && x + "h" != "AA==";
  }

  lemma WitnessTokens(open: string)
    requires ParseByTokens(Tokens(open)) == None
    requires ParseByTokens(Glued(open, "h") + ["ssh-rsa", "AA=="]) == Some(EntryOf("h", "ssh-rsa", WITNESS_KEY))
    ensures AllWhite(open) || BareMarker(open)
  {
    var tokens := Tokens(open);
    BlankIff(open);
    if tokens != [] {
      if EndsOpen(open) {
        assert IsToken(tokens[|tokens| - 1]);
        WitnessOnto(tokens);
      } else {
        WitnessBehind(tokens);
      }
    }
  }

  /** Put right onto a token, the witness is not read back. */
  lemma WitnessOnto(tokens: seq<string>)
    requires tokens != [] && tokens[|tokens| - 1] != "" && ParseByTokens(tokens) == None
    ensures ParseByTokens(Glue(tokens, "h", true) + ["ssh-rsa", "AA=="]) != Some(EntryOf("h", "ssh-rsa", WITNESS_KEY))
  {
    var n := |tokens| - 1;
    assert Glue(tokens, "h", true) + ["ssh-rsa", "AA=="] == tokens[..n] + [tokens[n] + "h", "ssh-rsa", "AA=="];
    assert tokens == tokens[..n] + [tokens[n]];
    if ParseByTokens(Glue(tokens, "h", true) + ["ssh-rsa", "AA=="]) == Some(EntryOf("h", "ssh-rsa", WITNESS_KEY)) {
      WitnessShape(tokens[..n], tokens[n], tokens);
      assert false;
    }
  }

  lemma WitnessBehind(tokens: seq<string>)
    requires tokens != [] && ParseByTokens(tokens) == None
    requires ParseByTokens(Glue(tokens, "h", false) + ["ssh-rsa", "AA=="]) == Some(EntryOf("h", "ssh-rsa", WITNESS_KEY))
    ensures |tokens| == 1 && StartsWith(tokens[0], "@")
  {
    assert "" + "h" == "h";
    assert Glue(tokens, "h", false) + ["ssh-rsa", "AA=="] == tokens + ["" + "h", "ssh-rsa", "AA=="];
    WitnessShape(tokens, "", tokens);
  }

  lemma WitnessNeedsRoom(text: string)
    requires Survives(text, "h", "ssh-rsa", WITNESS_KEY)
    ensures Fit(text)
  {
    var open := OpenLine(text);
    WitnessIsClean();
    SurvivesByLine(text, "h", "ssh-rsa", WITNESS_KEY);
    LineIsItsTokens(open);
    LineIsItsTokens(open + LineOf("h", "ssh-rsa", WITNESS_KEY));
    KeyTypesAreTokens("ssh-rsa");
    AppendedTokens(open, "h", "ssh-rsa", WITNESS_KEY);
    WitnessTokens(open);
  }

  /** For every file: each clean append survives a reload if and only if the last line is finished, blank, or a bare
      marker followed by white space. */
  lemma EveryAppendSurvivesIff(text: string)
    ensures KeepsEveryAppend(text) <==> Fit(text)
  {
    if Fit(text) {
      forall form, keyType, key | Clean(form, keyType, key) ensures Survives(text, form, keyType, key) {
        FitSurvives(text, form, keyType, key);
      }
    } else if KeepsEveryAppend(text) {
      WitnessIsClean();
      WitnessNeedsRoom(text);
    }
  }

  /** A finished file is fit, and an appended one is finished. */
  lemma AppendedIsFit(text: string, form: string, keyType: string, key: Bytes)
    ensures Terminated(text) ==> Fit(text)
    ensures Fit(text + LineOf(form, keyType, key) + "\n")
  {
    var after := text + LineOf(form, keyType, key) + "\n";
    TerminatedIff(text);
    TerminatedIff(after);
  }

  // ----- lines a reload drops -----

  /** The key types and keys a reload keeps. */
  predicate Lasts(keyType: string, key: Bytes)
  {
    IsKnownKeyType(keyType) && key != []
  }

  lemma LostTokens(open: string, form: string, rest: seq<string>)
    requires (AllWhite(open) || BareMarker(open)) && CleanForm(form)
    requires |rest| <= 2 && (|rest| == 2 ==> !IsKnownKeyType(rest[0]))
    ensures ParseByTokens(Tokens(open)) == None && ParseByTokens(Glued(open, form) + rest) == None
  {
    BlankIff(open);
    assert [form] + rest != [];
    if AllWhite(open) {
      assert Glued(open, form) == [form];
      assert ([form] + rest)[1..] == rest;
    } else {
      var marker := Tokens(open)[0];
      assert Tokens(open) == [marker];
      assert Glued(open, form) + rest == [marker] + ([form] + rest);
      MarkerSkipped(marker, [form] + rest);
    }
  }

  /** A clean host form with a key type that is not listed, or with no key: the line is
      written, and no reload keeps it. */
  lemma LostAppend(text: string, form: string, keyType: string, key: Bytes)
    requires Fit(text) && CleanForm(form) && IsToken(keyType) && !Lasts(keyType, key)
    ensures Entries(text + LineOf(form, keyType, key) + "\n") == Entries(text)
  {
    var open, line := OpenLine(text), LineOf(form, keyType, key);
    EntriesSplit(text);
    EntriesAfterAppend(text, form, keyType, key);
    LineIsItsTokens(open);
    LineIsItsTokens(open + line);
    AppendedTokens(open, form, keyType, key);
    LostTokens(open, form, if key == [] then [keyType] else [keyType, Encode(key)]);
  }

  /** What `load` keeps of a file. */
  predicate Lasting(e: HostEntry)
  {
    IsKnownKeyType(e.keyType) &&
    match Decode(e.keyText)
    case Some(key) => key != []
    case None => false
  }

  lemma {:induction false} LoadedAreLasting(lines: seq<string>)
    ensures forall e :: e in EntriesOf(lines) ==> Lasting(e)
  {
    if lines != [] {
      LoadedAreLasting(lines[..|lines| - 1]);
    }
  }

  lemma RecordedLasts(form: string, keyType: string, key: Bytes)
    ensures Lasting(EntryOf(form, keyType, key)) <==> Lasts(keyType, key)
  {
    Base64RoundTrip(key);
  }
}
