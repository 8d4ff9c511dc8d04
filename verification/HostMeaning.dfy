/** What a known_hosts line says: its text, the names it is for and the keys it lets pass. */
module HostMeaning {
  import opened Common
  import opened Text
  import Yaml
  import opened ManifestBodies
  import opened Base64
  import opened HostLines
  import opened HostAppend
  import opened KnownHosts

  // ----- the words of a line -----

  /** The line is white space, then the words with white space between them, then `tail`, which starts white. */
  ghost predicate Spelled(line: string, words: seq<string>, tail: string)
    decreases |words|
  {
    if words == [] then line == tail && (tail == "" || IsWhitespace(tail[0]))
    else
      exists front, rest ::
        AllWhite(front) && IsToken(words[0]) && line == front + words[0] + rest
        && (rest == "" || IsWhitespace(rest[0])) && Spelled(rest, words[1..], tail)
  }

  lemma {:induction false} WhiteFront(front: string, rest: string)
    requires AllWhite(front)
    ensures Tokens(front + rest) == Tokens(rest)
    decreases |front|
  {
    if front == "" {
      assert front + rest == rest;
    } else {
      assert (front + rest)[1..] == front[1..] + rest;
      WhiteFront(front[1..], rest);
    }
  }

  lemma WordFront(front: string, word: string, rest: string)
    requires AllWhite(front) && IsToken(word) && (rest == "" || IsWhitespace(rest[0]))
    ensures Tokens(front + word + rest) == [word] + Tokens(rest)
  {
    var s := word + rest;
    assert front + word + rest == front + s;
    WhiteFront(front, s);
    RunOfToken(word, rest);
    assert s[0] == word[0] && s[..|word|] == word && s[|word|..] == rest;
  }

  lemma FirstWord(line: string, words: seq<string>, tail: string) returns (front: string, rest: string)
    requires words != [] && Spelled(line, words, tail)
    ensures AllWhite(front) && IsToken(words[0]) && line == front + words[0] + rest
    ensures (rest == "" || IsWhitespace(rest[0])) && Spelled(rest, words[1..], tail)
  {
    front, rest :|
      AllWhite(front) && IsToken(words[0]) && line == front + words[0] + rest
      && (rest == "" || IsWhitespace(rest[0])) && Spelled(rest, words[1..], tail);
  }

  /** The words a line is spelled with are its first tokens. */
  lemma {:induction false} SpelledTokens(line: string, words: seq<string>, tail: string)
    requires Spelled(line, words, tail)
    ensures Tokens(line) == words + Tokens(tail)
    decreases |words|
  {
    if words == [] {
      assert words + Tokens(tail) == Tokens(tail);
    } else {
      var front, rest := FirstWord(line, words, tail);
      SpelledTokens(rest, words[1..], tail);
      WordFront(front, words[0], rest);
      OneMore(words, Tokens(tail));
    }
  }

  lemma OneMore(words: seq<string>, more: seq<string>)
    requires words != []
    ensures [words[0]] + (words[1..] + more) == words + more
  {
  }

  /** A text that starts with a token. */
  lemma TokenFront(s: string)
    requires s != "" && !IsWhitespace(s[0])
    ensures var n := RunLength(s);
            && IsToken(s[..n]) && s == s[..n] + s[n..] && (s[n..] == "" || IsWhitespace(s[n..][0]))
            && Tokens(s) == [s[..n]] + Tokens(s[n..])
  {
  }

  lemma LongerFront(s: string, front: string, word: string, rest: string)
    requires s != "" && IsWhitespace(s[0]) && AllWhite(front) && s[1..] == front + word + rest
    ensures AllWhite([s[0]] + front) && s == [s[0]] + front + word + rest
  {
    assert s == [s[0]] + s[1..];
    assert [s[0]] + (front + word + rest) == [s[0]] + front + word + rest;
  }

  /** Taking the first token off a text. */
  lemma {:induction false} FirstOff(s: string) returns (front: string, rest: string)
    requires Tokens(s) != []
    ensures AllWhite(front) && IsToken(Tokens(s)[0]) && s == front + Tokens(s)[0] + rest
    ensures (rest == "" || IsWhitespace(rest[0])) && Tokens(rest) == Tokens(s)[1..]
    decreases |s|
  {
    if IsWhitespace(s[0]) {
      front, rest := FirstOff(s[1..]);
      LongerFront(s, front, Tokens(s)[0], rest);
      front := [s[0]] + front;
    } else {
      TokenFront(s);
      front, rest := "", s[RunLength(s)..];
    }
  }

  /** A line is spelled with any number of its first tokens. */
  lemma {:induction false} TokensSpell(line: string, n: nat) returns (tail: string)
    requires n <= |Tokens(line)| && (n == 0 ==> line == "" || IsWhitespace(line[0]))
    ensures Spelled(line, Tokens(line)[..n], tail)
    decreases n
  {
    if n == 0 {
      tail := line;
    } else {
      var tokens := Tokens(line);
      var front, rest := FirstOff(line);
      tail := TokensSpell(rest, n - 1);
      assert tokens[..n][1..] == tokens[1..][..n - 1];
      assert tokens[..n][0] == tokens[0];
    }
  }

  // ----- the entry of a line -----

  const KEY_TYPES: set<string> := {
    "ssh-rsa", "ssh-dss", "ssh-ed25519", "ssh-ed448",
    "ecdsa-sha2-nistp256", "ecdsa-sha2-nistp384", "ecdsa-sha2-nistp521",
    "sk-ecdsa-sha2-nistp256@openssh.com", "sk-ssh-ed25519@openssh.com"}

  lemma KeyTypesAre(t: string)
    ensures IsKnownKeyType(t) <==> t in KEY_TYPES
  {
  }

  /** `|1|salt|hash`, both in base64 (more bars may follow), or names separated by commas. */
  ghost predicate NamesHosts(word: string, pattern: HostPattern)
  {
    match pattern
    case Hashed(salt, hash) =>
      var whole := "|1|" + Encode(salt) + "|" + Encode(hash);
      word == whole || whole + "|" <= word
    case Plain(names) =>
      !("|1|" <= word) && names != [] && word == Join(names, ',') && forall n :: n in names ==> ',' !in n
  }

  /** Hosts, a listed key type and a non-empty key in base64. */
  ghost predicate Fields(words: seq<string>, e: HostEntry)
    requires |words| == 3
  {
    && NamesHosts(words[0], e.pattern)
    && words[1] == e.keyType && e.keyType in KEY_TYPES
    && words[2] == e.keyText && exists key :: key != [] && e.keyText == Encode(key)
  }

  /** The line holds the entry: it is no comment, and has the three fields, in front of which a marker may stand;
      what follows them is ignored. */
  ghost predicate Holds(line: string, e: HostEntry)
  {
    || (exists words, tail :: Spelled(line, words, tail) && |words| == 3 && Fields(words, e) && !Marked(words[0]))
    || (exists words, tail :: Spelled(line, words, tail) && |words| == 4 && Fields(words[1..], e) && "@" <= words[0])
  }

  predicate Marked(word: string)
  {
    "@" <= word || "#" <= word
  }

  lemma NamesAreRead(word: string, names: seq<string>)
    requires !("|1|" <= word)
    ensures ParsePattern(word) == Some(Plain(names)) <==> NamesHosts(word, Plain(names))
  {
    JoinSplit(word, ',');
    if NamesHosts(word, Plain(names)) {
      SplitJoin(names, ',');
    }
  }

  lemma NoBarInside(b: Bytes)
    ensures '|' !in Encode(b)
  {
    EncodedAlphabet(b);
    forall i | 0 <= i < |Encode(b)| ensures Encode(b)[i] != '|' {
      assert InAlphabet(Encode(b)[i]);
    }
  }

  /** The part before the first bar, and the one after it. */
  lemma SplitAtBars(text: string, salt: string, hash: string)
    requires '|' !in salt && '|' !in hash
    ensures (|Split(text, '|')| >= 2 && Split(text, '|')[0] == salt && Split(text, '|')[1] == hash) <==>
            (text == salt + "|" + hash || salt + "|" + hash + "|" <= text)
  {
    var parts, both := Split(text, '|'), salt + "|" + hash;
    JoinSplit(text, '|');
    if |parts| >= 2 && parts[0] == salt && parts[1] == hash {
      assert parts[1..][0] == hash && |parts[1..]| == |parts| - 1;
      if |parts| == 2 {
        assert text == salt + ['|'] + hash;
      } else {
        var rest := Join(parts[1..][1..], '|');
        assert text == salt + ['|'] + (hash + ['|'] + rest);
        assert text == both + "|" + rest;
      }
    }
    if text == both {
      SplitFirst(salt, hash, '|');
      SplitPlain(hash, '|');
      assert both == salt + ['|'] + hash;
    }
    if both + "|" <= text {
      var rest := text[|both| + 1..];
      assert text == salt + ['|'] + (hash + ['|'] + rest);
      SplitFirst(salt, hash + ['|'] + rest, '|');
      SplitFirst(hash, rest, '|');
    }
  }

  lemma HashIsRead(word: string, salt: Bytes, hash: Bytes)
    requires "|1|" <= word
    ensures ParsePattern(word) == Some(Hashed(salt, hash)) <==> NamesHosts(word, Hashed(salt, hash))
  {
    var text := word[3..];
    NoBarInside(salt);
    NoBarInside(hash);
    SplitAtBars(text, Encode(salt), Encode(hash));
    var parts := Split(text, '|');
    if |parts| >= 2 {
      Base64Canonical(parts[0], salt);
      Base64Canonical(parts[1], hash);
    }
    BehindPrefix(word, Encode(salt) + "|" + Encode(hash));
    assert "|1|" + Encode(salt) + "|" + Encode(hash) == "|1|" + (Encode(salt) + "|" + Encode(hash));
  }

  lemma BehindPrefix(word: string, both: string)
    requires "|1|" <= word
    ensures word[3..] == both <==> word == "|1|" + both
    ensures both + "|" <= word[3..] <==> "|1|" + both + "|" <= word
  {
    assert word == "|1|" + word[3..];
    assert "|1|" + both + "|" == "|1|" + (both + "|");
    assert ("|1|" + (both + "|"))[3..] == both + "|";
    if "|1|" + both + "|" <= word {
      assert both + "|" == word[..|both| + 4][3..];
    }
    assert ("|1|" + both)[3..] == both;
  }

  lemma PatternIsRead(word: string, pattern: HostPattern)
    ensures ParsePattern(word) == Some(pattern) <==> NamesHosts(word, pattern)
  {
    match pattern
    case Plain(names) =>
      if !("|1|" <= word) {
        NamesAreRead(word, names);
      }
    case Hashed(salt, hash) =>
      if "|1|" <= word {
        HashIsRead(word, salt, hash);
      } else {
        assert "|1|" <= "|1|" + Encode(salt) + "|" + Encode(hash);
      }
  }

  lemma FieldsAreRead(words: seq<string>, e: HostEntry)
    requires |words| == 3
    ensures (IsKnownKeyType(words[1]) && ParsePattern(words[0]) == Some(e.pattern) && words[1] == e.keyType &&
             words[2] == e.keyText && Decode(words[2]).Some? && Decode(words[2]).value != []) <==> Fields(words, e)
  {
    PatternIsRead(words[0], e.pattern);
    KeyTypesAre(words[1]);
    if Decode(words[2]).Some? {
      Base64Canonical(words[2], Decode(words[2]).value);
    }
    if Fields(words, e) {
      var key :| key != [] && e.keyText == Encode(key);
      Base64Canonical(words[2], key);
    }
  }

  lemma RestIsRead(tokens: seq<string>, e: HostEntry)
    ensures var rest := if tokens != [] && "@" <= tokens[0] then tokens[1..] else tokens;
            ParseTokens(tokens) == Some(e) <==> |rest| >= 3 && Fields(rest[..3], e)
  {
    var rest := if tokens != [] && "@" <= tokens[0] then tokens[1..] else tokens;
    if |rest| >= 3 {
      FieldsAreRead(rest[..3], e);
    }
  }

  lemma PlainLineIsRead(line: string, words: seq<string>, tail: string, e: HostEntry)
    requires Spelled(line, words, tail) && |words| == 3 && Fields(words, e) && !Marked(words[0])
    ensures ParseLine(line) == Some(e)
  {
    LineIsItsTokens(line);
    SpelledTokens(line, words, tail);
    FirstWords(words, Tokens(tail), 0);
    RestIsRead(Tokens(line), e);
  }

  lemma MarkedTokensAreRead(tokens: seq<string>, e: HostEntry)
    requires |tokens| >= 4 && "@" <= tokens[0] && Fields(tokens[1..][..3], e)
    ensures ParseByTokens(tokens) == Some(e)
  {
    RestIsRead(tokens, e);
    assert tokens[0][0] == '@';
  }

  lemma MarkedLineIsRead(line: string, words: seq<string>, tail: string, e: HostEntry)
    requires Spelled(line, words, tail) && |words| == 4 && Fields(words[1..], e) && "@" <= words[0]
    ensures ParseLine(line) == Some(e)
  {
    LineIsItsTokens(line);
    SpelledTokens(line, words, tail);
    FirstWords(words, Tokens(tail), 1);
    MarkedTokensAreRead(words + Tokens(tail), e);
  }

  lemma FirstWords(words: seq<string>, more: seq<string>, n: nat)
    requires |words| == n + 3
    ensures (words + more)[0] == words[0] && |(words + more)[n..]| >= 3 && (words + more)[n..][..3] == words[n..]
  {
  }

  lemma HeldIsRead(line: string, e: HostEntry)
    requires Holds(line, e)
    ensures ParseLine(line) == Some(e)
  {
    if words, tail :| Spelled(line, words, tail) && |words| == 3 && Fields(words, e) && !Marked(words[0]) {
      PlainLineIsRead(line, words, tail, e);
    } else {
      var words, tail :| Spelled(line, words, tail) && |words| == 4 && Fields(words[1..], e) && "@" <= words[0];
      MarkedLineIsRead(line, words, tail, e);
    }
  }

  lemma ReadIsHeld(line: string, e: HostEntry)
    requires ParseLine(line) == Some(e)
    ensures Holds(line, e)
  {
    LineIsItsTokens(line);
    var tokens := Tokens(line);
    RestIsRead(tokens, e);
    var n := if "@" <= tokens[0] then 4 else 3;
    var tail := TokensSpell(line, n);
    SpelledHolds(line, tokens[..n], tail, e);
  }

  lemma SpelledHolds(line: string, words: seq<string>, tail: string, e: HostEntry)
    requires Spelled(line, words, tail) && words != [] && !("#" <= words[0])
    requires |words| == if "@" <= words[0] then 4 else 3
    requires Fields(words[|words| - 3..], e)
    ensures Holds(line, e)
  {
    assert |words| == 3 ==> words[0..] == words;
  }

  /** A line is read as an entry exactly when it holds it. */
  lemma LineMeans(line: string, e: HostEntry)
    ensures ParseLine(line) == Some(e) <==> Holds(line, e)
  {
    if Holds(line, e) {
      HeldIsRead(line, e);
    }
    if ParseLine(line) == Some(e) {
      ReadIsHeld(line, e);
    }
  }

  // ----- the lines of a file -----

  lemma FullLinesCons(text: string, a: string, rest: string)
    requires Split(text, '\n') == [a] + Split(rest, '\n')
    ensures FullLines(text) == [DropReturn(a)] + FullLines(rest) && OpenLine(text) == OpenLine(rest)
  {
    var full, more := FullLines(text), [DropReturn(a)] + FullLines(rest);
    assert |full| == |more|;
    forall i | 0 <= i < |full| ensures full[i] == more[i] {
    }
  }

  lemma LinesCons(a: string, rest: string)
    requires '\n' !in a
    ensures Lines(a + "\n" + rest) == [DropReturn(a)] + Lines(rest)
  {
    assert a + "\n" + rest == a + ['\n'] + rest;
    SplitFirst(a, rest, '\n');
    FullLinesCons(a + "\n" + rest, a, rest);
    AppendTwice([DropReturn(a)], FullLines(rest), if OpenLine(rest) == "" then [] else [OpenLine(rest)],
                FullLines(a + "\n" + rest), Lines(a + "\n" + rest));
  }

  /** A line ends at a newline, or at a carriage return and a newline; the last one may be unfinished. */
  lemma LinesAre(a: string, rest: string)
    requires '\n' !in a
    ensures a == "" || a[|a| - 1] != '\r' ==> Lines(a + "\n" + rest) == [a] + Lines(rest)
    ensures Lines(a + "\r\n" + rest) == [a] + Lines(rest)
    ensures Lines(a) == if a == "" then [] else [a]
  {
    LinesCons(a, rest);
    LinesCons(a + "\r", rest);
    assert a + "\r\n" + rest == (a + "\r") + "\n" + rest;
    assert (a + "\r")[..|a|] == a;
    SplitPlain(a, '\n');
    assert FullLines(a) == [];
  }

  ghost predicate HeldBySome(lines: seq<string>, e: HostEntry)
  {
    exists i :: 0 <= i < |lines| && Holds(lines[i], e)
  }

  lemma HeldSnoc(lines: seq<string>, e: HostEntry)
    requires lines != []
    ensures HeldBySome(lines, e) <==> HeldBySome(lines[..|lines| - 1], e) || Holds(lines[|lines| - 1], e)
  {
    assert forall i :: 0 <= i < |lines| - 1 ==> lines[..|lines| - 1][i] == lines[i];
  }

  lemma {:induction false} EntryFromLine(lines: seq<string>, e: HostEntry)
    ensures e in EntriesOf(lines) <==> HeldBySome(lines, e)
  {
    if lines != [] {
      var n := |lines| - 1;
      EntryFromLine(lines[..n], e);
      LineMeans(lines[n], e);
      HeldSnoc(lines, e);
      assert e in Parsed(lines[n]) <==> ParseLine(lines[n]) == Some(e);
    }
  }

  // ----- the verdict -----

  /** A host goes by its bare name on any port, and by the bracketed name and port on a port other than 22. */
  predicate Called(name: string, host: string, port: Port)
  {
    name == host || (port != 22 && name == "[" + host + "]:" + Yaml.NatToString(port))
  }

  /** A pattern is for its names, or for the names whose hash under the salt it gives. */
  predicate IsForName(mac: Mac, pattern: HostPattern, name: string)
  {
    match pattern
    case Plain(names) => name in names
    case Hashed(salt, hash) => mac(salt, name) == hash
  }

  ghost predicate IsFor(mac: Mac, e: HostEntry, host: string, port: Port)
  {
    exists name :: Called(name, host, port) && IsForName(mac, e.pattern, name)
  }

  lemma AppliesIsFor(mac: Mac, e: HostEntry, host: string, port: Port, keyType: string)
    ensures Applies(mac, e, LookupForms(host, port), keyType) <==> IsFor(mac, e, host, port) && e.keyType == keyType
  {
    var forms := LookupForms(host, port);
    assert forall name :: name in forms <==> Called(name, host, port);
    if PatternMatches(mac, e.pattern, forms) {
      var name :| name in forms && IsForName(mac, e.pattern, name);
    }
    if IsFor(mac, e, host, port) {
      var name :| Called(name, host, port) && IsForName(mac, e.pattern, name);
      assert name in forms;
    }
  }

  /** Some line holds an entry for the host and the key type. */
  ghost predicate LinesKnow(mac: Mac, lines: seq<string>, host: string, port: Port, keyType: string)
  {
    exists i, e :: 0 <= i < |lines| && Holds(lines[i], e) && IsFor(mac, e, host, port) && e.keyType == keyType
  }

  /** Some such line holds this very key. */
  ghost predicate LinesTrust(mac: Mac, lines: seq<string>, host: string, port: Port, keyType: string, key: Bytes)
  {
    exists i, e :: 0 <= i < |lines| && Holds(lines[i], e) && IsFor(mac, e, host, port) && e.keyType == keyType &&
      e.keyText == Encode(key)
  }

  /** What a file loaded from `text` says of a key: `Match` when a line holds it for the host, `Mismatch` when lines for
      the host hold other keys of the type only, else `Unknown`. */
  lemma VerdictOfText(mac: Mac, text: string, host: string, port: Port, keyType: string, key: Bytes)
    ensures Status(mac, Entries(text), LookupForms(host, port), keyType, key) ==
            if LinesTrust(mac, Lines(text), host, port, keyType, key) then Match
            else if LinesKnow(mac, Lines(text), host, port, keyType) then Mismatch
            else Unknown
  {
    TrustIsOfLines(mac, text, host, port, keyType, key);
    KnowledgeIsOfLines(mac, text, host, port, keyType);
  }

  lemma KnowledgeIsOfLines(mac: Mac, text: string, host: string, port: Port, keyType: string)
    ensures Known(mac, Entries(text), LookupForms(host, port), keyType) <==>
            LinesKnow(mac, Lines(text), host, port, keyType)
  {
    var lines, forms := Lines(text), LookupForms(host, port);
    if Known(mac, Entries(text), forms, keyType) {
      var e :| e in Entries(text) && Applies(mac, e, forms, keyType);
      EntryFromLine(lines, e);
      AppliesIsFor(mac, e, host, port, keyType);
    }
    if LinesKnow(mac, lines, host, port, keyType) {
      var i, e :| 0 <= i < |lines| && Holds(lines[i], e) && IsFor(mac, e, host, port) && e.keyType == keyType;
      EntryFromLine(lines, e);
      AppliesIsFor(mac, e, host, port, keyType);
    }
  }

  lemma TrustIsOfLines(mac: Mac, text: string, host: string, port: Port, keyType: string, key: Bytes)
    ensures Trusted(mac, Entries(text), LookupForms(host, port), keyType, key) <==>
            LinesTrust(mac, Lines(text), host, port, keyType, key)
  {
    var lines, forms := Lines(text), LookupForms(host, port);
    if Trusted(mac, Entries(text), forms, keyType, key) {
      var e :| e in Entries(text) && Applies(mac, e, forms, keyType) && Decode(e.keyText) == Some(key);
      EntryFromLine(lines, e);
      AppliesIsFor(mac, e, host, port, keyType);
      Base64Canonical(e.keyText, key);
    }
    if LinesTrust(mac, lines, host, port, keyType, key) {
      var i, e :| 0 <= i < |lines| && Holds(lines[i], e) && IsFor(mac, e, host, port) && e.keyType == keyType &&
        e.keyText == Encode(key);
      EntryFromLine(lines, e);
      AppliesIsFor(mac, e, host, port, keyType);
      Base64Canonical(e.keyText, key);
    }
  }

  // ----- what a recorded key reaches -----

  lemma PortsDiffer(host: string, port: Port, host': string, port': Port)
    ensures "[" + host + "]:" + Yaml.NatToString(port) == "[" + host' + "]:" + Yaml.NatToString(port') <==>
            host == host' && port == port'
  {
    var d, d' := Yaml.NatToString(port), Yaml.NatToString(port');
    DigitsRoundTrip(port);
    DigitsRoundTrip(port');
    if "[" + host + "]:" + d == "[" + host' + "]:" + d' {
      assert "[" + host + "]:" + d == "[" + host + "]" + ":" + d;
      assert "[" + host' + "]:" + d' == "[" + host' + "]" + ":" + d';
      SameTail("[" + host + "]", d, "[" + host' + "]", d');
      assert ("[" + host + "]")[1..|host| + 1] == host;
      assert ("[" + host' + "]")[1..|host'| + 1] == host';
    }
  }

  lemma LastColon(a: string, d: string)
    requires AllDigits(d)
    ensures (a + ":" + d)[|a|] == ':' && forall i :: |a| < i < |a + ":" + d| ==> (a + ":" + d)[i] != ':'
  {
    forall i | |a| < i < |a + ":" + d| ensures (a + ":" + d)[i] != ':' {
      assert (a + ":" + d)[i] == d[i - |a| - 1];
    }
  }

  lemma SameTail(a: string, d: string, a': string, d': string)
    requires AllDigits(d) && AllDigits(d') && a + ":" + d == a' + ":" + d'
    ensures a == a' && d == d'
  {
    var s := a + ":" + d;
    LastColon(a, d);
    LastColon(a', d');
    assert a == s[..|a|] && a' == s[..|a'|];
    assert d == s[|a| + 1..] && d' == s[|a'| + 1..];
  }

  /** A key recorded for one port of a host changes no verdict for its other ports, nor for a host of another name,
      unless that name is the bracketed one itself. */
  lemma OtherPortsKeepTheirVerdict(mac: Mac, s: Store, q: Query, other: Query)
    requires q.port != 22 && (q.host != other.host || q.port != other.port)
    requires other.host != "[" + q.host + "]:" + Yaml.NatToString(q.port)
    ensures StatusOf(mac, Record(s, q), other) == StatusOf(mac, s, other)
  {
    var form, forms := CanonicalForm(q.host, q.port), LookupForms(other.host, other.port);
    PortsDiffer(q.host, q.port, other.host, other.port);
    assert form !in forms;
    var e := EntryOf(form, q.keyType, q.key);
    assert !Applies(mac, e, forms, other.keyType);
    assert forall x :: x in Record(s, q).entries <==> x in s.entries || x == e;
  }
}
