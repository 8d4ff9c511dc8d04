/** JSON pointers (RFC 6901) for value paths. */
module Pointer {
  import opened Common
  import opened Yaml
  import opened Text
  import opened ListMap

  /** The reference token of a segment: a list-map element is named by its first key value. */
  function TokenOf(seg: Segment): string
  {
    match seg
    case Field(name) => name
    case Index(i) => NatToString(i)
    case Keyed(keys) => if keys == [] then "" else keys[0].1
  }

  function Tokens(path: Path): seq<string>
  {
    if path == [] then [] else [TokenOf(path[0])] + Tokens(path[1..])
  }

  /** Replace one character everywhere. */
  function Replace(s: string, c: char, with: string): string
  {
    if s == [] then "" else (if s[0] == c then with else [s[0]]) + Replace(s[1..], c, with)
  }

  function EscapePointer(s: string): string
  {
    Replace(Replace(s, '~', "~0"), '/', "~1")
  }

  method PathToJsonPointer(path: Path) returns (out: string)
    ensures out == Render(path)
  {
    out := "";
    for i := 0 to |path|
      invariant out + Render(path[i..]) == Render(path)
    {
      ghost var before, tail := out, Render(path[i + 1..]);
      out := PushToken(path[i], out);
      assert path[i..][1..] == path[i + 1..];
      AppendTwice(before, "/" + EscapePointer(TokenOf(path[i])), tail, out, out + tail);
    }
  }

  /** One segment, by kind. */
  method PushToken(seg: Segment, prefix: string) returns (out: string)
    ensures out == prefix + ("/" + EscapePointer(TokenOf(seg)))
  {
    out := prefix + "/";
    match seg {
      case Field(name) => out := out + EscapePointer(name);
      case Index(n) =>
        NumberNeedsNoEscape(n);
        out := out + NatToString(n);
      case Keyed(keys) =>
        var v := if keys == [] then "" else keys[0].1;
        out := out + EscapePointer(v);
    }
  }

  function Render(path: Path): string
  {
    if path == [] then "" else "/" + EscapePointer(TokenOf(path[0])) + Render(path[1..])
  }

  // ----- decoding, by sections 3 and 4 of RFC 6901 -----

  /** Replace a two-character sequence everywhere, left to right. */
  function ReplacePair(s: string, a: char, b: char, with: string): string
  {
    if |s| < 2 then s
    else if s[0] == a && s[1] == b then with + ReplacePair(s[2..], a, b, with)
    else [s[0]] + ReplacePair(s[1..], a, b, with)
  }

  /** First `~1`, then `~0`. */
  function Unescape(s: string): string
  {
    ReplacePair(ReplacePair(s, '~', '1', "/"), '~', '0', "~")
  }

  function Decode(pointer: string): seq<string>
  {
    var parts := Split(pointer, '/');
    UnescapeAll(parts[1..])
  }

  function UnescapeAll(parts: seq<string>): seq<string>
  {
    if parts == [] then [] else [Unescape(parts[0])] + UnescapeAll(parts[1..])
  }

  // ----- escaping one token -----

  /** Escaping as a character map. */
  function Escaped(s: string): string
  {
    if s == [] then ""
    else (if s[0] == '~' then "~0" else if s[0] == '/' then "~1" else [s[0]]) + Escaped(s[1..])
  }

  lemma {:induction false} ReplaceAppend(a: string, b: string, c: char, with: string)
    ensures Replace(a + b, c, with) == Replace(a, c, with) + Replace(b, c, with)
  {
    if a == [] {
      assert a + b == b;
    } else {
      var head, x, y := if a[0] == c then with else [a[0]], Replace(a[1..], c, with), Replace(b, c, with);
      ReplaceAppend(a[1..], b, c, with);
      assert (a + b)[1..] == a[1..] + b;
      AppendTwice(head, x, y, head + x, head + x + y);
    }
  }

  lemma ReplaceOne(c: char, d: char, with: string)
    ensures Replace([c], d, with) == if c == d then with else [c]
  {
    assert [c][1..] == [];
    assert with + [] == with && [c] + [] == [c];
  }

  lemma {:induction false} EscapeIsMap(s: string)
    ensures EscapePointer(s) == Escaped(s)
  {
    if s != [] {
      EscapeIsMap(s[1..]);
      var head := if s[0] == '~' then "~0" else [s[0]];
      ReplaceAppend(head, Replace(s[1..], '~', "~0"), '/', "~1");
      ReplaceOne(s[0], '/', "~1");
      if s[0] == '~' {
        assert "~0" == ['~'] + ['0'];
        ReplaceAppend(['~'], ['0'], '/', "~1");
        ReplaceOne('~', '/', "~1");
        ReplaceOne('0', '/', "~1");
      }
    }
  }

  /** The text between the two decoding passes: tildes still escaped, slashes back. */
  function HalfEscaped(s: string): string
  {
    if s == [] then "" else (if s[0] == '~' then "~0" else [s[0]]) + HalfEscaped(s[1..])
  }

  lemma PairSkips(c: char, rest: string, a: char, b: char, with: string)
    requires c != a || rest == [] || rest[0] != b
    ensures ReplacePair([c] + rest, a, b, with) == [c] + ReplacePair(rest, a, b, with)
  {
    assert ([c] + rest)[1..] == rest;
  }

  lemma PairHits(rest: string, a: char, b: char, with: string)
    ensures ReplacePair([a, b] + rest, a, b, with) == with + ReplacePair(rest, a, b, with)
  {
    assert ([a, b] + rest)[2..] == rest;
  }

  lemma {:induction false} FirstPass(s: string)
    ensures ReplacePair(Escaped(s), '~', '1', "/") == HalfEscaped(s)
  {
    if s != [] {
      var rest := Escaped(s[1..]);
      FirstPass(s[1..]);
      if s[0] == '~' {
        assert Escaped(s) == ['~'] + (['0'] + rest);
        PairSkips('~', ['0'] + rest, '~', '1', "/");
        PairSkips('0', rest, '~', '1', "/");
      } else if s[0] == '/' {
        assert Escaped(s) == ['~', '1'] + rest;
        PairHits(rest, '~', '1', "/");
      } else {
        PairSkips(s[0], rest, '~', '1', "/");
      }
    }
  }

  lemma {:induction false} SecondPass(s: string)
    ensures ReplacePair(HalfEscaped(s), '~', '0', "~") == s
  {
    if s != [] {
      var rest := HalfEscaped(s[1..]);
      SecondPass(s[1..]);
      if s[0] == '~' {
        assert HalfEscaped(s) == ['~', '0'] + rest;
        PairHits(rest, '~', '0', "~");
      } else {
        PairSkips(s[0], rest, '~', '0', "~");
      }
      assert s == [s[0]] + s[1..];
    }
  }

  lemma {:induction false} EscapedHasNoSlash(s: string)
    ensures '/' !in Escaped(s)
  {
    if s != [] {
      EscapedHasNoSlash(s[1..]);
    }
  }

  /** Decoding one token undoes escaping it. */
  lemma TokenRoundTrip(s: string)
    ensures Unescape(EscapePointer(s)) == s && '/' !in EscapePointer(s)
  {
    EscapeIsMap(s);
    FirstPass(s);
    SecondPass(s);
    EscapedHasNoSlash(s);
  }

  lemma {:induction false} PlainIsUnescaped(s: string)
    requires '~' !in s && '/' !in s
    ensures Escaped(s) == s
  {
    if s != [] {
      PlainIsUnescaped(s[1..]);
      assert s == [s[0]] + s[1..];
    }
  }

  lemma NumberNeedsNoEscape(n: nat)
    ensures EscapePointer(NatToString(n)) == NatToString(n)
  {
    EscapeIsMap(NatToString(n));
    PlainIsUnescaped(NatToString(n));
  }

  // ----- whole pointers -----

  /** Decoding a rendered path gives back its tokens. */
  lemma {:induction false} PointerRoundTrip(path: Path)
    ensures Decode(Render(path)) == Tokens(path)
  {
    SplitRendered(path);
    if path != [] {
      PointerRoundTrip(path[1..]);
      SplitRendered(path[1..]);
      var token := EscapePointer(TokenOf(path[0]));
      var parts := Split(Render(path), '/');
      TokenRoundTrip(TokenOf(path[0]));
      assert parts[1..] == [token] + Split(Render(path[1..]), '/')[1..];
      assert ([token] + Split(Render(path[1..]), '/')[1..])[1..] == Split(Render(path[1..]), '/')[1..];
    }
  }

  lemma SplitRendered(path: Path)
    ensures path == [] ==> Split(Render(path), '/') == [""]
    ensures path != [] ==>
              Split(Render(path), '/') == ["", EscapePointer(TokenOf(path[0]))] + Split(Render(path[1..]), '/')[1..]
  {
    if path != [] {
      TokenRoundTrip(TokenOf(path[0]));
      SplitToken(EscapePointer(TokenOf(path[0])), Render(path[1..]));
    }
  }

  lemma SplitToken(token: string, rest: string)
    requires '/' !in token && (rest != "" ==> rest[0] == '/')
    ensures Split("/" + token + rest, '/') == ["", token] + Split(rest, '/')[1..]
  {
    assert "/" + token + rest == "" + ['/'] + (token + rest);
    SplitFirst("", token + rest, '/');
    SplitTail(token, rest);
    assert [""] + ([token] + Split(rest, '/')[1..]) == ["", token] + Split(rest, '/')[1..];
  }

  lemma SplitTail(token: string, rest: string)
    requires '/' !in token && (rest != "" ==> rest[0] == '/')
    ensures Split(token + rest, '/') == [token] + Split(rest, '/')[1..]
  {
    if rest == "" {
      assert token + rest == token;
      SplitPlain(token, '/');
    } else {
      var more := rest[1..];
      assert rest == "" + ['/'] + more;
      SplitFirst("", more, '/');
      assert token + rest == token + ['/'] + more;
      SplitFirst(token, more, '/');
    }
  }

  /** Two paths render alike exactly when they have the same tokens: a pointer rule matches
      one token list, and cannot tell an index from a field or key of the same spelling. */
  lemma RenderInjectiveOnTokens(p: Path, q: Path)
    ensures Render(p) == Render(q) <==> Tokens(p) == Tokens(q)
  {
    PointerRoundTrip(p);
    PointerRoundTrip(q);
    if Tokens(p) == Tokens(q) {
      SameTokensSamePointer(p, q);
    }
  }

  lemma {:induction false} SameTokensSamePointer(p: Path, q: Path)
    requires Tokens(p) == Tokens(q)
    ensures Render(p) == Render(q)
  {
    if p != [] && q != [] {
      assert Tokens(p)[0] == Tokens(q)[0] && Tokens(p)[1..] == Tokens(q)[1..];
      SameTokensSamePointer(p[1..], q[1..]);
    }
  }
}
