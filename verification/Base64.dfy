/** Base64 with the standard alphabet and padding (section 4 of RFC 4648), decoded strictly:
    padding is required and unused bits must be zero. */
module Base64 {
  import opened Common
  import opened ManifestBodies

  type Sextet = x: nat | x < 64

  function CharOf(x: Sextet): char
  {
    if x < 26 then 'A' + x as char
    else if x < 52 then 'a' + (x - 26) as char
    else if x < 62 then '0' + (x - 52) as char
    else if x == 62 then '+'
    else '/'
  }

  function SextetOf(c: char): Option<Sextet>
  {
    if 'A' <= c <= 'Z' then Some((c - 'A') as int)
    else if 'a' <= c <= 'z' then Some((c - 'a') as int + 26)
    else if '0' <= c <= '9' then Some((c - '0') as int + 52)
    else if c == '+' then Some(62)
    else if c == '/' then Some(63)
    else None
  }

  lemma AlphabetRoundTrip(x: Sextet)
    ensures SextetOf(CharOf(x)) == Some(x) && CharOf(x) != '='
  {
  }

  lemma AlphabetInjective(c: char)
    ensures SextetOf(c).Some? ==> CharOf(SextetOf(c).value) == c
  {
  }

  /** Four characters for three bytes. */
  function Group(x: Byte, y: Byte, z: Byte): string
  {
    [CharOf(x / 4), CharOf(x % 4 * 16 + y / 16), CharOf(y % 16 * 4 + z / 64), CharOf(z % 64)]
  }

  /** The last one or two bytes, padded. */
  function Padded(b: Bytes): string
    requires 1 <= |b| <= 2
  {
    if |b| == 1 then Group(b[0], 0, 0)[..2] + "==" else Group(b[0], b[1], 0)[..3] + "="
  }

  function Encode(b: Bytes): string
  {
    if |b| == 0 then ""
    else if |b| <= 2 then Padded(b)
    else Group(b[0], b[1], b[2]) + Encode(b[3..])
  }

  /** The bytes of four sextets. */
  function Triple(a: Sextet, b: Sextet, c: Sextet, d: Sextet): Bytes
  {
    [a * 4 + b / 16, b % 16 * 16 + c / 4, c % 4 * 64 + d]
  }

  function DecodeGroup(s: string): Option<Bytes>
    requires |s| == 4
  {
    match (SextetOf(s[0]), SextetOf(s[1]), SextetOf(s[2]), SextetOf(s[3]))
    case (Some(a), Some(b), Some(c), Some(d)) => Some(Triple(a, b, c, d))
    case _ => None
  }

  function DecodeTwo(p: char, q: char): Option<Bytes>
  {
    match (SextetOf(p), SextetOf(q))
    case (Some(a), Some(b)) => if b % 16 == 0 then Some(Triple(a, b, 0, 0)[..1]) else None
    case _ => None
  }

  function DecodeThree(p: char, q: char, r: char): Option<Bytes>
  {
    match (SextetOf(p), SextetOf(q), SextetOf(r))
    case (Some(a), Some(b), Some(c)) => if c % 4 == 0 then Some(Triple(a, b, c, 0)[..2]) else None
    case _ => None
  }

  /** A final group, with or without padding. */
  function DecodeLast(s: string): Option<Bytes>
    requires |s| == 4
  {
    if s[3] != '=' then DecodeGroup(s)
    else if s[2] == '=' then DecodeTwo(s[0], s[1])
    else DecodeThree(s[0], s[1], s[2])
  }

  function Decode(s: string): Option<Bytes>
  {
    if s == "" then Some([])
    else if |s| < 4 then None
    else if |s| == 4 then DecodeLast(s)
    else
      match (DecodeGroup(s[..4]), Decode(s[4..]))
      case (Some(first), Some(rest)) => Some(first + rest)
      case _ => None
  }

  lemma Pack(x: Byte, y: Byte, z: Byte)
    ensures Triple(x / 4, x % 4 * 16 + y / 16, y % 16 * 4 + z / 64, z % 64) == [x, y, z]
  {
    assert x / 4 * 4 + (x % 4 * 16 + y / 16) / 16 == x;
    assert (x % 4 * 16 + y / 16) % 16 == y / 16;
    assert (y % 16 * 4 + z / 64) / 4 == y % 16;
    assert (y % 16 * 4 + z / 64) % 4 == z / 64;
  }

  lemma Unpack(a: Sextet, b: Sextet, c: Sextet, d: Sextet)
    ensures var t := Triple(a, b, c, d);
            && t[0] / 4 == a
            && t[0] % 4 * 16 + t[1] / 16 == b
            && t[1] % 16 * 4 + t[2] / 64 == c
            && t[2] % 64 == d
  {
    assert (a * 4 + b / 16) / 4 == a && (a * 4 + b / 16) % 4 == b / 16;
    assert (b % 16 * 16 + c / 4) / 16 == b % 16 && (b % 16 * 16 + c / 4) % 16 == c / 4;
    assert (c % 4 * 64 + d) / 64 == c % 4 && (c % 4 * 64 + d) % 64 == d;
  }

  lemma GroupAlphabet(x: Byte, y: Byte, z: Byte)
    ensures var s := Group(x, y, z);
            && SextetOf(s[0]) == Some(x / 4) && SextetOf(s[1]) == Some(x % 4 * 16 + y / 16)
            && SextetOf(s[2]) == Some(y % 16 * 4 + z / 64) && SextetOf(s[3]) == Some(z % 64)
            && s[2] != '=' && s[3] != '='
  {
    AlphabetRoundTrip(x / 4);
    AlphabetRoundTrip(x % 4 * 16 + y / 16);
    AlphabetRoundTrip(y % 16 * 4 + z / 64);
    AlphabetRoundTrip(z % 64);
  }

  lemma GroupRoundTrip(x: Byte, y: Byte, z: Byte)
    ensures DecodeGroup(Group(x, y, z)) == Some([x, y, z])
    ensures DecodeLast(Group(x, y, z)) == Some([x, y, z])
  {
    GroupAlphabet(x, y, z);
    Pack(x, y, z);
  }

  lemma PaddedRoundTrip(b: Bytes)
    requires 1 <= |b| <= 2
    ensures DecodeLast(Padded(b)) == Some(b)
  {
    if |b| == 1 {
      GroupAlphabet(b[0], 0, 0);
      Pack(b[0], 0, 0);
      assert [b[0], 0, 0][..1] == b;
    } else {
      GroupAlphabet(b[0], b[1], 0);
      Pack(b[0], b[1], 0);
      assert [b[0], b[1], 0][..2] == b;
    }
  }

  /** Decoding undoes encoding, for every byte string. */
  lemma {:induction false} Base64RoundTrip(b: Bytes)
    ensures Decode(Encode(b)) == Some(b)
  {
    if 1 <= |b| <= 2 {
      PaddedRoundTrip(b);
    } else if |b| >= 3 {
      var rest := b[3..];
      Base64RoundTrip(rest);
      PrependGroup(b[0], b[1], b[2], rest);
      FirstThree(b);
    }
  }

  lemma FirstThree(b: Bytes)
    requires |b| >= 3
    ensures b == [b[0], b[1], b[2]] + b[3..]
  {
  }

  lemma PrependGroup(x: Byte, y: Byte, z: Byte, rest: Bytes)
    requires Decode(Encode(rest)) == Some(rest)
    ensures Decode(Group(x, y, z) + Encode(rest)) == Some([x, y, z] + rest)
  {
    EncodeEmpty(rest);
    GroupRoundTrip(x, y, z);
    Prepend(Group(x, y, z), Encode(rest), [x, y, z], rest);
  }

  lemma EncodeEmpty(b: Bytes)
    ensures Encode(b) == "" <==> b == []
  {
  }

  lemma Prepend(g: string, s: string, first: Bytes, rest: Bytes)
    requires |g| == 4 && DecodeGroup(g) == Some(first) && DecodeLast(g) == Some(first)
    requires Decode(s) == Some(rest) && (s == "" <==> rest == [])
    ensures Decode(g + s) == Some(first + rest)
  {
    if s == "" {
      assert g + s == g;
      assert first + rest == first;
    } else {
      assert (g + s)[..4] == g;
      assert (g + s)[4..] == s;
    }
  }

  lemma GroupCanonical(s: string)
    requires |s| == 4 && DecodeGroup(s).Some?
    ensures var b := DecodeGroup(s).value; |b| == 3 && Group(b[0], b[1], b[2]) == s
  {
    var p, q, r, t := SextetOf(s[0]).value, SextetOf(s[1]).value, SextetOf(s[2]).value, SextetOf(s[3]).value;
    Unpack(p, q, r, t);
    AlphabetInjective(s[0]);
    AlphabetInjective(s[1]);
    AlphabetInjective(s[2]);
    AlphabetInjective(s[3]);
  }

  lemma TwoCanonical(p: char, q: char)
    requires DecodeTwo(p, q).Some?
    ensures var b := DecodeTwo(p, q).value; |b| == 1 && Padded(b) == [p, q, '=', '=']
  {
    var a, b := SextetOf(p).value, SextetOf(q).value;
    Unpack(a, b, 0, 0);
    AlphabetInjective(p);
    AlphabetInjective(q);
  }

  lemma ThreeCanonical(p: char, q: char, r: char)
    requires DecodeThree(p, q, r).Some?
    ensures var b := DecodeThree(p, q, r).value; |b| == 2 && Padded(b) == [p, q, r, '=']
  {
    var a, b, c := SextetOf(p).value, SextetOf(q).value, SextetOf(r).value;
    Unpack(a, b, c, 0);
    AlphabetInjective(p);
    AlphabetInjective(q);
    AlphabetInjective(r);
  }

  lemma LastCanonical(s: string)
    requires |s| == 4 && DecodeLast(s).Some?
    ensures Encode(DecodeLast(s).value) == s
  {
    var b := DecodeLast(s).value;
    if s[3] != '=' {
      GroupCanonical(s);
      assert Encode(b[3..]) == "";
    } else if s[2] == '=' {
      TwoCanonical(s[0], s[1]);
    } else {
      ThreeCanonical(s[0], s[1], s[2]);
    }
  }

  lemma {:induction false} DecodedIsCanonical(s: string)
    requires Decode(s).Some?
    ensures Encode(Decode(s).value) == s
  {
    if |s| == 4 {
      LastCanonical(s);
    } else if |s| > 4 {
      var first, rest := DecodeGroup(s[..4]).value, Decode(s[4..]).value;
      DecodedIsCanonical(s[4..]);
      GroupCanonical(s[..4]);
      assert (first + rest)[3..] == rest;
      assert s[..4] + s[4..] == s;
    }
  }

  /** Strict decoding accepts one text per byte string: the one the encoder writes. */
  lemma Base64Canonical(s: string, b: Bytes)
    ensures Decode(s) == Some(b) <==> s == Encode(b)
  {
    Base64RoundTrip(b);
    if Decode(s) == Some(b) {
      DecodedIsCanonical(s);
    }
  }

  predicate InAlphabet(c: char)
  {
    SextetOf(c).Some? || c == '='
  }

  lemma {:induction false} EncodedAlphabet(b: Bytes)
    ensures forall i :: 0 <= i < |Encode(b)| ==> InAlphabet(Encode(b)[i])
  {
    if |b| == 1 {
      GroupAlphabet(b[0], 0, 0);
    } else if |b| == 2 {
      GroupAlphabet(b[0], b[1], 0);
    } else if |b| >= 3 {
      GroupAlphabet(b[0], b[1], b[2]);
      EncodedAlphabet(b[3..]);
    }
  }

  // ----- the encoding as section 4 of RFC 4648 gives it -----

  const CAPITALS := "ABCDEFGHIJKLMNOPQRSTUVWXYZ"
  const SMALL := "abcdefghijklmnopqrstuvwxyz"
  const ALPHABET := CAPITALS + SMALL + "0123456789+/"

  lemma Capital(x: nat)
    requires x < 26
    ensures CAPITALS[x] == 'A' + x as char
  {
    match x
    case 0 => case 1 => case 2 => case 3 => case 4 => case 5 => case 6 => case 7 => case 8 => case 9 => case 10 =>
    case 11 => case 12 => case 13 => case 14 => case 15 => case 16 => case 17 => case 18 => case 19 => case 20 =>
    case 21 => case 22 => case 23 => case 24 => case _ =>
  }

  lemma Small(x: nat)
    requires x < 26
    ensures SMALL[x] == 'a' + x as char
  {
    match x
    case 0 => case 1 => case 2 => case 3 => case 4 => case 5 => case 6 => case 7 => case 8 => case 9 => case 10 =>
    case 11 => case 12 => case 13 => case 14 => case 15 => case 16 => case 17 => case 18 => case 19 => case 20 =>
    case 21 => case 22 => case 23 => case 24 => case _ =>
  }

  lemma AlphabetIs(x: Sextet)
    ensures |ALPHABET| == 64 && CharOf(x) == ALPHABET[x]
  {
    if x < 26 {
      Capital(x);
    } else if x < 52 {
      Small(x - 26);
    }
  }

  /** A number below 2^24 as four characters, each a digit in base 64. */
  function FourDigits(n: nat): string
    requires n < 0x100_0000
  {
    [ALPHABET[n / 262144], ALPHABET[n / 4096 % 64], ALPHABET[n / 64 % 64], ALPHABET[n % 64]]
  }

  function Number(x: Byte, y: Byte, z: Byte): (n: nat)
    ensures n < 0x100_0000
  {
    var (a: nat, b: nat, c: nat) := (x, y, z);
    65536 * a + 256 * b + c
  }

  lemma Sextets(x: nat, y: nat, z: nat)
    requires x < 256 && y < 256 && z < 256
    ensures var n := 65536 * x + 256 * y + z;
            && n / 262144 == x / 4 && n / 4096 % 64 == x % 4 * 16 + y / 16
            && n / 64 % 64 == y % 16 * 4 + z / 64 && n % 64 == z % 64
  {
    var n := 65536 * x + 256 * y + z;
    var p, q, r, s := x / 4, x % 4 * 16 + y / 16, y % 16 * 4 + z / 64, z % 64;
    assert n == 262144 * p + 4096 * q + 64 * r + s;
    assert n / 64 == 4096 * p + 64 * q + r;
    assert n / 4096 == 64 * p + q;
  }

  lemma FourCharacters(n: nat, p: Sextet, q: Sextet, r: Sextet, t: Sextet)
    requires n < 0x100_0000
    requires n / 262144 == p && n / 4096 % 64 == q && n / 64 % 64 == r && n % 64 == t
    ensures FourDigits(n) == [CharOf(p), CharOf(q), CharOf(r), CharOf(t)]
  {
    AlphabetIs(p);
    AlphabetIs(q);
    AlphabetIs(r);
    AlphabetIs(t);
  }

  lemma GroupDigits(x: Byte, y: Byte, z: Byte)
    ensures Group(x, y, z) == FourDigits(Number(x, y, z))
  {
    Sextets(x, y, z);
    FourCharacters(Number(x, y, z), x / 4, x % 4 * 16 + y / 16, y % 16 * 4 + z / 64, z % 64);
  }

  /** Three bytes are one number of four digits in base 64; at the end missing bytes count as zero and `=` stands for
      the digits that only they make up. */
  lemma EncodeIsBase64(b: Bytes)
    ensures |b| >= 3 ==> Encode(b) == FourDigits(Number(b[0], b[1], b[2])) + Encode(b[3..])
    ensures |b| == 2 ==> Encode(b) == FourDigits(Number(b[0], b[1], 0))[..3] + "="
    ensures |b| == 1 ==> Encode(b) == FourDigits(Number(b[0], 0, 0))[..2] + "=="
    ensures |b| == 0 ==> Encode(b) == ""
  {
    if |b| >= 3 {
      GroupDigits(b[0], b[1], b[2]);
    } else if |b| == 2 {
      GroupDigits(b[0], b[1], 0);
    } else if |b| == 1 {
      GroupDigits(b[0], 0, 0);
    }
  }
}
