/** Manifest bodies: canonical bytes, their FNV-1a hash, and hash-first equality. */
module ManifestBodies {
  /** 64-bit words and bytes as integers: every operation wraps explicitly. */
  const WORD: nat := 0x1_0000_0000_0000_0000
  type Word = x: nat | x < WORD
  type Byte = x: nat | x < 256
  type Bytes = seq<Byte>

  const OFFSET: Word := 0xcbf2_9ce4_8422_2325
  const PRIME: Word := 0x0000_0100_0000_01b3

  /** The inverse of the (odd) FNV prime modulo 2^64. */
  const INVERSE: Word := 0xce96_5057_aff6_957b

  function Pow2(n: nat): nat { if n == 0 then 1 else 2 * Pow2(n - 1) }

  lemma Pow2Byte()
    ensures Pow2(8) == 256
  {
    assert Pow2(4) == 16;
  }

  /** Exclusive or of the low `n` bits. */
  function XorBits(a: nat, b: nat, n: nat): (r: nat)
    ensures r < Pow2(n)
  {
    if n == 0 then 0 else (a % 2 + b % 2) % 2 + 2 * XorBits(a / 2, b / 2, n - 1)
  }

  /** A byte only reaches the low eight bits of the word. */
  function XorByte(h: Word, b: Byte): Word
  {
    Pow2Byte();
    h - h % 256 + XorBits(h % 256, b, 8)
  }

  function WrappingMul(h: Word, k: Word): Word
  {
    h * k % WORD
  }

  function Step(h: Word, b: Byte): Word
  {
    WrappingMul(XorByte(h, b), PRIME)
  }

  function Unstep(h: Word, b: Byte): Word
  {
    XorByte(WrappingMul(h, INVERSE), b)
  }

  /** The hash state after `bytes`, started from `h`. */
  function Fold(h: Word, bytes: Bytes): Word
  {
    if bytes == [] then h else Step(Fold(h, bytes[..|bytes| - 1]), bytes[|bytes| - 1])
  }

  function Fnv(bytes: Bytes): Word
  {
    Fold(OFFSET, bytes)
  }

  method Fnv1a64(bytes: Bytes) returns (h: Word)
    ensures h == Fnv(bytes)
  {
    h := OFFSET;
    for i := 0 to |bytes|
      invariant h == Fold(OFFSET, bytes[..i])
    {
      assert bytes[..i + 1][..i] == bytes[..i];
      h := XorByte(h, bytes[i]);
      h := WrappingMul(h, PRIME);
    }
    assert bytes[..|bytes|] == bytes;
  }

  lemma Remainder(a: int, q: int, r: nat)
    requires a == q * WORD + r && r < WORD
    ensures a % WORD == r
  {
  }

  lemma XorOfLetter()
    ensures XorBits(0x25, 0x61, 8) == 0x44
  {
    assert XorBits(0x2, 0x6, 4) == 0x4;
  }

  lemma ProductOfLetter()
    ensures WrappingMul(0xcbf2_9ce4_8422_2344, PRIME) == 0xaf63_dc4c_8601_ec8c
  {
    Remainder(0xcbf2_9ce4_8422_2344 * PRIME, 0xcbf29ce5de, 0xaf63_dc4c_8601_ec8c);
  }

  lemma LetterStep()
    ensures Step(OFFSET, 0x61) == 0xaf63_dc4c_8601_ec8c
  {
    XorOfLetter();
    ProductOfLetter();
    assert OFFSET % 256 == 0x25;
  }

  /** The published values of the hash for no bytes and for the letter `a`. */
  lemma KnownHashes()
    ensures Fnv([]) == 0xcbf2_9ce4_8422_2325
    ensures Fnv([0x61]) == 0xaf63_dc4c_8601_ec8c
  {
    var bytes: Bytes := [0x61];
    assert bytes[..0] == [];
    assert Fold(OFFSET, bytes) == Step(Fold(OFFSET, bytes[..0]), 0x61);
    LetterStep();
  }

  // ----- one step -----

  lemma {:induction false} InverseOfPrime(h: Word)
    ensures WrappingMul(WrappingMul(h, PRIME), INVERSE) == h
    ensures WrappingMul(WrappingMul(h, INVERSE), PRIME) == h
  {
    var k := PRIME * INVERSE / WORD;
    assert PRIME * INVERSE == k * WORD + 1;
    var q := h * PRIME / WORD;
    assert WrappingMul(h, PRIME) * INVERSE == (h * k - q * INVERSE) * WORD + h;
    Remainder(WrappingMul(h, PRIME) * INVERSE, h * k - q * INVERSE, h);
    var p := h * INVERSE / WORD;
    assert WrappingMul(h, INVERSE) * PRIME == (h * k - p * PRIME) * WORD + h;
    Remainder(WrappingMul(h, INVERSE) * PRIME, h * k - p * PRIME, h);
  }

  lemma XorDigits(a: nat, b: nat, n: nat)
    requires n > 0
    ensures XorBits(a, b, n) / 2 == XorBits(a / 2, b / 2, n - 1)
    ensures XorBits(a, b, n) % 2 == (a % 2 + b % 2) % 2
  {
    var low, high := (a % 2 + b % 2) % 2, XorBits(a / 2, b / 2, n - 1);
    assert XorBits(a, b, n) == low + 2 * high;
    assert (low + 2 * high) / 2 == high;
  }

  lemma ParityTwice(x: nat, y: nat)
    ensures ((x % 2 + y % 2) % 2 + y % 2) % 2 == x % 2
  {
  }

  lemma ParityCancels(x: nat, y: nat, z: nat)
    ensures (x % 2 + y % 2) % 2 == (x % 2 + z % 2) % 2 ==> y % 2 == z % 2
  {
  }

  lemma {:induction false} XorBitsTwice(a: nat, b: nat, n: nat)
    requires a < Pow2(n)
    ensures XorBits(XorBits(a, b, n), b, n) == a
  {
    if n > 0 {
      XorTwiceDigits(a, b, n);
      XorBitsTwice(a / 2, b / 2, n - 1);
    }
  }

  lemma XorTwiceDigits(a: nat, b: nat, n: nat)
    requires n > 0
    ensures XorBits(XorBits(a, b, n), b, n) % 2 == a % 2
    ensures XorBits(XorBits(a, b, n), b, n) / 2 == XorBits(XorBits(a / 2, b / 2, n - 1), b / 2, n - 1)
  {
    var c := XorBits(a, b, n);
    XorDigits(a, b, n);
    XorDigits(c, b, n);
    ParityTwice(a, b);
  }

  lemma {:induction false} XorBitsCancel(a: nat, b: nat, c: nat, n: nat)
    requires b < Pow2(n) && c < Pow2(n) && XorBits(a, b, n) == XorBits(a, c, n)
    ensures b == c
  {
    if n > 0 {
      XorDigits(a, b, n);
      XorDigits(a, c, n);
      XorBitsCancel(a / 2, b / 2, c / 2, n - 1);
      ParityCancels(a, b, c);
    }
  }

  lemma XorTwice(h: Word, b: Byte)
    ensures XorByte(XorByte(h, b), b) == h
  {
    Pow2Byte();
    XorBitsTwice(h % 256, b, 8);
    LowByte(h, XorBits(h % 256, b, 8));
  }

  lemma LowByte(h: Word, low: nat)
    requires low < 256
    ensures (h - h % 256 + low) % 256 == low
  {
  }

  /** For each byte, one hash step is a bijection on 64-bit states. */
  lemma StepBijective(h: Word, b: Byte)
    ensures Unstep(Step(h, b), b) == h && Step(Unstep(h, b), b) == h
  {
    InverseOfPrime(XorByte(h, b));
    XorTwice(h, b);
    InverseOfPrime(h);
    XorTwice(WrappingMul(h, INVERSE), b);
  }

  lemma StepByByte(h: Word, b: Byte, c: Byte)
    requires Step(h, b) == Step(h, c)
    ensures b == c
  {
    InverseOfPrime(XorByte(h, b));
    InverseOfPrime(XorByte(h, c));
    Pow2Byte();
    XorBitsCancel(h % 256, b, c, 8);
  }

  // ----- whole inputs -----

  lemma {:induction false} FoldAppend(h: Word, a: Bytes, s: Bytes)
    ensures Fold(h, a + s) == Fold(Fold(h, a), s)
  {
    if s == [] {
      assert a + s == a;
    } else {
      FoldAppend(h, a, s[..|s| - 1]);
      assert (a + s)[..|a + s| - 1] == a + s[..|s| - 1];
    }
  }

  lemma {:induction false} FoldInjective(g: Word, h: Word, s: Bytes)
    ensures Fold(g, s) == Fold(h, s) <==> g == h
  {
    if s != [] {
      var n := |s| - 1;
      FoldInjective(g, h, s[..n]);
      StepBijective(Fold(g, s[..n]), s[n]);
      StepBijective(Fold(h, s[..n]), s[n]);
    }
  }

  /** A common suffix never makes nor hides a collision. */
  lemma SuffixCancels(a: Bytes, b: Bytes, s: Bytes)
    ensures Fnv(a + s) == Fnv(b + s) <==> Fnv(a) == Fnv(b)
  {
    FoldAppend(OFFSET, a, s);
    FoldAppend(OFFSET, b, s);
    FoldInjective(Fnv(a), Fnv(b), s);
  }

  /** Bodies of one length that differ in exactly one byte never share a hash. */
  lemma OneByteNeverCollides(p: Bytes, b: Byte, c: Byte, s: Bytes)
    requires b != c
    ensures Fnv(p + [b] + s) != Fnv(p + [c] + s)
  {
    SuffixCancels(p + [b], p + [c], s);
    assert (p + [b])[..|p|] == p && (p + [c])[..|p|] == p;
    if Fnv(p + [b]) == Fnv(p + [c]) {
      StepByByte(Fnv(p), b, c);
    }
  }

  // ----- body equality -----

  /** Canonical bytes with their hash; the parsed view is a function of the bytes. */
  datatype RawBody = RawBody(bytes: Bytes, hash: Word)

  type Body = b: RawBody | b.hash == Fnv(b.bytes) witness RawBody([], OFFSET)

  function FromBytes(bytes: Bytes): Body
  {
    RawBody(bytes, Fnv(bytes))
  }

  /** Hash first, then bytes, then the parsed values. */
  predicate BodiesEqual<V(==)>(parse: Bytes -> V, a: Body, b: Body)
  {
    if a.hash != b.hash then false
    else if a.bytes == b.bytes then true
    else parse(a.bytes) == parse(b.bytes)
  }

  /** The tiers together: equal hashes and equal values. */
  lemma BodiesEqualIff<V>(parse: Bytes -> V, a: Body, b: Body)
    ensures BodiesEqual(parse, a, b) <==> Fnv(a.bytes) == Fnv(b.bytes) && parse(a.bytes) == parse(b.bytes)
    ensures a.bytes == b.bytes ==> BodiesEqual(parse, a, b)
  {
  }

  lemma BodiesEqualEquivalence<V>(parse: Bytes -> V, a: Body, b: Body, c: Body)
    ensures BodiesEqual(parse, a, a)
    ensures BodiesEqual(parse, a, b) <==> BodiesEqual(parse, b, a)
    ensures BodiesEqual(parse, a, b) && BodiesEqual(parse, b, c) ==> BodiesEqual(parse, a, c)
  {
  }

  /** The value tier cannot rescue a pair the hash tells apart: two spellings of one value
      are equal bodies exactly when their hashes collide. One changed byte (a space turned
      into a tab, say) is enough to keep them unequal. */
  lemma EqualValuesNeedEqualHashes<V>(parse: Bytes -> V, p: Bytes, b: Byte, c: Byte, s: Bytes)
    requires b != c && parse(p + [b] + s) == parse(p + [c] + s)
    ensures !BodiesEqual(parse, FromBytes(p + [b] + s), FromBytes(p + [c] + s))
  {
    OneByteNeverCollides(p, b, c, s);
  }
}
