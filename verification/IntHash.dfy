/** Hashing of self-produced integer keys on 64-bit words: rotate, xor, multiply by an odd constant, wrapping around. */
module IntHash {
  import opened BitFields
  import opened Sequences

  type Word = x: nat | x < 0x1_0000_0000_0000_0000
  type U32 = x: nat | x < 0x1_0000_0000
  type U16 = x: nat | x < 0x1_0000
  type U8 = x: nat | x < 0x100

  // ---------------------------------------------------------------- word operations

  lemma WordIs64Bits()
    ensures Pow2(64) == 0x1_0000_0000_0000_0000
  {
    assert Pow2(4) == 0x10;
    PowerAdds(4, 4);
    PowerAdds(8, 8);
    PowerAdds(16, 16);
    PowerAdds(32, 32);
  }

  function Xor(a: Word, b: Word): (r: Word)
  {
    WordIs64Bits();
    XorBitsFit(a, b, 64);
    XorBits(a, b)
  }

  /** A word turned left so that its top `low` values, out of `low * high`, come round to the bottom. */
  function Turned(x: nat, low: nat, high: nat): (r: nat)
    requires low > 0 && high > 0
  {
    (x % high) * low + x / high
  }

  lemma TurnedFits(x: nat, low: nat, high: nat)
    requires low > 0 && high > 0 && x < low * high
    ensures x / high < low && x % high < high
    ensures Turned(x, low, high) < low * high
  {
    var q, r := x / high, x % high;
    AtLeast(q - low + 1, high);
    AtLeast(high - r, low);
  }

  lemma AtLeast(e: int, d: nat)
    ensures e >= 1 ==> e * d >= d
    ensures e <= -1 ==> e * d + d <= 0
  {
  }

  /** Turning back: the quotient and the remainder change places. */
  lemma TurnedBack(x: nat, low: nat, high: nat)
    requires low > 0 && high > 0 && x < low * high
    ensures Turned(Turned(x, low, high), high, low) == x
  {
    var q, r := x / high, x % high;
    TurnedFits(x, low, high);
    DivMod(r, q, low);
  }

  lemma DivMod(q: nat, r: nat, d: nat)
    requires r < d
    ensures (q * d + r) / d == q && (q * d + r) % d == r
  {
    var n := q * d + r;
    var e := n / d - q;
    assert n == (n / d) * d + n % d;
    assert e * d == r - n % d;
    AtLeast(e, d);
  }

  /** `rotate_left(5)`: the five top bits come round to the bottom. */
  function RotateLeft5(x: Word): (r: Word)
  {
    TurnedFits(x, 0x20, 0x800_0000_0000_0000);
    Turned(x, 0x20, 0x800_0000_0000_0000)
  }

  /** `rotate_left(26)`. */
  function RotateLeft26(x: Word): (r: Word)
  {
    TurnedFits(x, 0x400_0000, 0x40_0000_0000);
    Turned(x, 0x400_0000, 0x40_0000_0000)
  }

  lemma TurnedParts(x: nat, low: nat, high: nat)
    requires low > 0 && high > 0
    ensures x == x % high + high * (x / high)
    ensures Turned(x, low, high) == x / high + low * (x % high)
  {
    assert (x % high) * low == low * (x % high);
  }

  lemma BitsTurn(x: nat, y: nat, q: nat, r: nat, up: nat, down: nat, low: nat, high: nat, i: nat)
    requires low == Pow2(up) && high == Pow2(down) && q < low && r < high && i < up + down
    requires x == r + high * q && y == q + low * r
    ensures HasBit(y, if i < down then i + up else i - down) <==> HasBit(x, i)
  {
    StackedBits(x, r, q, high, down, i);
    StackedBits(y, q, r, low, up, if i < down then i + up else i - down);
  }

  /** Turning moves each bit up, around the end. */
  lemma TurnedBits(x: nat, up: nat, down: nat, low: nat, high: nat, i: nat)
    requires low > 0 && high > 0 && low == Pow2(up) && high == Pow2(down) && x < low * high && i < up + down
    ensures HasBit(Turned(x, low, high), if i < down then i + up else i - down) <==> HasBit(x, i)
  {
    TurnedFits(x, low, high);
    TurnedParts(x, low, high);
    BitsTurn(x, Turned(x, low, high), x / high, x % high, up, down, low, high, i);
  }

  /** `rotate_left(n)` moves bit `i` to bit `i + n`, around the end. */
  lemma RotationBits(x: Word, n: nat, p: nat, i: nat)
    requires (n == 5 && p == 59) || (n == 26 && p == 38)
    requires i < 64
    ensures HasBit(if n == 5 then RotateLeft5(x) else RotateLeft26(x), (i + n) % 64) <==> HasBit(x, i)
  {
    var low, high := if n == 5 then 0x20 else 0x400_0000, if n == 5 then 0x800_0000_0000_0000 else 0x40_0000_0000;
    PowersAre(n);
    PowersAre(p);
    TurnedBits(x, n, p, low, high, i);
  }

  lemma PowersAre(k: nat)
    ensures k == 5 ==> Pow2(k) == 0x20
    ensures k == 26 ==> Pow2(k) == 0x400_0000
    ensures k == 38 ==> Pow2(k) == 0x40_0000_0000
    ensures k == 59 ==> Pow2(k) == 0x800_0000_0000_0000
  {
    PowersTo13();
    if k == 26 || k == 38 {
      Power26And38();
    } else if k == 59 {
      Power59();
    }
  }

  lemma PowersTo13()
    ensures Pow2(5) == 0x20 && Pow2(7) == 0x80 && Pow2(12) == 0x1000 && Pow2(13) == 0x2000
  {
    PowerAdds(5, 7);
  }

  lemma Power26And38()
    ensures Pow2(26) == 0x400_0000 && Pow2(38) == 0x40_0000_0000
  {
    PowersTo13();
    PowerAdds(13, 13);
    PowerAdds(26, 12);
  }

  lemma Power59()
    ensures Pow2(59) == 0x800_0000_0000_0000
  {
    PowersTo13();
    PowerAdds(26, 26);
    PowerAdds(52, 7);
    Power26And38();
  }

  /** `wrapping_mul(SEED)`. */
  function TimesSeed(x: Word): (r: Word)
  {
    (x * 0x517c_c1b7_2722_0a95) % 0x1_0000_0000_0000_0000
  }

  // ---------------------------------------------------------------- the hasher

  /** One round: what `add` makes of the state. */
  function Mixed(hash: Word, word: Word): (next: Word)
  {
    TimesSeed(Xor(RotateLeft5(hash), word))
  }

  /** The rounds of several words. */
  function MixedAll(hash: Word, words: seq<Word>): (next: Word)
  {
    Fold(Mixed, hash, words)
  }

  lemma MixedAllStep(hash: Word, words: seq<Word>, word: Word)
    ensures MixedAll(hash, words + [word]) == Mixed(MixedAll(hash, words), word)
  {
    assert (words + [word])[..|words|] == words;
  }

  class IntKeyHasher {
    var hash: Word

    constructor ()
      ensures hash == 0
    {
      hash := 0;
    }

    method Add(word: Word)
      modifies this
      ensures hash == Mixed(old(hash), word)
    {
      hash := TimesSeed(Xor(RotateLeft5(hash), word));
    }

    /** The fallback: a round per byte. */
    method Write(bytes: seq<U8>)
      modifies this
      ensures hash == MixedAll(old(hash), bytes)
    {
      ghost var start := hash;
      for i := 0 to |bytes|
        invariant hash == MixedAll(start, bytes[..i])
      {
        Add(bytes[i]);
        assert bytes[..i + 1] == bytes[..i] + [bytes[i]];
        MixedAllStep(start, bytes[..i], bytes[i]);
      }
      assert bytes[..|bytes|] == bytes;
    }

    /** `write_u64`, and `write_usize` on a 64-bit target. */
    method WriteU64(n: Word)
      modifies this
      ensures hash == Mixed(old(hash), n)
    {
      Add(n);
    }

    method WriteU32(n: U32)
      modifies this
      ensures hash == Mixed(old(hash), n)
    {
      Add(n);
    }

    method WriteU16(n: U16)
      modifies this
      ensures hash == Mixed(old(hash), n)
    {
      Add(n);
    }

    method WriteU8(n: U8)
      modifies this
      ensures hash == Mixed(old(hash), n)
    {
      Add(n);
    }

    function Finish(): (r: Word)
      reads this
    {
      RotateLeft26(hash)
    }
  }

  // ---------------------------------------------------------------- undoing the operations

  /** Multiplication by the inverse of the seed modulo 2^64, which there is because the seed is odd. */
  function TimesUnseed(x: Word): (r: Word)
  {
    (x * 0x2040_003d_7809_70bd) % 0x1_0000_0000_0000_0000
  }

  lemma SeedInverse(x: Word)
    ensures TimesUnseed(TimesSeed(x)) == x && TimesSeed(TimesUnseed(x)) == x
  {
    TimesInverse(x, 0x517c_c1b7_2722_0a95, 0x2040_003d_7809_70bd, 0x1_0000_0000_0000_0000);
    TimesInverse(x, 0x2040_003d_7809_70bd, 0x517c_c1b7_2722_0a95, 0x1_0000_0000_0000_0000);
  }

  /** Multiplication undoes multiplication when the product of the factors is one more than a multiple of the modulus. */
  lemma TimesInverse(x: nat, a: nat, b: nat, m: nat)
    requires x < m && a * b % m == 1
    ensures ((x * a % m) * b) % m == x
  {
    var y, q, k := x * a % m, x * a / m, a * b / m;
    MinusMultiple(x * a, m, q, y, b);
    OneMoreTimes(x, a, b, m, k);
    Collect(x, m, k, q * b);
    assert y * b == m * (x * k - q * b) + x;
    Remainder(x * k - q * b, x, m);
  }

  lemma MinusMultiple(n: int, m: int, q: int, y: int, b: int)
    requires n == m * q + y
    ensures y * b == n * b - m * (q * b)
  {
    assert n * b == (m * q) * b + y * b;
    assert (m * q) * b == m * (q * b);
  }

  lemma OneMoreTimes(x: int, a: int, b: int, m: int, k: int)
    requires a * b == m * k + 1
    ensures (x * a) * b == x * (m * k) + x
  {
    assert (x * a) * b == x * (a * b);
    assert x * (m * k + 1) == x * (m * k) + x;
  }

  lemma Collect(x: int, m: int, k: int, p: int)
    ensures x * (m * k) + x - m * p == m * (x * k - p) + x
  {
    assert x * (m * k) == m * (x * k);
    assert m * (x * k - p) == m * (x * k) - m * p;
  }

  lemma Remainder(n: int, x: nat, m: nat)
    requires x < m && m * n + x >= 0
    ensures (m * n + x) % m == x
  {
    AtLeast(n, m);
    DivMod(n, x, m);
    assert m * n + x == n * m + x;
  }

  function RotateRight5(x: Word): (r: Word)
  {
    TurnedFits(x, 0x800_0000_0000_0000, 0x20);
    Turned(x, 0x800_0000_0000_0000, 0x20)
  }

  function RotateRight26(x: Word): (r: Word)
  {
    TurnedFits(x, 0x40_0000_0000, 0x400_0000);
    Turned(x, 0x40_0000_0000, 0x400_0000)
  }

  lemma Rotate5Inverse(x: Word)
    ensures RotateRight5(RotateLeft5(x)) == x && RotateLeft5(RotateRight5(x)) == x
  {
    TurnedBack(x, 0x20, 0x800_0000_0000_0000);
    TurnedBack(x, 0x800_0000_0000_0000, 0x20);
  }

  lemma Rotate26Inverse(x: Word)
    ensures RotateRight26(RotateLeft26(x)) == x && RotateLeft26(RotateRight26(x)) == x
  {
    TurnedBack(x, 0x400_0000, 0x40_0000_0000);
    TurnedBack(x, 0x40_0000_0000, 0x400_0000);
  }

  lemma XorInverse(a: Word, b: Word)
    ensures Xor(Xor(a, b), b) == a && Xor(Xor(a, b), a) == b
  {
    XorBitsInverse(a, b);
    XorBitsInverse(b, a);
    XorBitsCommute(a, b);
  }
}
