/**
 Binary digits of natural numbers: the bitwise operations on unsigned words, digit by digit, with what they
 do to the sets of positions that the digits stand for.
 */
module BitFields {
  function Pow2(k: nat): (n: nat)
    ensures n >= 1
  {
    if k == 0 then 1 else 2 * Pow2(k - 1)
  }

  lemma {:induction false} PowerAdds(j: nat, k: nat)
    ensures Pow2(j + k) == Pow2(j) * Pow2(k)
  {
    if j == 0 {
    } else {
      PowerAdds(j - 1, k);
      assert j + k - 1 == j - 1 + k;
    }
  }

  predicate HasBit(a: nat, i: nat) {
    if i == 0 then a % 2 == 1 else HasBit(a / 2, i - 1)
  }

  /** `a & b`. */
  function And(a: nat, b: nat): (r: nat)
    decreases a + b
  {
    if a == 0 || b == 0 then 0 else 2 * And(a / 2, b / 2) + if a % 2 == 1 && b % 2 == 1 then 1 else 0
  }

  /** `a | b`. */
  function Or(a: nat, b: nat): (r: nat)
    decreases a + b
  {
    if a == 0 && b == 0 then 0 else 2 * Or(a / 2, b / 2) + if a % 2 == 1 || b % 2 == 1 then 1 else 0
  }

  lemma {:induction false} ZeroHasNoBit(i: nat)
    ensures !HasBit(0, i)
  {
    if i == 0 {
    } else {
      ZeroHasNoBit(i - 1);
    }
  }

  lemma {:induction false} PowerHasOneBit(k: nat, i: nat)
    ensures HasBit(Pow2(k), i) <==> i == k
  {
    if k == 0 {
      if i > 0 {
        ZeroHasNoBit(i - 1);
      }
    } else if i > 0 {
      PowerHasOneBit(k - 1, i - 1);
    }
  }

  lemma {:induction false} OrHasBit(a: nat, b: nat, i: nat)
    ensures HasBit(Or(a, b), i) <==> HasBit(a, i) || HasBit(b, i)
    decreases i
  {
    if a == 0 && b == 0 {
      ZeroHasNoBit(i);
    } else if i > 0 {
      OrHasBit(a / 2, b / 2, i - 1);
    }
  }

  /** Masking with one bit asks for that bit. */
  lemma {:induction false} AndPowerIff(a: nat, k: nat)
    ensures And(a, Pow2(k)) != 0 <==> HasBit(a, k)
  {
    if a == 0 {
      ZeroHasNoBit(k);
    } else if k > 0 {
      AndPowerIff(a / 2, k - 1);
    }
  }

  lemma {:induction false} OrFits(a: nat, b: nat, k: nat)
    requires a < Pow2(k) && b < Pow2(k)
    ensures Or(a, b) < Pow2(k)
  {
    if k == 0 {
    } else {
      OrFits(a / 2, b / 2, k - 1);
    }
  }

  lemma {:induction false} PowerGrows(j: nat, k: nat)
    requires j < k
    ensures Pow2(j) < Pow2(k)
  {
    if j + 1 < k {
      PowerGrows(j, k - 1);
    }
  }

  /** A number of at most `k` binary digits is determined by them. */
  lemma {:induction false} BitsDetermine(a: nat, b: nat, k: nat)
    requires a < Pow2(k) && b < Pow2(k)
    requires forall i | 0 <= i < k :: HasBit(a, i) == HasBit(b, i)
    ensures a == b
  {
    if k == 0 {
    } else {
      assert HasBit(a, 0) == HasBit(b, 0);
      forall i | 0 <= i < k - 1 ensures HasBit(a / 2, i) == HasBit(b / 2, i) {
        assert HasBit(a, i + 1) == HasBit(b, i + 1);
      }
      BitsDetermine(a / 2, b / 2, k - 1);
    }
  }

  /** `a ^ b`. */
  function XorBits(a: nat, b: nat): (r: nat)
    decreases a + b
  {
    if a == 0 && b == 0 then 0 else 2 * XorBits(a / 2, b / 2) + (a + b) % 2
  }

  lemma {:induction false} XorBitsFit(a: nat, b: nat, k: nat)
    requires a < Pow2(k) && b < Pow2(k)
    ensures XorBits(a, b) < Pow2(k)
  {
    if k == 0 {
    } else {
      XorBitsFit(a / 2, b / 2, k - 1);
    }
  }

  /** Exclusive or undoes itself. */
  lemma {:induction false} XorBitsInverse(a: nat, b: nat)
    ensures XorBits(XorBits(a, b), b) == a
    decreases a + b
  {
    if a > 0 || b > 0 {
      XorBitsInverse(a / 2, b / 2);
      XorBitsStep(a, b);
      InverseStep(a, b, XorBits(a, b));
    }
  }

  lemma InverseStep(a: nat, b: nat, x: nat)
    requires XorBits(x / 2, b / 2) == a / 2 && x % 2 == (a + b) % 2
    ensures XorBits(x, b) == a
  {
    Parity(a, b, x);
    XorBitsIs(x, b, a);
  }

  lemma Parity(a: nat, b: nat, x: nat)
    requires x % 2 == (a + b) % 2
    ensures a % 2 == (x + b) % 2
  {
    var p, q := (a + b) / 2, x / 2;
    assert x + b == a + 2 * (q + b - p);
  }

  lemma XorBitsStep(a: nat, b: nat)
    ensures XorBits(a, b) / 2 == XorBits(a / 2, b / 2) && XorBits(a, b) % 2 == (a + b) % 2
  {
  }

  lemma XorBitsIs(a: nat, b: nat, x: nat)
    requires x / 2 == XorBits(a / 2, b / 2) && x % 2 == (a + b) % 2
    ensures XorBits(a, b) == x
  {
  }

  lemma {:induction false} XorBitsCommute(a: nat, b: nat)
    ensures XorBits(a, b) == XorBits(b, a)
    decreases a + b
  {
    if a > 0 || b > 0 {
      XorBitsCommute(a / 2, b / 2);
    }
  }

  lemma {:induction false} XorHasBit(a: nat, b: nat, i: nat)
    ensures HasBit(XorBits(a, b), i) <==> HasBit(a, i) != HasBit(b, i)
    decreases i
  {
    XorBitsStep(a, b);
    if i == 0 {
    } else {
      XorHasBit(a / 2, b / 2, i - 1);
    }
  }

  /** The bits of a number `n` whose `k` lowest bits are `low` and whose others are `high`. */
  lemma {:induction false} StackedBits(n: nat, low: nat, high: nat, p: nat, k: nat, i: nat)
    requires p == Pow2(k) && low < p && n == low + p * high
    ensures HasBit(n, i) <==> if i < k then HasBit(low, i) else HasBit(high, i - k)
    decreases k
  {
    if k == 0 {
      assert p == 1 && n == high;
    } else {
      var rest := Pow2(k - 1) * high;
      assert p * high == 2 * rest;
      if i > 0 {
        StackedBits(n / 2, low / 2, high, Pow2(k - 1), k - 1, i - 1);
      }
    }
  }
}
