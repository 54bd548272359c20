/** Python's bit operators on non-negative integers of unbounded width, and the arithmetic
    facts that the frame codec and the UUID packing rely on. */
module Bits {

  function Pow2(k: nat): (p: nat)
    ensures p > 0
  {
    if k == 0 then 1 else 2 * Pow2(k - 1)
  }

  /** `a | b` */
  function Or(a: nat, b: nat): nat
    decreases a + b
  {
    if a == 0 && b == 0 then 0
    else (if a % 2 == 1 || b % 2 == 1 then 1 else 0) + 2 * Or(a / 2, b / 2)
  }

  /** `a & b` */
  function And(a: nat, b: nat): nat
    decreases a + b
  {
    if a == 0 && b == 0 then 0
    else (if a % 2 == 1 && b % 2 == 1 then 1 else 0) + 2 * And(a / 2, b / 2)
  }

  /** `a << k`, one place at a time */
  function Shl(a: nat, k: nat): nat {
    if k == 0 then a else 2 * Shl(a, k - 1)
  }

  /** `a >> k`, one place at a time */
  function Shr(a: nat, k: nat): nat
    decreases k
  {
    if k == 0 then a else Shr(a / 2, k - 1)
  }

  /** The k lowest bits. */
  function Low(a: nat, k: nat): (r: nat)
    ensures r < Pow2(k)
    decreases k
  {
    if k == 0 then 0 else a % 2 + 2 * Low(a / 2, k - 1)
  }

  lemma {:induction false} OrZero(b: nat)
    ensures Or(0, b) == b
  {
    if b != 0 {
      OrZero(b / 2);
    }
  }

  lemma {:induction false} AndZero(a: nat)
    ensures And(a, 0) == 0
  {
    if a != 0 {
      AndZero(a / 2);
    }
  }

  lemma {:induction false} OrCommutes(a: nat, b: nat)
    ensures Or(a, b) == Or(b, a)
    decreases a + b
  {
    if a != 0 || b != 0 {
      OrCommutes(a / 2, b / 2);
    }
  }

  /** OR-ing in a value shifted past every bit already present is addition. */
  lemma {:induction false} OrIsAddition(a: nat, x: nat, k: nat)
    requires a < Pow2(k)
    ensures Or(a, Shl(x, k)) == a + Shl(x, k)
    decreases k
  {
    if k == 0 {
      OrZero(x);
    } else {
      OrIsAddition(a / 2, x, k - 1);
    }
  }

  /** The mirror image, for an expression that ORs the low field last. */
  lemma {:induction false} HighOrLow(x: nat, k: nat, a: nat)
    requires a < Pow2(k)
    ensures Or(Shl(x, k), a) == Shl(x, k) + a
  {
    OrCommutes(Shl(x, k), a);
    OrIsAddition(a, x, k);
  }

  /** A mask of k ones keeps the k lowest bits. */
  lemma {:induction false} MaskIsLow(a: nat, k: nat)
    ensures And(a, Pow2(k) - 1) == Low(a, k)
    decreases k
  {
    if k == 0 {
      AndZero(a);
    } else {
      MaskIsLow(a / 2, k - 1);
    }
  }

  /** Testing one bit. */
  lemma {:induction false} SingleBit(a: nat, k: nat)
    ensures And(a, Pow2(k)) == Shl(Shr(a, k) % 2, k)
    decreases k
  {
    if k == 0 {
      AndZero(a / 2);
    } else {
      SingleBit(a / 2, k - 1);
    }
  }

  /** Every number is its high part over its low part. */
  lemma {:induction false} HighAndLow(a: nat, k: nat)
    ensures a == Shl(Shr(a, k), k) + Low(a, k)
    decreases k
  {
    if k > 0 {
      HighAndLow(a / 2, k - 1);
    }
  }

  /** Reading the fields back out of a packed integer. */
  lemma {:induction false} Unpack(x: nat, k: nat, low: nat)
    requires low < Pow2(k)
    ensures Shr(Shl(x, k) + low, k) == x && Low(Shl(x, k) + low, k) == low
    decreases k
  {
    if k > 0 {
      Unpack(x, k - 1, low / 2);
    }
  }

  lemma {:induction false} ShlTwice(x: nat, j: nat, k: nat)
    ensures Shl(Shl(x, j), k) == Shl(x, j + k)
  {
    if k > 0 {
      ShlTwice(x, j, k - 1);
    }
  }

  lemma {:induction false} ShlAdds(x: nat, y: nat, k: nat)
    ensures Shl(x + y, k) == Shl(x, k) + Shl(y, k)
    ensures Shl(1, k) == Pow2(k)
  {
    if k > 0 {
      ShlAdds(x, y, k - 1);
    }
  }

  lemma {:induction false} ShrTwice(a: nat, j: nat, k: nat)
    ensures Shr(Shr(a, j), k) == Shr(a, j + k)
    decreases j
  {
    if j > 0 {
      ShrTwice(a / 2, j - 1, k);
    }
  }

  /** A larger high field wins over any low field. */
  lemma {:induction false} ShlMonotone(x: nat, y: nat, k: nat)
    requires x < y
    ensures Shl(x, k) + Pow2(k) <= Shl(y, k)
  {
    if k > 0 {
      ShlMonotone(x, y, k - 1);
    }
  }

  /** Seven places are a factor of 128. */
  lemma {:induction false} SevenPlaces(x: nat, k: nat)
    ensures Shl(x, k + 7) == 128 * Shl(x, k)
    ensures Pow2(k + 7) == 128 * Pow2(k)
  {
    EightTimes(x, k);
    EightTimes(x, k + 3);
  }

  lemma {:induction false} EightTimes(x: nat, k: nat)
    ensures Shl(x, k + 3) == 8 * Shl(x, k)
    ensures Pow2(k + 3) == 8 * Pow2(k)
  {
    assert Shl(x, k + 1) == 2 * Shl(x, k) && Pow2(k + 1) == 2 * Pow2(k);
    assert Shl(x, k + 2) == 2 * Shl(x, k + 1) && Pow2(k + 2) == 2 * Pow2(k + 1);
  }

  /** The low seven bits and the rest, by division. */
  lemma {:induction false} SplitSeven(a: nat)
    ensures Low(a, 7) == a % 128 && Shr(a, 7) == a / 128 && Pow2(7) == 128
  {
    HighAndLow(a, 7);
    SevenPlaces(Shr(a, 7), 0);
  }
}
