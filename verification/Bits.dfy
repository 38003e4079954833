/** Exclusive or on unsigned integers, bit by bit. */
module Bits {

  function Pow2(k: nat): (r: nat)
    ensures r >= 1
  {
    if k == 0 then 1 else 2 * Pow2(k - 1)
  }

  function Xor(a: nat, b: nat): (r: nat)
    decreases a + b
  {
    if a == 0 && b == 0 then 0
    else 2 * Xor(a / 2, b / 2) + (if a % 2 == b % 2 then 0 else 1)
  }

  lemma {:induction false} XorZero(a: nat)
    ensures Xor(a, 0) == a && Xor(0, a) == a
  {
    if a > 0 {
      XorZero(a / 2);
    }
  }

  lemma {:induction false} XorSelf(a: nat)
    ensures Xor(a, a) == 0
  {
    if a > 0 {
      XorSelf(a / 2);
    }
  }

  lemma {:induction false} XorCommutes(a: nat, b: nat)
    ensures Xor(a, b) == Xor(b, a)
    decreases a + b
  {
    if a + b > 0 {
      XorCommutes(a / 2, b / 2);
    }
  }

  lemma XorHalves(a: nat, b: nat)
    ensures Xor(a, b) / 2 == Xor(a / 2, b / 2)
    ensures Xor(a, b) % 2 == if a % 2 == b % 2 then 0 else 1
  {
  }

  lemma {:induction false} XorAssociates(a: nat, b: nat, c: nat)
    ensures Xor(Xor(a, b), c) == Xor(a, Xor(b, c))
    decreases a + b + c
  {
    if a == 0 {
      XorZero(b);
      XorZero(Xor(b, c));
    } else {
      XorAssociates(a / 2, b / 2, c / 2);
      XorHalves(a, b);
      XorHalves(b, c);
      XorHalves(Xor(a, b), c);
      XorHalves(a, Xor(b, c));
      Recompose(Xor(Xor(a, b), c), Xor(a, Xor(b, c)));
    }
  }

  lemma Recompose(x: nat, y: nat)
    requires x / 2 == y / 2 && x % 2 == y % 2
    ensures x == y
  {
  }

  /** Two sums of two terms may be regrouped. */
  lemma XorRegroup(a: nat, b: nat, c: nat, d: nat)
    ensures Xor(Xor(a, b), Xor(c, d)) == Xor(Xor(a, c), Xor(b, d))
  {
    XorAssociates(a, b, Xor(c, d));
    XorAssociates(b, c, d);
    XorCommutes(b, c);
    XorAssociates(c, b, d);
    XorAssociates(a, c, Xor(b, d));
  }

  lemma XorCancel(a: nat, b: nat, c: nat)
    requires Xor(a, c) == Xor(b, c)
    ensures a == b
  {
    XorAssociates(a, c, c);
    XorAssociates(b, c, c);
    XorSelf(c);
    XorZero(a);
    XorZero(b);
  }

  lemma {:induction false} XorBound(a: nat, b: nat, k: nat)
    requires a < Pow2(k) && b < Pow2(k)
    ensures Xor(a, b) < Pow2(k)
  {
    if k > 0 {
      XorBound(a / 2, b / 2, k - 1);
    }
  }

  /** A bit above every bit of `a` survives the xor with `a`. */
  lemma {:induction false} XorKeepsTop(a: nat, b: nat, k: nat)
    requires a < Pow2(k) <= b
    ensures Xor(a, b) >= Pow2(k)
  {
    if k == 0 {
      XorZero(b);
    } else {
      XorKeepsTop(a / 2, b / 2, k - 1);
    }
  }

  /** A highest bit that both numbers have is cleared. */
  lemma {:induction false} XorDropsTop(a: nat, b: nat, k: nat)
    requires Pow2(k) <= a < Pow2(k + 1) && Pow2(k) <= b < Pow2(k + 1)
    ensures Xor(a, b) < Pow2(k)
  {
    if k == 0 {
      assert Pow2(1) == 2 * Pow2(0);
      XorSelf(a);
    } else {
      XorDropsTop(a / 2, b / 2, k - 1);
    }
  }

  /** Xoring a number with its own `k` low bits clears them. */
  lemma {:induction false} XorLowBits(high: nat, low: nat, k: nat)
    requires low < Pow2(k)
    ensures Xor(Pow2(k) * high + low, low) == Pow2(k) * high
    decreases k
  {
    if k == 0 {
      XorZero(high);
    } else {
      var p, c := Pow2(k - 1), Pow2(k) * high + low;
      assert c == 2 * (p * high) + low;
      assert c / 2 == p * high + low / 2 && c % 2 == low % 2;
      XorLowBits(high, low / 2, k - 1);
      XorHalves(c, low);
      assert Xor(c, low) == 2 * (p * high);
    }
  }
}
