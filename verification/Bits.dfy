/** The unsigned shifts and masks that uthash uses, written out on natural numbers. */
module Bits {

  function Pow2(k: nat): (p: nat)
    ensures p >= 1
    decreases k
  {
    if k == 0 then 1 else 2 * Pow2(k - 1)
  }

  /** `x & y`, bit by bit. */
  function And(x: nat, y: nat): (r: nat)
    ensures r <= x && r <= y
    decreases x
  {
    if x == 0 || y == 0 then 0
    else 2 * And(x / 2, y / 2) + (if x % 2 == 1 && y % 2 == 1 then 1 else 0)
  }

  /** `x ^ y`, bit by bit. */
  function Xor(x: nat, y: nat): nat
    decreases x + y
  {
    if x == 0 && y == 0 then 0
    else 2 * Xor(x / 2, y / 2) + (if x % 2 == y % 2 then 0 else 1)
  }

  lemma {:induction false} XorUndoes(x: nat, y: nat)
    ensures Xor(Xor(x, y), y) == x
    decreases x + y
  {
    if x != 0 || y != 0 {
      XorUndoes(x / 2, y / 2);
      var r := Xor(x, y);
      assert r / 2 == Xor(x / 2, y / 2);
    }
  }

  lemma {:induction false} XorBound(x: nat, y: nat, k: nat)
    requires x < Pow2(k) && y < Pow2(k)
    ensures Xor(x, y) < Pow2(k)
    decreases k
  {
    if x != 0 || y != 0 {
      XorBound(x / 2, y / 2, k - 1);
    }
  }

  /** `x >> k`. */
  function Shr(x: nat, k: nat): nat
    decreases k
  {
    if k == 0 then x else Shr(x / 2, k - 1)
  }

  predicate Bit(x: nat, k: nat) { (x / Pow2(k)) % 2 == 1 }

  lemma DivPow2(x: nat, k: nat)
    requires k > 0
    ensures x / Pow2(k) == (x / 2) / Pow2(k - 1)
  {
    var p := Pow2(k - 1);
    var q := (x / 2) / p;
    QuotientIs(x / 2, p, q);
    assert q * (2 * p) == 2 * (q * p) && (q + 1) * (2 * p) == 2 * ((q + 1) * p);
    QuotientIs(x, 2 * p, q);
  }

  lemma QuotientIs(x: nat, p: nat, q: nat)
    requires p > 0
    ensures x / p == q <==> q * p <= x < (q + 1) * p
  {
    var d := x / p;
    assert d * p <= x < (d + 1) * p;
    if q < d {
      assert (q + 1) * p <= d * p by { Monotone(q + 1, d, p); }
    } else if d < q {
      assert (d + 1) * p <= q * p by { Monotone(d + 1, q, p); }
    }
  }

  lemma Monotone(a: nat, b: nat, p: nat)
    requires a <= b
    ensures a * p <= b * p
  {
    assert b * p == a * p + (b - a) * p;
    assert (b - a) * p >= 0;
  }

  lemma BitZero(x: nat)
    ensures Bit(x, 0) <==> x % 2 == 1
  {
  }

  lemma XorHalves(x: nat, y: nat)
    ensures Xor(x, y) / 2 == Xor(x / 2, y / 2)
    ensures Xor(x, y) % 2 == if x % 2 == y % 2 then 0 else 1
  {
  }

  lemma AndHalves(x: nat, y: nat)
    ensures And(x, y) / 2 == And(x / 2, y / 2)
    ensures And(x, y) % 2 == if x % 2 == 1 && y % 2 == 1 then 1 else 0
  {
  }

  /** A bit of `x ^ y` is set exactly when the bits of x and y differ. */
  lemma {:induction false} XorBit(x: nat, y: nat, k: nat)
    ensures Bit(Xor(x, y), k) <==> Bit(x, k) != Bit(y, k)
    decreases k
  {
    XorHalves(x, y);
    hide Xor, Pow2;
    if k == 0 {
      BitZero(x);
      BitZero(y);
      BitZero(Xor(x, y));
    } else {
      XorBit(x / 2, y / 2, k - 1);
      DivPow2(x, k);
      DivPow2(y, k);
      DivPow2(Xor(x, y), k);
    }
  }

  /** A bit of `x & y` is set exactly when it is set in x and in y. */
  lemma {:induction false} AndBit(x: nat, y: nat, k: nat)
    ensures Bit(And(x, y), k) <==> Bit(x, k) && Bit(y, k)
    decreases k
  {
    AndHalves(x, y);
    hide And, Pow2;
    if k == 0 {
      BitZero(x);
      BitZero(y);
      BitZero(And(x, y));
    } else {
      AndBit(x / 2, y / 2, k - 1);
      DivPow2(x, k);
      DivPow2(y, k);
      DivPow2(And(x, y), k);
    }
  }

  lemma DoubledPow2(x: nat, k: nat)
    requires k > 0
    ensures (x * Pow2(k)) / 2 == x * Pow2(k - 1) && (x * Pow2(k)) % 2 == 0
  {
    var p := Pow2(k - 1);
    assert x * (2 * p) == 2 * (x * p);
  }

  /** A bit of `x << k` is the one k places below it in x, and the lowest k bits are clear. */
  lemma {:induction false} ShiftedBit(x: nat, k: nat, j: nat)
    ensures Bit(x * Pow2(k), j) <==> j >= k && Bit(x, j - k)
    decreases k
  {
    if k == 0 {
      assert x * Pow2(0) == x;
    } else {
      DoubledPow2(x, k);
      if j == 0 {
        BitZero(x * Pow2(k));
      } else {
        ShiftedBit(x, k - 1, j - 1);
        DivPow2(x * Pow2(k), j);
      }
    }
  }

  /** The remainder modulo a power of two keeps the bits below it and clears the others. */
  lemma {:induction false} RemainderBit(x: nat, k: nat, q: nat, r: nat, j: nat)
    requires x == q * Pow2(k) + r && r < Pow2(k)
    ensures Bit(r, j) <==> j < k && Bit(x, j)
    decreases k
  {
    if k == 0 {
      NoBits(j);
    } else {
      var t := q * Pow2(k - 1);
      assert q * Pow2(k) == 2 * t;
      assert x / 2 == t + r / 2 && x % 2 == r % 2 && r / 2 < Pow2(k - 1);
      hide Pow2;
      if j == 0 {
        BitZero(x);
        BitZero(r);
      } else {
        RemainderBit(x / 2, k - 1, q, r / 2, j - 1);
        DivPow2(x, j);
        DivPow2(r, j);
      }
    }
  }

  lemma NoBits(j: nat)
    ensures !Bit(0, j)
  {
    hide Pow2;
  }

  /** Numbers are determined by their bits. */
  lemma {:induction false} SameBits(x: nat, y: nat)
    requires forall k: nat :: Bit(x, k) <==> Bit(y, k)
    ensures x == y
    decreases x + y
  {
    if x != 0 || y != 0 {
      assert Bit(x, 0) <==> Bit(y, 0);
      forall k: nat ensures Bit(x / 2, k) <==> Bit(y / 2, k) {
        DivPow2(x, k + 1);
        DivPow2(y, k + 1);
        assert Bit(x, k + 1) <==> Bit(y, k + 1);
      }
      SameBits(x / 2, y / 2);
    }
  }

  /** The shift is division, and the mask is the remainder. */
  lemma ShiftAndMask(x: nat, k: nat)
    ensures Shr(x, k) == x / Pow2(k) && And(x, Pow2(k) - 1) == x % Pow2(k)
  {
    ShiftMask(x, k);
    hide *;
    Division(x, Pow2(k), Shr(x, k), And(x, Pow2(k) - 1));
  }

  lemma Division(x: nat, p: nat, q: nat, r: nat)
    requires x == q * p + r && r < p
    ensures q == x / p && r == x % p
  {
    assert (q + 1) * p == q * p + p;
    QuotientIs(x, p, q);
  }

  /** Masking with one bit more either leaves the value alone or sets the new top bit. */
  lemma {:induction false} AndWiderMask(x: nat, k: nat)
    ensures And(x, Pow2(k + 1) - 1) == And(x, Pow2(k) - 1)
         || And(x, Pow2(k + 1) - 1) == And(x, Pow2(k) - 1) + Pow2(k)
    decreases k
  {
    if k == 0 {
      assert Pow2(1) == 2;
      assert And(x, 0) == 0;
    } else if x != 0 {
      AndWiderMask(x / 2, k - 1);
      assert (Pow2(k + 1) - 1) / 2 == Pow2(k) - 1 && (Pow2(k + 1) - 1) % 2 == 1;
      assert (Pow2(k) - 1) / 2 == Pow2(k - 1) - 1 && (Pow2(k) - 1) % 2 == 1;
    }
  }

  /** The pair of shift and mask is division with remainder by a power of two. */
  lemma {:induction false} ShiftMask(x: nat, k: nat)
    ensures x == Shr(x, k) * Pow2(k) + And(x, Pow2(k) - 1)
    decreases k
  {
    if k == 0 {
      assert And(x, 0) == 0;
    } else {
      ShiftMask(x / 2, k - 1);
      MaskStep(x, Pow2(k - 1));
      Regroup(x, Shr(x / 2, k - 1), Pow2(k - 1), And(x / 2, Pow2(k - 1) - 1));
    }
  }

  lemma MaskStep(x: nat, p: nat)
    requires p >= 1
    ensures And(x, 2 * p - 1) == 2 * And(x / 2, p - 1) + x % 2
  {
    assert (2 * p - 1) / 2 == p - 1 && (2 * p - 1) % 2 == 1;
    if x != 0 {
      assert And(x, 2 * p - 1) == 2 * And(x / 2, (2 * p - 1) / 2) + (if x % 2 == 1 then 1 else 0);
    }
  }

  lemma Regroup(x: nat, q: nat, p: nat, r: nat)
    requires x / 2 == q * p + r
    ensures x == q * (2 * p) + (2 * r + x % 2)
  {
    assert q * (2 * p) == 2 * (q * p);
  }

  /** `(n >> k) + ((n & (2^k - 1)) ? 1 : 0)` is the ceiling of n / 2^k. */
  lemma CeilByShift(n: nat, k: nat)
    ensures var c := Shr(n, k) + (if And(n, Pow2(k) - 1) != 0 then 1 else 0);
            && n <= c * Pow2(k)
            && (n > 0 ==> c > 0 && (c - 1) * Pow2(k) < n)
            && (n == 0 ==> c == 0)
  {
    ShiftMask(n, k);
    CeilFromRemainder(n, Shr(n, k), Pow2(k), And(n, Pow2(k) - 1));
  }

  lemma CeilFromRemainder(n: nat, s: nat, p: nat, r: nat)
    requires n == s * p + r && r < p
    ensures var c := s + (if r != 0 then 1 else 0);
            && n <= c * p
            && (n > 0 ==> c > 0 && (c - 1) * p < n)
            && (n == 0 ==> c == 0)
  {
    assert (s + 1) * p == s * p + p && (s - 1) * p == s * p - p;
  }
}
