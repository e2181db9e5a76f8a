/** JavaScript's 32-bit bitwise operators on integers. */
module Bits {

  const TWO_32 := 0x1_0000_0000
  const TWO_31 := 0x8000_0000

  /** Every bitwise operator first takes its operands modulo 2^32. */
  function ToUint32(x: int): (u: nat)
    ensures u < TWO_32
  {
    x % TWO_32
  }

  /** And reads the result as signed, unless the operator is `>>>`. */
  function ToInt32(x: int): int {
    if ToUint32(x) >= TWO_31 then ToUint32(x) - TWO_32 else ToUint32(x)
  }

  function OrNat(a: nat, b: nat): nat
    decreases a + b
  {
    if a == 0 && b == 0 then 0 else 2 * OrNat(a / 2, b / 2) + (if a % 2 == 1 || b % 2 == 1 then 1 else 0)
  }

  function AndNat(a: nat, b: nat): nat
    decreases a + b
  {
    if a == 0 && b == 0 then 0 else 2 * AndNat(a / 2, b / 2) + (if a % 2 == 1 && b % 2 == 1 then 1 else 0)
  }

  /** `a | b`. */
  function Or(a: int, b: int): int {
    ToInt32(OrNat(ToUint32(a), ToUint32(b)))
  }

  /** `a & b`. */
  function And(a: int, b: int): int {
    ToInt32(AndNat(ToUint32(a), ToUint32(b)))
  }

  function Pow2(k: nat): (p: nat)
    ensures p >= 1
  {
    if k == 0 then 1 else 2 * Pow2(k - 1)
  }

  lemma Pow2Half(k: nat)
    requires k > 0
    ensures Pow2(k) % 2 == 0 && Pow2(k) / 2 == Pow2(k - 1)
  {
  }

  predicate Bit(m: nat, k: nat)
    decreases k
  {
    if k == 0 then m % 2 == 1 else Bit(m / 2, k - 1)
  }

  /** Every bit of `a` is one of `b`. */
  ghost predicate Within(a: nat, b: nat) {
    forall k :: Bit(a, k) ==> Bit(b, k)
  }

  lemma BitHalves(m: nat, k: nat)
    ensures Bit(m, k) <==> if k == 0 then m % 2 == 1 else Bit(m / 2, k - 1)
  {
  }

  lemma {:induction false} OrBits(a: nat, b: nat, k: nat)
    ensures Bit(OrNat(a, b), k) <==> Bit(a, k) || Bit(b, k)
    decreases k
  {
    OrHalves(a, b);
    BitHalves(a, k);
    BitHalves(b, k);
    BitHalves(OrNat(a, b), k);
    if k > 0 {
      OrBits(a / 2, b / 2, k - 1);
    }
  }

  lemma OrHalves(a: nat, b: nat)
    ensures OrNat(a, b) / 2 == OrNat(a / 2, b / 2)
    ensures OrNat(a, b) % 2 == if a % 2 == 1 || b % 2 == 1 then 1 else 0
  {
  }

  lemma AndHalves(a: nat, b: nat)
    ensures AndNat(a, b) / 2 == AndNat(a / 2, b / 2)
    ensures AndNat(a, b) % 2 == if a % 2 == 1 && b % 2 == 1 then 1 else 0
  {
  }

  lemma {:induction false} AndBits(a: nat, b: nat, k: nat)
    ensures Bit(AndNat(a, b), k) <==> Bit(a, k) && Bit(b, k)
    decreases k
  {
    AndHalves(a, b);
    BitHalves(a, k);
    BitHalves(b, k);
    BitHalves(AndNat(a, b), k);
    if k > 0 {
      AndBits(a / 2, b / 2, k - 1);
    }
  }

  /** A number is its bits. */
  lemma {:induction false} BitsDetermine(a: nat, b: nat)
    requires forall k :: Bit(a, k) <==> Bit(b, k)
    ensures a == b
    decreases a + b
  {
    if a != 0 || b != 0 {
      assert Bit(a, 0) <==> Bit(b, 0);
      forall k: nat ensures Bit(a / 2, k) <==> Bit(b / 2, k) {
        assert Bit(a, k + 1) <==> Bit(b, k + 1);
      }
      BitsDetermine(a / 2, b / 2);
    }
  }

  lemma {:induction false} Pow2Bits(i: nat, k: nat)
    ensures Bit(Pow2(i), k) <==> i == k
    decreases k
  {
    if i == 0 {
      if k > 0 {
        ZeroBits(k - 1);
      }
    } else {
      Pow2Half(i);
      if k > 0 {
        Pow2Bits(i - 1, k - 1);
      }
    }
  }

  lemma {:induction false} ZeroBits(k: nat)
    ensures !Bit(0, k)
  {
    if k > 0 {
      ZeroBits(k - 1);
    }
  }

  lemma {:induction false} HighBits(m: nat, n: nat, k: nat)
    requires m < Pow2(n) && k >= n
    ensures !Bit(m, k)
    decreases n
  {
    if n == 0 {
      ZeroBits(k);
    } else {
      Pow2Half(n);
      HighBits(m / 2, n - 1, k - 1);
    }
  }

  lemma {:induction false} SomeBit(m: nat) returns (k: nat)
    requires m > 0
    ensures Bit(m, k)
  {
    if m % 2 == 1 {
      return 0;
    }
    var j := SomeBit(m / 2);
    return j + 1;
  }

  /** `(m & 2^k) != 0` tests bit `k`. */
  lemma AndPow2(m: nat, k: nat)
    ensures AndNat(m, Pow2(k)) != 0 <==> Bit(m, k)
  {
    if AndNat(m, Pow2(k)) != 0 {
      var j := SomeBit(AndNat(m, Pow2(k)));
      AndBits(m, Pow2(k), j);
      Pow2Bits(k, j);
    } else {
      AndBits(m, Pow2(k), k);
      Pow2Bits(k, k);
      ZeroBits(k);
    }
  }

  /** `a & b` gives back `a` exactly when `b` has all its bits. */
  lemma AndIsWithin(a: nat, b: nat)
    ensures AndNat(a, b) == a <==> Within(a, b)
  {
    forall k ensures Bit(AndNat(a, b), k) <==> Bit(a, k) && Bit(b, k) {
      AndBits(a, b, k);
    }
    if Within(a, b) {
      BitsDetermine(AndNat(a, b), a);
    }
  }

  lemma {:induction false} AndBounded(a: nat, b: nat)
    ensures AndNat(a, b) <= a && AndNat(a, b) <= b
    decreases a + b
  {
    if a != 0 || b != 0 {
      AndBounded(a / 2, b / 2);
    }
  }

  /** Setting the next higher bit adds it. */
  lemma {:induction false} OrAdds(a: nat, k: nat)
    requires a < Pow2(k)
    ensures OrNat(a, Pow2(k)) == a + Pow2(k)
    decreases k
  {
    if k > 0 {
      Pow2Half(k);
      OrAdds(a / 2, k - 1);
      OrHalves(a, Pow2(k));
    } else {
      assert OrNat(0, 1) == 1 by {
        OrHalves(0, 1);
      }
    }
  }

  lemma Powers()
    ensures Pow2(31) == TWO_31 && Pow2(32) == TWO_32
  {
    assert Pow2(8) == 0x100;
    assert Pow2(16) == 0x1_0000;
    assert Pow2(24) == 0x100_0000;
    assert Pow2(32) == TWO_32;
  }
}
