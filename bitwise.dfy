// The bitwise operators of the source (`&`, `|`, `& ~`, `~`, `1 << k`) on the
// low `n` bits of non-negative integers, defined bit by bit from the least
// significant end, with the per-bit facts every caller needs.

module Bitwise {

  /** `1 << n`. */
  function Pow2(n: nat): (r: nat)
    ensures r >= 1
  {
    if n == 0 then 1 else 2 * Pow2(n - 1)
  }

  /** `!!(a & (1 << k))`. */
  predicate Bit(a: nat, k: nat)
  {
    if k == 0 then a % 2 == 1 else Bit(a / 2, k - 1)
  }

  function BitValue(on: bool): nat
  {
    if on then 1 else 0
  }

  /** `a & b`, on the low `n` bits. */
  function And(a: nat, b: nat, n: nat): (r: nat)
    ensures r < Pow2(n)
  {
    if n == 0 then 0 else 2 * And(a / 2, b / 2, n - 1) + BitValue(a % 2 == 1 && b % 2 == 1)
  }

  /** `a | b`, on the low `n` bits. */
  function Or(a: nat, b: nat, n: nat): (r: nat)
    ensures r < Pow2(n)
  {
    if n == 0 then 0 else 2 * Or(a / 2, b / 2, n - 1) + BitValue(a % 2 == 1 || b % 2 == 1)
  }

  /** `a & ~b`, on the low `n` bits. */
  function AndNot(a: nat, b: nat, n: nat): (r: nat)
    ensures r < Pow2(n)
  {
    if n == 0 then 0 else 2 * AndNot(a / 2, b / 2, n - 1) + BitValue(a % 2 == 1 && b % 2 == 0)
  }

  /** `~a`, on the low `n` bits. */
  function Not(a: nat, n: nat): (r: nat)
    ensures r < Pow2(n)
  {
    if n == 0 then 0 else 2 * Not(a / 2, n - 1) + BitValue(a % 2 == 0)
  }

  lemma {:induction false} AndBit(a: nat, b: nat, n: nat, k: nat)
    requires k < n
    ensures Bit(And(a, b, n), k) == (Bit(a, k) && Bit(b, k))
  {
    if k > 0 {
      AndBit(a / 2, b / 2, n - 1, k - 1);
    }
  }

  lemma {:induction false} OrBit(a: nat, b: nat, n: nat, k: nat)
    requires k < n
    ensures Bit(Or(a, b, n), k) == (Bit(a, k) || Bit(b, k))
  {
    if k > 0 {
      OrBit(a / 2, b / 2, n - 1, k - 1);
    }
  }

  lemma {:induction false} AndNotBit(a: nat, b: nat, n: nat, k: nat)
    requires k < n
    ensures Bit(AndNot(a, b, n), k) == (Bit(a, k) && !Bit(b, k))
  {
    if k > 0 {
      AndNotBit(a / 2, b / 2, n - 1, k - 1);
    }
  }

  lemma {:induction false} NotBit(a: nat, n: nat, k: nat)
    requires k < n
    ensures Bit(Not(a, n), k) == !Bit(a, k)
  {
    if k > 0 {
      NotBit(a / 2, n - 1, k - 1);
    }
  }

  /** `1 << j` has bit `j` and no other. */
  lemma {:induction false} Pow2Bit(j: nat, k: nat)
    ensures Bit(Pow2(j), k) == (j == k)
  {
    if j > 0 && k > 0 {
      Pow2Bit(j - 1, k - 1);
    } else if j > 0 {
      assert Pow2(j) % 2 == 0;
    } else if k > 0 {
      ZeroHasNoBits(k - 1);
    }
  }

  lemma {:induction false} ZeroHasNoBits(k: nat)
    ensures !Bit(0, k)
  {
    if k > 0 {
      ZeroHasNoBits(k - 1);
    }
  }

  /** Below `2^n`, a number is determined by its low `n` bits. */
  lemma {:induction false} BitsDetermine(a: nat, b: nat, n: nat)
    requires a < Pow2(n) && b < Pow2(n)
    requires forall k: nat | k < n :: Bit(a, k) == Bit(b, k)
    ensures a == b
  {
    if n > 0 {
      forall k: nat | k < n - 1
        ensures Bit(a / 2, k) == Bit(b / 2, k)
      {
        assert Bit(a, k + 1) == Bit(b, k + 1);
      }
      BitsDetermine(a / 2, b / 2, n - 1);
      assert Bit(a, 0) == Bit(b, 0);
    }
  }

  /** `a & (1 << j)` is non-zero exactly when bit `j` of `a` is set. */
  lemma AndPow2NonZero(a: nat, j: nat, n: nat)
    requires j < n
    ensures And(a, Pow2(j), n) != 0 <==> Bit(a, j)
  {
    var r := And(a, Pow2(j), n);
    forall k: nat | k < n
      ensures Bit(r, k) == (k == j && Bit(a, j))
    {
      AndBit(a, Pow2(j), n, k);
      Pow2Bit(j, k);
    }
    ZeroHasNoBits(j);
    if !Bit(a, j) {
      forall k: nat | k < n
        ensures Bit(r, k) == Bit(0, k)
      {
        ZeroHasNoBits(k);
      }
      BitsDetermine(r, 0, n);
    }
  }

  /** Clearing the same bits a second time changes nothing. */
  lemma {:induction false} AndNotTwice(a: nat, b: nat, n: nat)
    ensures AndNot(AndNot(a, b, n), b, n) == AndNot(a, b, n)
  {
    if n > 0 {
      AndNotTwice(a / 2, b / 2, n - 1);
    }
  }

  /** `2^(a+b) = 2^a * 2^b`. */
  lemma {:induction false} Pow2Sum(a: nat, b: nat)
    ensures Pow2(a + b) == Pow2(a) * Pow2(b)
  {
    if a > 0 {
      Pow2Sum(a - 1, b);
    }
  }

  /** The word and double-word bounds. */
  lemma Pow2Words()
    ensures Pow2(8) == 0x100 && Pow2(16) == 0x10000 && Pow2(32) == 0x1_0000_0000
  {
    assert Pow2(4) == 16;
    Pow2Sum(4, 4);
    Pow2Sum(8, 8);
    Pow2Sum(16, 16);
  }

  /** A number below `2^n` has no bit at `n` or above. */
  lemma {:induction false} HighBitsClear(a: nat, n: nat, k: nat)
    requires a < Pow2(n) && n <= k
    ensures !Bit(a, k)
  {
    if n == 0 {
      ZeroHasNoBits(k);
    } else {
      HighBitsClear(a / 2, n - 1, k - 1);
    }
  }

  /** `~a` on the low `n` bits of a number below `2^n` is `2^n - 1 - a`. */
  lemma {:induction false} NotIsComplement(a: nat, n: nat)
    requires a < Pow2(n)
    ensures Not(a, n) == Pow2(n) - 1 - a
  {
    if n > 0 {
      NotIsComplement(a / 2, n - 1);
    }
  }

  /** `a & b` of numbers below `2^n` is the same on any wider width. */
  lemma {:induction false} AndOfSmall(a: nat, b: nat, n: nat, m: nat)
    requires a < Pow2(n) && b < Pow2(n) && n <= m
    ensures And(a, b, m) == And(a, b, n)
  {
    if n == 0 {
      if m > 0 {
        AndOfSmall(0, 0, 0, m - 1);
      }
    } else {
      AndOfSmall(a / 2, b / 2, n - 1, m - 1);
    }
  }

  /** The complement `2^n - 1 - a` of a number below `2^n` flips each of its `n` low bits. */
  lemma ComplementFlipsBits(a: nat, n: nat)
    requires a < Pow2(n)
    ensures forall k: nat | k < n :: Bit(Pow2(n) - 1 - a, k) == !Bit(a, k)
  {
    NotIsComplement(a, n);
    forall k: nat | k < n
      ensures Bit(Pow2(n) - 1 - a, k) == !Bit(a, k)
    {
      NotBit(a, n, k);
    }
  }
}
