// Bitwise operations on natural numbers, stated bit by bit.
module Bits {
  function Pow2(k: nat): (r: nat)
    ensures r >= 1
  {
    if k == 0 then 1 else 2 * Pow2(k - 1)
  }

  predicate Bit(n: nat, i: nat) {
    if i == 0 then n % 2 == 1 else Bit(n / 2, i - 1)
  }

  function Or(a: nat, b: nat): nat {
    if a == 0 && b == 0 then 0
    else (if a % 2 == 1 || b % 2 == 1 then 1 else 0) + 2 * Or(a / 2, b / 2)
  }

  function And(a: nat, b: nat): nat {
    if a == 0 || b == 0 then 0
    else (if a % 2 == 1 && b % 2 == 1 then 1 else 0) + 2 * And(a / 2, b / 2)
  }

  // A left shift of a 32-bit word: bits pushed past bit 31 are lost.
  function Shl32(n: nat, s: nat): (r: nat)
    ensures r < 0x1_0000_0000
  {
    n * Pow2(s) % 0x1_0000_0000
  }

  // A right shift, one bit at a time.
  function Shr(n: nat, s: nat): nat
    decreases s
  {
    if s == 0 then n else Shr(n / 2, s - 1)
  }

  lemma {:induction false} BitZero(i: nat)
    ensures !Bit(0, i)
  {
    if i > 0 { BitZero(i - 1); }
  }

  lemma {:induction false} BitOr(a: nat, b: nat, i: nat)
    ensures Bit(Or(a, b), i) <==> Bit(a, i) || Bit(b, i)
  {
    if i > 0 {
      BitOr(a / 2, b / 2, i - 1);
      if a == 0 && b == 0 { BitZero(i - 1); }
    }
  }

  lemma {:induction false} BitAnd(a: nat, b: nat, i: nat)
    ensures Bit(And(a, b), i) <==> Bit(a, i) && Bit(b, i)
  {
    if a == 0 || b == 0 {
      BitZero(i);
    } else if i > 0 {
      BitAnd(a / 2, b / 2, i - 1);
    }
  }

  lemma Quotient(n: nat, p: nat, q: nat, r: nat)
    requires r < p && n == p * q + r
    ensures n / p == q && n % p == r
  {
    var d := q - n / p;
    assert p * d == p * q - p * (n / p);
    SmallMultiple(p, d);
  }

  lemma SmallMultiple(p: int, d: int)
    requires -p < p * d < p
    ensures d == 0
  {
  }

  lemma {:induction false} BitShr(n: nat, s: nat, i: nat)
    ensures Bit(Shr(n, s), i) == Bit(n, s + i)
  {
    if s > 0 { BitShr(n / 2, s - 1, i); }
  }

  lemma {:induction false} BitShl(n: nat, s: nat, i: nat)
    ensures Bit(n * Pow2(s), i) <==> s <= i && Bit(n, i - s)
  {
    if s > 0 {
      assert n * Pow2(s) == 2 * (n * Pow2(s - 1));
      if i > 0 { BitShl(n, s - 1, i - 1); }
    }
  }

  lemma ModHalves(n: nat, p: nat)
    requires p >= 1
    ensures n % (2 * p) / 2 == n / 2 % p
    ensures n % (2 * p) % 2 == n % 2
  {
    var q, r := n / 2 / p, n / 2 % p;
    assert n == 2 * (p * q + r) + n % 2;
    assert 2 * (p * q + r) == 2 * p * q + 2 * r;
    Quotient(n, 2 * p, q, 2 * r + n % 2);
  }

  lemma {:induction false} BitMod(n: nat, k: nat, i: nat)
    ensures Bit(n % Pow2(k), i) <==> i < k && Bit(n, i)
  {
    if k == 0 {
      BitZero(i);
    } else {
      ModHalves(n, Pow2(k - 1));
      if i > 0 { BitMod(n / 2, k - 1, i - 1); }
    }
  }

  lemma {:induction false} BitsBelow(n: nat, k: nat, i: nat)
    requires n < Pow2(k) && k <= i
    ensures !Bit(n, i)
  {
    if i > 0 && k > 0 {
      BitsBelow(n / 2, k - 1, i - 1);
    } else {
      BitZero(i);
    }
  }

  // Two numbers with the same bits are the same number.
  lemma {:induction false} SameBits(a: nat, b: nat)
    requires forall i: nat :: Bit(a, i) <==> Bit(b, i)
    ensures a == b
  {
    assert Bit(a, 0) <==> Bit(b, 0);
    if a > 0 || b > 0 {
      forall i: nat ensures Bit(a / 2, i) <==> Bit(b / 2, i) {
        assert Bit(a, i + 1) <==> Bit(b, i + 1);
      }
      if a / 2 + b / 2 < a + b { SameBits(a / 2, b / 2); }
    }
  }

  lemma {:induction false} BitsOfOnes(k: nat, i: nat)
    ensures Bit(Pow2(k) - 1, i) <==> i < k
  {
    if k == 0 {
      BitZero(i);
    } else {
      assert (Pow2(k) - 1) / 2 == Pow2(k - 1) - 1;
      if i > 0 { BitsOfOnes(k - 1, i - 1); }
    }
  }

  // A mask of k one bits keeps the remainder modulo 2^k.
  lemma MaskIsRemainder(n: nat, k: nat)
    ensures And(n, Pow2(k) - 1) == n % Pow2(k)
  {
    forall i: nat ensures Bit(And(n, Pow2(k) - 1), i) <==> Bit(n % Pow2(k), i) {
      BitAnd(n, Pow2(k) - 1, i);
      BitsOfOnes(k, i);
      BitMod(n, k, i);
    }
    SameBits(And(n, Pow2(k) - 1), n % Pow2(k));
  }

  lemma Pow2Is32()
    ensures Pow2(8) == 0x100 && Pow2(16) == 0x1_0000 && Pow2(24) == 0x100_0000 && Pow2(32) == 0x1_0000_0000
  {
    assert Pow2(4) == 16;
    assert Pow2(8) == 0x100;
    assert Pow2(12) == 0x1000;
    assert Pow2(16) == 0x1_0000;
    assert Pow2(20) == 0x10_0000;
    assert Pow2(24) == 0x100_0000;
    assert Pow2(28) == 0x1000_0000;
  }

  lemma {:induction false} Pow2Grows(a: nat, b: nat)
    requires a <= b
    ensures Pow2(a) <= Pow2(b)
  {
    if a < b { Pow2Grows(a, b - 1); }
  }

  lemma BitShl32(n: nat, s: nat, i: nat)
    ensures Bit(Shl32(n, s), i) <==> s <= i < 32 && Bit(n, i - s)
  {
    Pow2Is32();
    BitMod(n * Pow2(s), 32, i);
    BitShl(n, s, i);
  }
}
