/** 64-bit words as numbers, with exclusive-or defined bit by bit. */
module Words {

  const WORD_SIZE: nat := 0x1_0000_0000_0000_0000

  type Word = w: nat | w < WORD_SIZE

  function Pow2(n: nat): (p: nat)
    ensures p > 0
  {
    if n == 0 then 1 else 2 * Pow2(n - 1)
  }

  function BitXor(a: nat, b: nat): nat
    decreases a + b
  {
    if a == 0 && b == 0 then 0 else 2 * BitXor(a / 2, b / 2) + (a + b) % 2
  }

  function Xor(a: Word, b: Word): Word
  {
    WordRange();
    BitXorBound(64, a, b);
    BitXor(a, b)
  }

  lemma {:induction false} Pow2Sum(a: nat, b: nat)
    ensures Pow2(a + b) == Pow2(a) * Pow2(b)
  {
    if b > 0 {
      Pow2Sum(a, b - 1);
      assert Pow2(a + b) == 2 * Pow2(a + (b - 1));
    }
  }

  lemma Pow2By16(n: nat)
    ensures Pow2(n + 16) == 0x1_0000 * Pow2(n)
  {
    Pow2By4(n);
    Pow2By4(n + 4);
    Pow2By4(n + 8);
    Pow2By4(n + 12);
  }

  lemma Pow2By4(n: nat)
    ensures Pow2(n + 4) == 16 * Pow2(n)
  {
    assert Pow2(n + 2) == 4 * Pow2(n);
  }

  lemma WordRange()
    ensures Pow2(64) == WORD_SIZE
  {
    Pow2By16(0);
    Pow2By16(16);
    Pow2By16(32);
    Pow2By16(48);
  }

  lemma {:induction false} BitXorBound(n: nat, a: nat, b: nat)
    requires a < Pow2(n) && b < Pow2(n)
    ensures BitXor(a, b) < Pow2(n)
  {
    if n > 0 && (a > 0 || b > 0) {
      BitXorBound(n - 1, a / 2, b / 2);
    }
  }

  lemma {:induction false} BitXorComm(a: nat, b: nat)
    ensures BitXor(a, b) == BitXor(b, a)
    decreases a + b
  {
    if a > 0 || b > 0 {
      BitXorComm(a / 2, b / 2);
    }
  }

  lemma {:induction false} BitXorUnits(a: nat)
    ensures BitXor(a, 0) == a && BitXor(a, a) == 0
  {
    if a > 0 {
      BitXorUnits(a / 2);
    }
  }

  lemma BitXorHalves(a: nat, b: nat)
    ensures BitXor(a, b) / 2 == BitXor(a / 2, b / 2)
    ensures BitXor(a, b) % 2 == (a + b) % 2
  {
  }

  lemma SameParity(x: nat, n: nat, c: nat)
    requires x % 2 == n % 2
    ensures (x + c) % 2 == (n + c) % 2
  {
  }

  lemma SameHalves(x: nat, y: nat)
    requires x / 2 == y / 2 && x % 2 == y % 2
    ensures x == y
  {
  }

  lemma {:induction false} BitXorAssoc(a: nat, b: nat, c: nat, ab: nat, bc: nat)
    requires ab == BitXor(a, b) && bc == BitXor(b, c)
    ensures BitXor(ab, c) == BitXor(a, bc)
    decreases a + b + c
  {
    hide BitXor;
    BitXorUnits(0);
    if a > 0 || b > 0 || c > 0 {
      BitXorHalves(a, b);
      BitXorHalves(b, c);
      BitXorAssoc(a / 2, b / 2, c / 2, ab / 2, bc / 2);
      BitXorHalves(ab, c);
      BitXorHalves(a, bc);
      SameParity(ab, a + b, c);
      SameParity(bc, b + c, a);
      SameHalves(BitXor(ab, c), BitXor(a, bc));
    }
  }

  /** Bit i of n, counted from the lowest. */
  function Bit(n: nat, i: nat): nat {
    if i == 0 then n % 2 else Bit(n / 2, i - 1)
  }

  lemma {:induction false} BitXorBits(a: nat, b: nat, i: nat)
    ensures Bit(BitXor(a, b), i) == if Bit(a, i) == Bit(b, i) then 0 else 1
  {
    hide BitXor;
    BitXorHalves(a, b);
    if i == 0 {
      ParityOfSum(a, b);
    } else {
      BitXorBits(a / 2, b / 2, i - 1);
    }
  }

  lemma ParityOfSum(a: nat, b: nat)
    ensures (a + b) % 2 == if a % 2 == b % 2 then 0 else 1
  {
  }

  /** Exclusive-or bit by bit: a bit of the result is set exactly when that bit of a and that of b differ. */
  lemma XorBits(a: Word, b: Word, i: nat)
    ensures Bit(Xor(a, b), i) == if Bit(a, i) == Bit(b, i) then 0 else 1
  {
    BitXorBits(a, b, i);
  }

  /** A word is determined by its 64 bits. */
  lemma {:induction false} SameBits(n: nat, a: nat, b: nat)
    requires a < Pow2(n) && b < Pow2(n) && forall i | 0 <= i < n :: Bit(a, i) == Bit(b, i)
    ensures a == b
  {
    if n > 0 {
      assert Bit(a, 0) == Bit(b, 0);
      forall i | 0 <= i < n - 1
        ensures Bit(a / 2, i) == Bit(b / 2, i)
      {
        assert Bit(a, i + 1) == Bit(b, i + 1);
      }
      SameBits(n - 1, a / 2, b / 2);
    }
  }

  /** Words under exclusive-or form a commutative group in which every word is its own inverse. */
  lemma XorLaws(a: Word, b: Word, c: Word)
    ensures Xor(Xor(a, b), c) == Xor(a, Xor(b, c))
    ensures Xor(a, b) == Xor(b, a)
    ensures Xor(a, 0) == a && Xor(a, a) == 0
  {
    BitXorAssoc(a, b, c, Xor(a, b), Xor(b, c));
    BitXorComm(a, b);
    BitXorUnits(a);
  }
}
