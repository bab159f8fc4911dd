/** The bits of the 32-bit words in which the decoder notes the required fields it has seen. */
module PbBits {
  import opened Coding

  const WORD: nat := 32

  predicate IsWord(w: nat) { w < Pow2(WORD) }

  predicate Bit(w: nat, i: nat) {
    if i == 0 then w % 2 == 1 else Bit(w / 2, i - 1)
  }

  /** `w | (1 << i)`. */
  function WithBit(w: nat, i: nat): nat { if Bit(w, i) then w else w + Pow2(i) }

  /** `~0 >> (32 - n)`: the lowest `n` bits. */
  function LowBits(n: nat): nat { Pow2(n) - 1 }

  lemma Twice(n: nat)
    ensures Pow2(0) == 1 && Pow2(n + 1) == 2 * Pow2(n)
  {
  }

  lemma {:induction false} WithBitIs(w: nat, i: nat, j: nat)
    ensures Bit(WithBit(w, i), j) <==> Bit(w, j) || i == j
  {
    if !Bit(w, i) {
      Twice(if i > 0 then i - 1 else 0);
      if i > 0 {
        assert WithBit(w, i) == w + 2 * Pow2(i - 1) && WithBit(w / 2, i - 1) == w / 2 + Pow2(i - 1);
        if j > 0 {
          WithBitIs(w / 2, i - 1, j - 1);
        }
      }
    }
  }

  lemma {:induction false} WithBitFits(w: nat, i: nat, n: nat)
    requires w < Pow2(n) && i < n
    ensures WithBit(w, i) < Pow2(n)
  {
    Twice(n - 1);
    if !Bit(w, i) && i > 0 {
      Twice(i - 1);
      assert w / 2 < Pow2(n - 1);
      WithBitFits(w / 2, i - 1, n - 1);
      assert WithBit(w, i) == w + 2 * Pow2(i - 1) && WithBit(w / 2, i - 1) == w / 2 + Pow2(i - 1);
    }
  }

  lemma {:induction false} LowBitsAre(n: nat, j: nat)
    ensures Bit(LowBits(n), j) <==> j < n
  {
    if n > 0 {
      Twice(n - 1);
      assert LowBits(n) == 2 * LowBits(n - 1) + 1;
      if j > 0 {
        assert LowBits(n) / 2 == LowBits(n - 1);
        LowBitsAre(n - 1, j - 1);
      }
    } else {
      NoBits(j);
    }
  }

  lemma {:induction false} NoBits(j: nat)
    ensures !Bit(0, j)
  {
    if j > 0 {
      NoBits(j - 1);
    }
  }

  /** Words with the same bits are equal. */
  lemma {:induction false} SameBits(a: nat, b: nat, n: nat)
    requires a < Pow2(n) && b < Pow2(n) && forall j: nat :: j < n ==> (Bit(a, j) <==> Bit(b, j))
    ensures a == b
  {
    if n > 0 {
      Twice(n - 1);
      forall j: nat | j < n - 1
        ensures Bit(a / 2, j) <==> Bit(b / 2, j)
      {
        assert Bit(a, j + 1) <==> Bit(b, j + 1);
      }
      SameBits(a / 2, b / 2, n - 1);
      assert Bit(a, 0) <==> Bit(b, 0);
    } else {
      Twice(0);
    }
  }

  /** The lowest `n` bits are set, and no other one is. */
  ghost predicate IsLow(w: nat, n: nat) {
    forall j: nat :: j < WORD ==> (Bit(w, j) <==> j < n)
  }

  lemma LowIsLow(n: nat)
    ensures IsLow(LowBits(n), n)
  {
    hide Bit, LowBits;
    forall j: nat | j < WORD
      ensures Bit(LowBits(n), j) <==> j < n
    {
      LowBitsAre(n, j);
    }
  }

  /** The masked comparison is exact. */
  lemma MaskIsExact(w: nat, n: nat)
    requires IsWord(w) && n <= WORD
    ensures w == LowBits(n) <==> IsLow(w, n)
  {
    LowIsLow(n);
    if IsLow(w, n) {
      hide Bit, LowBits, Pow2;
      LowBitsFit(n, WORD);
      SameBits(w, LowBits(n), WORD);
    }
  }

  lemma {:induction false} LowBitsFit(n: nat, m: nat)
    requires n <= m
    ensures LowBits(n) < Pow2(m)
  {
    if n < m {
      Twice(m - 1);
      LowBitsFit(n, m - 1);
    }
  }
}
