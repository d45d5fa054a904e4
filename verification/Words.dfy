/** 64-bit machine words as naturals, read bit by bit from the low end.

    Halving is `>> 1`, doubling is `<< 1` and the parity is bit 0, so each
    function below is the meaning of one machine instruction. */
module Words {

  const U64_LIMIT: nat := 0x1_0000_0000_0000_0000

  type u64 = x: int | 0 <= x < U64_LIMIT

  const ALL_ONES: u64 := 0xFFFF_FFFF_FFFF_FFFF

  /** `(w >> i) & 1 == 1`. */
  predicate Bit(w: nat, i: nat) {
    if i == 0 then w % 2 == 1 else Bit(w / 2, i - 1)
  }

  /** `w | (1 << i)`. */
  function WithBit(w: nat, i: nat): nat {
    if i == 0 then w / 2 * 2 + 1 else WithBit(w / 2, i - 1) * 2 + w % 2
  }

  /** `w & !(1 << i)`. */
  function WithoutBit(w: nat, i: nat): nat {
    if i == 0 then w / 2 * 2 else WithoutBit(w / 2, i - 1) * 2 + w % 2
  }

  /** `w.count_ones()`. */
  function PopCount(w: nat): nat {
    if w == 0 then 0 else w % 2 + PopCount(w / 2)
  }

  /** `(!w).trailing_zeros()`: the number of ones below the lowest zero. */
  function TrailingOnes(w: nat): nat {
    if w % 2 == 0 then 0 else 1 + TrailingOnes(w / 2)
  }

  function Pow2(n: nat): (p: nat)
    ensures p > 0
  {
    if n == 0 then 1 else 2 * Pow2(n - 1)
  }

  lemma Pow2At64()
    ensures Pow2(64) == U64_LIMIT
  {
    assert Pow2(8) == 256;
    assert Pow2(16) == 0x1_0000;
    assert Pow2(24) == 0x100_0000;
    assert Pow2(32) == 0x1_0000_0000;
    assert Pow2(40) == 0x100_0000_0000;
    assert Pow2(48) == 0x1_0000_0000_0000;
    assert Pow2(56) == 0x100_0000_0000_0000;
  }

  lemma {:induction false} BitOfWithBit(w: nat, i: nat, j: nat)
    ensures Bit(WithBit(w, i), j) <==> Bit(w, j) || i == j
  {
    if i > 0 && j > 0 {
      BitOfWithBit(w / 2, i - 1, j - 1);
    }
  }

  lemma {:induction false} BitOfWithoutBit(w: nat, i: nat, j: nat)
    ensures Bit(WithoutBit(w, i), j) <==> Bit(w, j) && i != j
  {
    if i > 0 && j > 0 {
      BitOfWithoutBit(w / 2, i - 1, j - 1);
    }
  }

  /** Setting or clearing a bit below `n` keeps a word below `2^n`. */
  lemma {:induction false} BitUpdatesFit(w: nat, i: nat, n: nat)
    requires i < n && w < Pow2(n)
    ensures WithBit(w, i) < Pow2(n) && WithoutBit(w, i) < Pow2(n)
  {
    assert Pow2(n) == 2 * Pow2(n - 1) && w / 2 < Pow2(n - 1);
    if i > 0 {
      BitUpdatesFit(w / 2, i - 1, n - 1);
    }
  }

  lemma {:induction false} NoBitsInZero(i: nat)
    ensures !Bit(0, i)
  {
    if i > 0 { NoBitsInZero(i - 1); }
  }

  /** Bits at or above the width of a word are clear. */
  lemma {:induction false} HighBitsClear(w: nat, n: nat, i: nat)
    requires w < Pow2(n) && n <= i
    ensures !Bit(w, i)
  {
    if n == 0 {
      NoBitsInZero(i);
    } else {
      HighBitsClear(w / 2, n - 1, i - 1);
    }
  }

  /** The lowest zero of a word that is not all ones lies below its width,
      and every bit under it is set. */
  lemma {:induction false} LowestZero(w: nat, n: nat)
    requires w < Pow2(n) - 1
    ensures TrailingOnes(w) < n
    ensures !Bit(w, TrailingOnes(w))
    ensures forall i: nat :: i < TrailingOnes(w) ==> Bit(w, i)
  {
    if w % 2 == 1 {
      LowestZero(w / 2, n - 1);
      forall i: nat | i < TrailingOnes(w)
        ensures Bit(w, i)
      {
        if i > 0 { assert Bit(w / 2, i - 1); }
      }
    }
  }

  lemma {:induction false} AllOnesHasEveryBit(n: nat, i: nat)
    requires i < n
    ensures Bit(Pow2(n) - 1, i)
  {
    if i > 0 {
      assert (Pow2(n) - 1) / 2 == Pow2(n - 1) - 1;
      AllOnesHasEveryBit(n - 1, i - 1);
    }
  }

  /** How many of the bits below `n` are set. */
  ghost function CountBelow(w: nat, n: nat): nat {
    if n == 0 then 0 else CountBelow(w, n - 1) + (if Bit(w, n - 1) then 1 else 0)
  }

  lemma {:induction false} CountBelowFromLow(w: nat, n: nat)
    ensures CountBelow(w, n + 1) == w % 2 + CountBelow(w / 2, n)
  {
    if n > 0 { CountBelowFromLow(w, n - 1); }
  }

  /** `count_ones` is the number of set positions. */
  lemma {:induction false} PopCountCountsBits(w: nat, n: nat)
    requires w < Pow2(n)
    ensures PopCount(w) == CountBelow(w, n)
  {
    if n > 0 {
      CountBelowFromLow(w, n - 1);
      PopCountCountsBits(w / 2, n - 1);
    }
  }

  // ---- OR ----

  function Or(a: nat, b: nat): nat
    decreases a + b
  {
    if a == 0 && b == 0 then 0
    else (if a % 2 == 1 || b % 2 == 1 then 1 else 0) + 2 * Or(a / 2, b / 2)
  }

  lemma {:induction false} OrFits(a: nat, b: nat, n: nat)
    requires a < Pow2(n) && b < Pow2(n)
    ensures Or(a, b) < Pow2(n)
  {
    if n > 0 { OrFits(a / 2, b / 2, n - 1); }
  }

  lemma {:induction false} OrNothing(a: nat)
    ensures Or(a, 0) == a
  {
    if a > 0 { OrNothing(a / 2); }
  }

  /** Every bit of `b` is one of `a`. */
  ghost predicate BitsWithin(b: nat, a: nat) { forall i: nat :: Bit(b, i) ==> Bit(a, i) }

  lemma BitsWithinHalves(b: nat, a: nat)
    ensures BitsWithin(b, a) <==> (b % 2 == 1 ==> a % 2 == 1) && BitsWithin(b / 2, a / 2)
  {
    assert Bit(b, 0) <==> b % 2 == 1;
    assert Bit(a, 0) <==> a % 2 == 1;
    forall i: nat ensures (Bit(b, i + 1) <==> Bit(b / 2, i)) && (Bit(a, i + 1) <==> Bit(a / 2, i)) {}
    if BitsWithin(b, a) {
      forall i: nat | Bit(b / 2, i) ensures Bit(a / 2, i) { assert Bit(b, i + 1); }
    }
    if BitsWithin(b / 2, a / 2) && (b % 2 == 1 ==> a % 2 == 1) {
      forall i: nat | Bit(b, i) ensures Bit(a, i) {
        if i > 0 { assert Bit(b / 2, i - 1); }
      }
    }
  }

  /** An OR changes nothing exactly when it brings no new bit. */
  lemma {:induction false} OrKeepsIff(a: nat, b: nat)
    ensures Or(a, b) == a <==> BitsWithin(b, a)
    decreases a + b
  {
    if a == 0 && b == 0 {
    } else {
      BitsWithinHalves(b, a);
      OrKeepsIff(a / 2, b / 2);
    }
  }
}
