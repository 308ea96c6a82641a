/** One-word bit arithmetic: what a machine shift does to each bit of a 64-bit word. */
module Words {

  function Double(w: bv64): bv64 { w << 1 }

  function Half(w: bv64): bv64 { w >> 1 }

  function Or(x: bv64, y: bv64): bv64 { x | y }

  function And(x: bv64, y: bv64): bv64 { x & y }

  /** The word `1 << k`. A shift by a variable amount is written as that many one-place shifts. */
  function Mask(k: nat): bv64 {
    if k == 0 then 1 else Double(Mask(k - 1))
  }

  /** The word `w << n`. */
  function ShiftLeft(w: bv64, n: nat): bv64 {
    if n == 0 then w else Double(ShiftLeft(w, n - 1))
  }

  /** The word `w >> n`. */
  function ShiftRight(w: bv64, n: nat): bv64 {
    if n == 0 then w else Half(ShiftRight(w, n - 1))
  }

  /** The two words have a bit in common. */
  predicate Meets(w: bv64, m: bv64) {
    And(w, m) != 0
  }

  predicate TestBit(w: bv64, k: nat)
    requires k < 64
  {
    Meets(w, Mask(k))
  }

  // ---- facts about words alone, with no bit index in sight ----

  predicate AtMostOneBit(m: bv64) {
    m & (m - 1) == 0
  }

  lemma DoubleKeepsOneBit(m: bv64)
    requires AtMostOneBit(m)
    ensures AtMostOneBit(Double(m))
  {
  }

  lemma ZeroMeets(m: bv64)
    ensures !Meets(0, m)
  {
  }

  lemma EitherNonZero(x: bv64, y: bv64)
    ensures (Or(x, y) != 0) == (x != 0 || y != 0)
  {
  }

  lemma OrMeets(x: bv64, y: bv64, m: bv64)
    ensures Meets(Or(x, y), m) == (Meets(x, m) || Meets(y, m))
  {
    hide And, Or;
    AndDistributes(x, y, m);
    EitherNonZero(And(x, m), And(y, m));
  }

  lemma AndDistributes(x: bv64, y: bv64, m: bv64)
    ensures And(Or(x, y), m) == Or(And(x, m), And(y, m))
  {
    assert (x | y) & m == (x & m) | (y & m);
  }

  lemma DoubleIsEven(m: bv64)
    ensures !Meets(Double(m), 1) && !Meets(1, Double(m))
  {
  }

  lemma DoubleMeetsDouble(w: bv64, m: bv64)
    requires AtMostOneBit(m) && Double(m) != 0
    ensures Meets(Double(w), Double(m)) == Meets(w, m)
  {
  }

  lemma HalfClearsTop(w: bv64)
    ensures !Meets(Half(w), 0x8000_0000_0000_0000)
  {
  }

  lemma HalfMeets(w: bv64, m: bv64)
    ensures Meets(Half(w), m) == Meets(w, Double(m))
  {
  }

  // ---- masks ----

  lemma TopMask()
    ensures Mask(63) == 0x8000_0000_0000_0000
  {
    assert Mask(8) == 0x100;
    assert Mask(16) == 0x1_0000;
    assert Mask(24) == 0x100_0000;
    assert Mask(32) == 0x1_0000_0000;
    assert Mask(40) == 0x100_0000_0000;
    assert Mask(48) == 0x1_0000_0000_0000;
    assert Mask(56) == 0x100_0000_0000_0000;
  }

  lemma {:induction false} MaskSurvives(k: nat)
    requires k < 64
    ensures Mask(k) != 0
    decreases 64 - k
  {
    if k == 63 {
      TopMask();
    } else {
      MaskSurvives(k + 1);
    }
  }

  /** Every mask is a single bit, and none of the 64 of them has been shifted out. */
  lemma {:induction false} MaskIsOneBit(k: nat)
    requires k < 64
    ensures AtMostOneBit(Mask(k)) && Mask(k) != 0
  {
    if k != 0 {
      MaskIsOneBit(k - 1);
      DoubleKeepsOneBit(Mask(k - 1));
    }
    MaskSurvives(k);
  }

  // ---- what each operation does to bit k ----

  lemma TestZero(k: nat)
    requires k < 64
    ensures !TestBit(0, k)
  {
    ZeroMeets(Mask(k));
  }

  lemma TestOr(x: bv64, y: bv64, k: nat)
    requires k < 64
    ensures TestBit(Or(x, y), k) == (TestBit(x, k) || TestBit(y, k))
  {
    hide Mask, Meets, Or;
    OrMeets(x, y, Mask(k));
  }

  /** One place to the left: bit k of the result is bit k - 1 of the word. */
  lemma TestDouble(w: bv64, k: nat)
    requires k < 64
    ensures TestBit(Double(w), k) == (k > 0 && TestBit(w, k - 1))
  {
    hide Meets, Double;
    if k == 0 {
      DoubleIsEven(w);
    } else {
      MaskIsOneBit(k - 1);
      MaskIsOneBit(k);
      DoubleMeetsDouble(w, Mask(k - 1));
    }
  }

  /** One place to the right: bit k of the result is bit k + 1 of the word. */
  lemma TestHalf(w: bv64, k: nat)
    requires k < 64
    ensures TestBit(Half(w), k) == (k + 1 < 64 && TestBit(w, k + 1))
  {
    hide Meets, Double, Half;
    if k == 63 {
      TopMask();
      HalfClearsTop(w);
    } else {
      HalfMeets(w, Mask(k));
      assert Mask(k + 1) == Double(Mask(k));
    }
  }

  /** A mask has exactly its own bit set. */
  lemma {:induction false} TestMask(j: nat, k: nat)
    requires j < 64 && k < 64
    ensures TestBit(Mask(j), k) == (j == k)
  {
    if j == 0 && k == 0 {
    } else if j == 0 {
      DoubleIsEven(Mask(k - 1));
    } else {
      TestDouble(Mask(j - 1), k);
      if k > 0 {
        TestMask(j - 1, k - 1);
      }
    }
  }

  lemma {:induction false} TestShiftLeft(w: bv64, n: nat, k: nat)
    requires k < 64
    ensures TestBit(ShiftLeft(w, n), k) == (n <= k && TestBit(w, k - n))
  {
    hide TestBit, Double;
    if n != 0 {
      TestDouble(ShiftLeft(w, n - 1), k);
      if k > 0 {
        TestShiftLeft(w, n - 1, k - 1);
      }
    }
  }

  lemma {:induction false} TestShiftRight(w: bv64, n: nat, k: nat)
    requires k < 64
    ensures TestBit(ShiftRight(w, n), k) == (k + n < 64 && TestBit(w, k + n))
  {
    hide TestBit, Half;
    if n != 0 {
      TestHalf(ShiftRight(w, n - 1), k);
      if k + 1 < 64 {
        TestShiftRight(w, n - 1, k + 1);
      }
    }
  }
}
