/** 64-bit words: the number a word of bits stands for, and words as two 32-bit halves. */
module Words {

  function Value(x: bv64): nat
    decreases x
  {
    if x == 0 then 0 else 2 * Value(x >> 1) + if x & 1 == 1 then 1 else 0
  }

  lemma Halves(x: bv64)
    ensures Value(x) == 2 * Value(x >> 1) + if x & 1 == 1 then 1 else 0
  {
    assert x == 0 ==> x >> 1 == 0 && x & 1 == 0;
  }

  lemma SameBits(x: bv64, y: bv64)
    ensures x >> 1 == y >> 1 && (x & 1 == 1 <==> y & 1 == 1) ==> x == y
  {
  }

  lemma {:induction false} ValuePositive(x: bv64)
    ensures Value(x) == 0 <==> x == 0
    decreases x
  {
    if x != 0 && x & 1 == 0 {
      assert x >> 1 != 0;
      ValuePositive(x >> 1);
    }
  }

  lemma EqualHalves(x: bv64, y: bv64)
    requires Value(x) == Value(y)
    ensures Value(x >> 1) == Value(y >> 1) && (x & 1 == 1 <==> y & 1 == 1)
    ensures Value(x >> 1) < Value(x) || Value(x) == 0
  {
    hide Value;
    Halves(x);
    Halves(y);
  }

  lemma {:induction false} ValueInjective(x: bv64, y: bv64)
    requires Value(x) == Value(y)
    ensures x == y
    decreases Value(x)
  {
    hide Value;
    EqualHalves(x, y);
    if Value(x) == 0 {
      ValuePositive(x);
      ValuePositive(y);
    } else {
      ValueInjective(x >> 1, y >> 1);
      SameBits(x, y);
    }
  }

  /** Two binary digits at once, then four, then eight. */
  lemma LowPair(x: bv64)
    ensures 4 * Value(x >> 2) <= Value(x) < 4 * Value(x >> 2) + 4
    ensures x & 3 == 0 ==> Value(x) == 4 * Value(x >> 2)
  {
    hide Value;
    assert (x >> 1) >> 1 == x >> 2 && (x & 3 == 0 ==> x & 1 == 0 && (x >> 1) & 1 == 0);
    Halves(x);
    Halves(x >> 1);
  }

  lemma LowNibble(x: bv64)
    ensures 16 * Value(x >> 4) <= Value(x) < 16 * Value(x >> 4) + 16
    ensures x & 15 == 0 ==> Value(x) == 16 * Value(x >> 4)
  {
    hide Value;
    assert (x >> 2) >> 2 == x >> 4 && (x & 15 == 0 ==> x & 3 == 0 && (x >> 2) & 3 == 0);
    LowPair(x);
    LowPair(x >> 2);
  }

  lemma LowByte(x: bv64)
    ensures 256 * Value(x >> 8) <= Value(x) < 256 * Value(x >> 8) + 256
    ensures x & 255 == 0 ==> Value(x) == 256 * Value(x >> 8)
  {
    hide Value;
    assert (x >> 4) >> 4 == x >> 8 && (x & 255 == 0 ==> x & 15 == 0 && (x >> 4) & 15 == 0);
    LowNibble(x);
    LowNibble(x >> 4);
  }

  lemma LowQuarter(x: bv64)
    ensures Value(x) < 0x1_0000 * Value(x >> 16) + 0x1_0000
  {
    hide Value;
    assert (x >> 8) >> 8 == x >> 16;
    LowByte(x);
    LowByte(x >> 8);
  }

  lemma LowHalf(x: bv64)
    ensures Value(x) < 0x1_0000_0000 * Value(x >> 32) + 0x1_0000_0000
  {
    hide Value;
    assert (x >> 16) >> 16 == x >> 32;
    LowQuarter(x);
    LowQuarter(x >> 16);
  }

  lemma ValueRange(x: bv64)
    ensures Value(x) < 0x1_0000_0000_0000_0000
  {
    assert ((x >> 32) >> 32) == 0 && Value(0) == 0;
    LowHalf(x);
    LowHalf(x >> 32);
  }

  /** Masking keeps a number at or below the mask. */
  lemma {:induction false} MaskedBelow(x: bv64, m: bv64)
    ensures Value(x & m) <= Value(m)
    decreases m
  {
    hide Value;
    Halves(x & m);
    Halves(m);
    MaskedBits(x, m);
    if m != 0 {
      MaskedBelow(x >> 1, m >> 1);
    } else {
      assert x & m == 0;
    }
  }

  lemma MaskedBits(x: bv64, m: bv64)
    ensures (x & m) >> 1 == (x >> 1) & (m >> 1)
    ensures (x & m) & 1 == 1 ==> m & 1 == 1
  {
  }

  // ----- Halves -----

  function Low(w: nat): nat {
    w % 0x1_0000_0000
  }

  function High(w: nat): nat {
    w / 0x1_0000_0000
  }

  lemma LowAdds(v: nat, w: nat, k: nat)
    requires Low(v) == Low(w)
    ensures Low(v + k) == Low(w + k)
  {
  }

  lemma SameHalves(v: nat, w: nat)
    requires High(v) == High(w) && Low(v) == Low(w)
    ensures v == w
  {
  }
}
