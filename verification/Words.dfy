/** The 64-bit word operations of the name hash, each with the operation that undoes it. The multipliers are odd, so
    each has an inverse modulo 2^64. */
module Words {
  function Xor(x: bv64, y: bv64): bv64 { x ^ y }

  function Shift(x: bv64): bv64 { x ^ (x >> 33) }

  function TimesPrime(x: bv64): bv64 { x * 0x0000_0100_0000_01b3 }

  function UnPrime(x: bv64): bv64 { x * 0xce96_5057_aff6_957b }

  function MixA(x: bv64): bv64 { x * 0xff51_afd7_ed55_8ccd }

  function UnMixA(x: bv64): bv64 { x * 0x4f74_430c_22a5_4005 }

  function MixB(x: bv64): bv64 { x * 0xc4ce_b9fe_1a85_ec53 }

  function UnMixB(x: bv64): bv64 { x * 0x9cb4_b2f8_1293_37db }

  // ----- every operation can be undone -----

  lemma {:induction false} XorIs(x: bv64, word: bv64)
    ensures Xor(x, word) == x ^ word == Xor(word, x)
  {
  }

  lemma {:induction false} XorAgain(x: bv64, word: bv64)
    ensures Xor(x ^ word, word) == x
  {
  }

  lemma {:induction false} XorUndoes(x: bv64, word: bv64)
    ensures Xor(Xor(x, word), word) == x
  {
    XorIs(x, word);
    XorAgain(x, word);
  }

  lemma {:induction false} ShiftIs(x: bv64)
    ensures Shift(x) == x ^ (x >> 33)
  {
  }

  lemma {:induction false} ShiftAgain(x: bv64)
    ensures Shift(x ^ (x >> 33)) == x
  {
  }

  /** Each shift-xor by 33 undoes itself. */
  lemma {:induction false} ShiftUndoes(x: bv64)
    ensures Shift(Shift(x)) == x
  {
    ShiftIs(x);
    ShiftAgain(x);
  }

  lemma {:induction false} MixAIs(x: bv64)
    ensures MixA(x) == x * 0xff51_afd7_ed55_8ccd && UnMixA(x) == x * 0x4f74_430c_22a5_4005
  {
  }

  lemma {:induction false} InversesOfA(x: bv64)
    ensures UnMixA(x * 0xff51_afd7_ed55_8ccd) == x && MixA(x * 0x4f74_430c_22a5_4005) == x
  {
  }

  lemma {:induction false} MixAUndoes(x: bv64)
    ensures UnMixA(MixA(x)) == x && MixA(UnMixA(x)) == x
  {
    MixAIs(x);
    InversesOfA(x);
  }

  lemma {:induction false} MixBIs(x: bv64)
    ensures MixB(x) == x * 0xc4ce_b9fe_1a85_ec53 && UnMixB(x) == x * 0x9cb4_b2f8_1293_37db
  {
  }

  lemma {:induction false} InversesOfB(x: bv64)
    ensures UnMixB(x * 0xc4ce_b9fe_1a85_ec53) == x && MixB(x * 0x9cb4_b2f8_1293_37db) == x
  {
  }

  lemma {:induction false} MixBUndoes(x: bv64)
    ensures UnMixB(MixB(x)) == x && MixB(UnMixB(x)) == x
  {
    MixBIs(x);
    InversesOfB(x);
  }

  lemma {:induction false} TimesPrimeIs(x: bv64)
    ensures TimesPrime(x) == x * 0x0000_0100_0000_01b3
  {
  }

  lemma {:induction false} InverseOfPrime(x: bv64)
    ensures UnPrime(x * 0x0000_0100_0000_01b3) == x
  {
  }

  lemma {:induction false} PrimeUndoes(x: bv64)
    ensures UnPrime(TimesPrime(x)) == x
  {
    TimesPrimeIs(x);
    InverseOfPrime(x);
  }
}
