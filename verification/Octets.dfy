/** A byte widened to a 64-bit word: the word whose bits are the byte's, which is the word of the same value. */
module Octets {
  function Bit(on: bool, mask: bv64): bv64 { if on then mask else 0 }

  function Octet(b7: bool, b6: bool, b5: bool, b4: bool, b3: bool, b2: bool, b1: bool, b0: bool): bv64 {
    Bit(b7, 0x80) | Bit(b6, 0x40) | Bit(b5, 0x20) | Bit(b4, 0x10)
    | Bit(b3, 0x08) | Bit(b2, 0x04) | Bit(b1, 0x02) | Bit(b0, 0x01)
  }

  predicate Odd(n: int) { n % 2 == 1 }

  function Half(n: int): int { n / 2 }

  function Widen(n: int): bv64 {
    var n1 := Half(n);
    var n2 := Half(n1);
    var n3 := Half(n2);
    var n4 := Half(n3);
    var n5 := Half(n4);
    var n6 := Half(n5);
    var n7 := Half(n6);
    Octet(Odd(n7), Odd(n6), Odd(n5), Odd(n4), Odd(n3), Odd(n2), Odd(n1), Odd(n))
  }

  function Value(on: bool, weight: int): int { if on then weight else 0 }

  lemma {:induction false} OctetValue(
    b7: bool, b6: bool, b5: bool, b4: bool, b3: bool, b2: bool, b1: bool, b0: bool)
    ensures
      Octet(b7, b6, b5, b4, b3, b2, b1, b0) as int ==
        Value(b7, 128) + Value(b6, 64) + Value(b5, 32) + Value(b4, 16)
        + Value(b3, 8) + Value(b2, 4) + Value(b1, 2) + Value(b0, 1)
  {
  }

  lemma {:induction false} HalfAndBit(n: int, weight: int)
    requires weight in {1, 2, 4, 8, 16, 32, 64}
    ensures weight * n == 2 * weight * Half(n) + Value(Odd(n), weight)
  {
  }

  lemma {:induction false} Halves(n: int, limit: int)
    requires 0 <= n < 2 * limit
    ensures 0 <= Half(n) < limit
  {
  }

  lemma {:induction false} LastHalf(n: int)
    requires 0 <= n < 256
    ensures 0 <= Half(Half(Half(Half(Half(Half(Half(n))))))) < 2
  {
    Halves(n, 128);
    Halves(Half(n), 64);
    Halves(Half(Half(n)), 32);
    Halves(Half(Half(Half(n))), 16);
    Halves(Half(Half(Half(Half(n)))), 8);
    Halves(Half(Half(Half(Half(Half(n))))), 4);
    Halves(Half(Half(Half(Half(Half(Half(n)))))), 2);
  }

  lemma {:induction false} SumOfBits(
    n: int, n1: int, n2: int, n3: int, n4: int, n5: int, n6: int, n7: int)
    requires 0 <= n < 256
    requires n1 == Half(n) && n2 == Half(n1) && n3 == Half(n2) && n4 == Half(n3)
    requires n5 == Half(n4) && n6 == Half(n5) && n7 == Half(n6)
    ensures
      n ==
        Value(Odd(n7), 128) + Value(Odd(n6), 64) + Value(Odd(n5), 32) + Value(Odd(n4), 16)
        + Value(Odd(n3), 8) + Value(Odd(n2), 4) + Value(Odd(n1), 2) + Value(Odd(n), 1)
  {
    HalfAndBit(n, 1);
    HalfAndBit(n1, 2);
    HalfAndBit(n2, 4);
    HalfAndBit(n3, 8);
    HalfAndBit(n4, 16);
    HalfAndBit(n5, 32);
    HalfAndBit(n6, 64);
    LastHalf(n);
    TopBit(n7);
  }

  lemma {:induction false} TopBit(n: int)
    requires 0 <= n < 2
    ensures Value(Odd(n), 128) == 128 * n
  {
  }

  /** Widening keeps the value, as `u64::from` does. */
  lemma {:induction false} WidenKeepsValue(n: int)
    requires 0 <= n < 256
    ensures Widen(n) as int == n
  {
    var n1 := Half(n);
    var n2 := Half(n1);
    var n3 := Half(n2);
    var n4 := Half(n3);
    var n5 := Half(n4);
    var n6 := Half(n5);
    var n7 := Half(n6);
    SumOfBits(n, n1, n2, n3, n4, n5, n6, n7);
    OctetValue(Odd(n7), Odd(n6), Odd(n5), Odd(n4), Odd(n3), Odd(n2), Odd(n1), Odd(n));
  }

  /** Different bytes are different words. */
  lemma {:induction false} WidenInjective(a: int, b: int)
    requires 0 <= a < 256 && 0 <= b < 256 && Widen(a) == Widen(b)
    ensures a == b
  {
    WidenKeepsValue(a);
    WidenKeepsValue(b);
  }
}
