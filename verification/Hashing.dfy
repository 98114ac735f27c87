/** The hash of a record's name: FNV-1a over its bytes, then the Murmur3 finalizer, on 64-bit words. */
module Hashing {
  import opened Text
  import opened Octets
  import opened Words

  const OFFSET: bv64 := 0xcbf2_9ce4_8422_2325

  /** One byte, widened. */
  function Word(c: Byte): bv64 {
    Widen(c as int)
  }

  function Step(hash: bv64, c: Byte): bv64 {
    TimesPrime(Xor(hash, Word(c)))
  }

  function Fnv(hash: bv64, name: Text): bv64 {
    if name == [] then hash else Step(Fnv(hash, name[..|name| - 1]), name[|name| - 1])
  }

  function Finalize(x: bv64): bv64 {
    Shift(MixB(Shift(MixA(Shift(x)))))
  }

  function Unfinalize(x: bv64): bv64 {
    Shift(UnMixA(Shift(UnMixB(Shift(x)))))
  }

  function Hash(name: Text): bv64 {
    Finalize(Fnv(OFFSET, name))
  }

  /** The top 53 bits, which the narrower word holds. */
  function Top(hash: bv64): bv53 {
    (hash >> 11) as bv53
  }

  function Fraction(hash: bv64): real {
    Top(hash) as int as real / 9_007_199_254_740_992.0
  }

  function Unit(name: Text): real {
    Fraction(Hash(name))
  }

  /** `hash_unit`, byte by byte. */
  method HashUnit(name: Text) returns (unit: real)
    ensures unit == Unit(name)
  {
    var hash := OFFSET;
    for k := 0 to |name|
      invariant hash == Fnv(OFFSET, name[..k])
    {
      Prefix(name, k);
      hash := Xor(hash, Word(name[k]));
      hash := TimesPrime(hash);
    }
    WholePrefix(name);
    hash := Shift(hash);
    hash := MixA(hash);
    hash := Shift(hash);
    hash := MixB(hash);
    hash := Shift(hash);
    unit := Fraction(hash);
  }

  lemma {:induction false} IsBelow(top: bv53)
    ensures 0 <= top as int < 0x20_0000_0000_0000
  {
  }

  /** The unit is the top 53 bits of the hash over all that 53 bits count, and so below one. */
  lemma {:induction false} UnitIsTopBits(name: Text)
    ensures Unit(name) * 9007199254740992.0 == ((Hash(name) >> 11) as bv53) as int as real
    ensures 0.0 <= Unit(name) < 1.0
  {
    IsBelow(Top(Hash(name)));
  }

  lemma {:induction false} FnvOne(hash: bv64, c: Byte)
    ensures Fnv(hash, [c]) == TimesPrime(Xor(hash, Widen(c as int)))
  {
    assert [c][..0] == [];
  }

  lemma {:induction false} OctetOfA()
    ensures Octet(false, true, true, false, false, false, false, true) == 0x61
  {
  }

  lemma {:induction false} WidenA()
    ensures Widen(97) == 0x61
  {
    assert Half(97) == 48 && Half(48) == 24 && Half(24) == 12 && Half(12) == 6 && Half(6) == 3 && Half(3) == 1;
    assert Half(1) == 0;
    OctetOfA();
  }

  lemma {:induction false} WordOfA()
    ensures TimesPrime(Xor(0xcbf2_9ce4_8422_2325, 0x61)) == 0xaf63_dc4c_8601_ec8c
  {
  }

  lemma {:induction false} FinalOfEmpty()
    ensures Finalize(0xcbf2_9ce4_8422_2325) == 0xefd0_1f60_ba99_2926
  {
  }

  lemma {:induction false} FinalOfA()
    ensures Finalize(0xaf63_dc4c_8601_ec8c) == 0x82a2_a958_a9be_ce5b
  {
  }

  /** The hash is FNV-1a from its offset basis, finalized as Murmur3 does: on the empty name and on `a`. */
  lemma {:induction false} KnownHashes()
    ensures Fnv(OFFSET, []) == 0xcbf2_9ce4_8422_2325 && Fnv(OFFSET, ['a']) == 0xaf63_dc4c_8601_ec8c
    ensures Hash([]) == 0xefd0_1f60_ba99_2926 && Hash(['a']) == 0x82a2_a958_a9be_ce5b
  {
    FnvOne(OFFSET, 'a');
    WidenA();
    WordOfA();
    FinalOfEmpty();
    FinalOfA();
  }

  /** The finalizer is a bijection of 64-bit words. */
  lemma {:induction false} FinalizeIsBijective(x: bv64)
    ensures Unfinalize(Finalize(x)) == x
    ensures Finalize(Unfinalize(x)) == x
  {
    UndoesForward(x);
    UndoesBackward(x);
  }

  lemma {:induction false} UndoesForward(x: bv64)
    ensures Unfinalize(Finalize(x)) == x
  {
    var a := Shift(x);
    var b := MixA(a);
    var c := Shift(b);
    var d := MixB(c);
    ShiftUndoes(d);
    MixBUndoes(c);
    ShiftUndoes(b);
    MixAUndoes(a);
    ShiftUndoes(x);
  }

  lemma {:induction false} UndoesBackward(x: bv64)
    ensures Finalize(Unfinalize(x)) == x
  {
    var a := Shift(x);
    var b := UnMixB(a);
    var c := Shift(b);
    var d := UnMixA(c);
    ShiftUndoes(d);
    MixAUndoes(c);
    ShiftUndoes(b);
    MixBUndoes(a);
    ShiftUndoes(x);
  }

  // ----- names one byte apart -----

  lemma {:induction false} WordInjective(a: Byte, b: Byte)
    requires Word(a) == Word(b)
    ensures a == b
  {
    WidenInjective(a as int, b as int);
  }

  lemma {:induction false} StepsDiffer(x: bv64, u: bv64, y: bv64, v: bv64)
    requires TimesPrime(Xor(x, u)) == TimesPrime(Xor(y, v))
    ensures x == y ==> u == v
    ensures u == v ==> x == y
  {
    PrimeUndoes(Xor(x, u));
    PrimeUndoes(Xor(y, v));
    XorUndoes(x, u);
    XorUndoes(y, v);
    XorIs(x, u);
    XorIs(y, v);
    XorUndoes(u, x);
    XorUndoes(v, y);
  }

  /** A step tells bytes apart, and hashes apart. */
  lemma {:induction false} StepInjective(x: bv64, a: Byte, y: bv64, b: Byte)
    requires Step(x, a) == Step(y, b)
    ensures x == y ==> a == b
    ensures a == b ==> x == y
  {
    StepsDiffer(x, Word(a), y, Word(b));
    if x == y {
      WordInjective(a, b);
    }
  }

  /** Different hashes stay different under the same bytes. */
  lemma {:induction false} FnvInjective(x: bv64, y: bv64, name: Text)
    requires Fnv(x, name) == Fnv(y, name)
    ensures x == y
  {
    if name != [] {
      var front, last := name[..|name| - 1], name[|name| - 1];
      StepInjective(Fnv(x, front), last, Fnv(y, front), last);
      FnvInjective(x, y, front);
    }
  }

  lemma {:induction false} FnvConcat(hash: bv64, a: Text, b: Text)
    ensures Fnv(hash, a + b) == Fnv(Fnv(hash, a), b)
  {
    if b == [] {
      EmptyUnit(a);
    } else {
      var n := |a + b| - 1;
      assert (a + b)[..n] == a + b[..|b| - 1] && (a + b)[n] == b[|b| - 1];
      FnvConcat(hash, a, b[..|b| - 1]);
    }
  }

  lemma {:induction false} FnvAround(hash: bv64, before: Text, c: Byte, after: Text)
    ensures Fnv(hash, before + [c] + after) == Fnv(Step(Fnv(hash, before), c), after)
  {
    FnvConcat(hash, before + [c], after);
    assert (before + [c])[..|before|] == before;
  }

  /** Names that differ in one byte only, wherever it stands, hash to different 64-bit words. */
  lemma {:induction false} OneByteApart(before: Text, a: Byte, b: Byte, after: Text)
    requires a != b
    ensures Hash(before + [a] + after) != Hash(before + [b] + after)
  {
    var one, other := Fnv(OFFSET, before + [a] + after), Fnv(OFFSET, before + [b] + after);
    if Finalize(one) == Finalize(other) {
      FinalizeIsBijective(one);
      FinalizeIsBijective(other);
      FnvAround(OFFSET, before, a, after);
      FnvAround(OFFSET, before, b, after);
      FnvInjective(Step(Fnv(OFFSET, before), a), Step(Fnv(OFFSET, before), b), after);
      StepInjective(Fnv(OFFSET, before), a, Fnv(OFFSET, before), b);
    }
  }
}
