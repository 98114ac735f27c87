/** Decimal numbers as text. */
module Decimal {
  import opened Text

  predicate Digit(c: Byte) {
    '0' <= c <= '9'
  }

  predicate Digits(s: Text) {
    forall k :: 0 <= k < |s| ==> Digit(s[k])
  }

  function Value(s: Text): nat
    requires Digits(s)
  {
    if s == [] then 0 else 10 * Value(s[..|s| - 1]) + (s[|s| - 1] as int - '0' as int)
  }

  /** A number is read left to right, ten times what stands before plus the next digit. */
  lemma {:induction false} DigitsSnoc(front: Text, c: Byte)
    ensures Digits(front + [c]) <==> Digits(front) && '0' <= c <= '9'
    ensures Digits(front + [c]) ==> Value(front + [c]) == 10 * Value(front) + (c as int - 48)
    ensures Digits([]) && Value([]) == 0
  {
    assert (front + [c])[..|front|] == front;
    if Digits(front + [c]) {
      assert forall k :: 0 <= k < |front| ==> (front + [c])[k] == front[k];
      assert (front + [c])[|front|] == c;
    }
  }

  function DigitChar(n: int): (c: Byte)
    requires 0 <= n < 10
    ensures Digit(c) && c as int - '0' as int == n
  {
    n as char + '0'
  }

  /** The shortest decimal form. */
  function Print(n: nat): (s: Text)
    ensures s != [] && Digits(s) && Value(s) == n
  {
    if n < 10 then
      var s := [DigitChar(n)];
      assert s[..0] == [];
      s
    else
      var front, last := Print(n / 10), DigitChar(n % 10);
      assert (front + [last])[..|front|] == front;
      front + [last]
  }

  /** Decimal forms tell numbers apart. */
  lemma {:induction false} PrintInjective(a: nat, b: nat)
    requires Print(a) == Print(b)
    ensures a == b
  {
    assert Value(Print(a)) == a && Value(Print(b)) == b;
  }

  /** An unsigned 64-bit number as the standard library parses it: digits, with an optional leading `+`. */
  function ParseU64(s: Text): Option<nat> {
    var digits := if s != [] && s[0] == '+' then s[1..] else s;
    if digits == [] || !Digits(digits) || Value(digits) >= 0x1_0000_0000_0000_0000 then None
    else Some(Value(digits))
  }

  lemma {:induction false} ParsePrint(n: nat)
    ensures ParseU64(Print(n)) == if n < 0x1_0000_0000_0000_0000 then Some(n) else None
  {
    assert Digit(Print(n)[0]);
  }

  /** What reads as a number: digits, at least one, after at most one plus sign, whose value fits in 64 bits. */
  lemma {:induction false} ParseU64Iff(digits: Text)
    requires digits == [] || digits[0] != '+'
    ensures ParseU64(digits) == ParseU64(['+'] + digits)
    ensures ParseU64(digits) ==
            if digits != [] && Digits(digits) && Value(digits) < 0x1_0000_0000_0000_0000 then Some(Value(digits))
            else None
  {
    assert (['+'] + digits)[1..] == digits;
  }
}
