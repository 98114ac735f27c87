/** Well-formed UTF-8 and the lossy decoding of arbitrary bytes (table 3-7 of the Unicode Standard). */
module Utf8 {
  import opened Text

  predicate Between(c: Byte, lo: int, hi: int) {
    lo <= c as int <= hi
  }

  predicate Tail(c: Byte) {
    Between(c, 0x80, 0xBF)
  }

  /** Whether `b` may follow the lead byte `a` of a sequence of two or more bytes. */
  predicate Second(a: Byte, b: Byte) {
    if a as int == 0xE0 then Between(b, 0xA0, 0xBF)
    else if a as int == 0xED then Between(b, 0x80, 0x9F)
    else if a as int == 0xF0 then Between(b, 0x90, 0xBF)
    else if a as int == 0xF4 then Between(b, 0x80, 0x8F)
    else Tail(b)
  }

  /** The length of the well-formed sequence `s` starts with, 0 when it starts with none. */
  function HeadLen(s: Text): (n: nat)
    ensures n <= |s| && n <= 4
    ensures forall k :: 1 <= k < n ==> Tail(s[k])
    ensures n > 1 ==> !Between(s[0], 0, 0x7F)
  {
    if s == [] then 0
    else if Between(s[0], 0, 0x7F) then 1
    else if Between(s[0], 0xC2, 0xDF) then if |s| >= 2 && Second(s[0], s[1]) then 2 else 0
    else if Between(s[0], 0xE0, 0xEF) then if |s| >= 3 && Second(s[0], s[1]) && Tail(s[2]) then 3 else 0
    else if Between(s[0], 0xF0, 0xF4) then
      if |s| >= 4 && Second(s[0], s[1]) && Tail(s[2]) && Tail(s[3]) then 4 else 0
    else 0
  }

  /** Well-formed UTF-8: what every Rust `str` holds. */
  predicate Valid(s: Text) {
    s == [] || (HeadLen(s) > 0 && Valid(s[HeadLen(s)..]))
  }

  /** The length of the ill-formed part `s` starts with: as much as could begin a sequence, at least one byte. */
  function BadLen(s: Text): (n: nat)
    requires s != [] && HeadLen(s) == 0
    ensures 1 <= n <= |s|
  {
    if |s| >= 2 && Between(s[0], 0xE0, 0xF4) && Second(s[0], s[1]) then
      if |s| >= 3 && Between(s[0], 0xF0, 0xF4) && Tail(s[2]) then 3 else 2
    else 1
  }

  /** U+FFFD. */
  const REPLACEMENT: Text := [0xEF as char, 0xBF as char, 0xBD as char]

  /** `String::from_utf8_lossy`. */
  function Lossy(s: Text): Text {
    if s == [] then []
    else if HeadLen(s) > 0 then s[..HeadLen(s)] + Lossy(s[HeadLen(s)..])
    else REPLACEMENT + Lossy(s[BadLen(s)..])
  }

  lemma {:induction false} HeadLenLocal(s: Text, t: Text)
    requires HeadLen(s) > 0
    ensures HeadLen(s[..HeadLen(s)] + t) == HeadLen(s)
  {
    var h := HeadLen(s);
    var u := s[..h] + t;
    assert u[0] == s[0];
    assert h >= 2 ==> u[1] == s[1];
    assert h >= 3 ==> u[2] == s[2];
    assert h >= 4 ==> u[3] == s[3];
  }

  lemma {:induction false} LossyKeepsValid(s: Text)
    requires Valid(s)
    ensures Lossy(s) == s
  {
    if s != [] {
      LossyKeepsValid(s[HeadLen(s)..]);
    }
  }

  lemma {:induction false} LossyIsValid(s: Text)
    ensures Valid(Lossy(s))
  {
    if s != [] {
      var h := HeadLen(s);
      if h > 0 {
        var rest := Lossy(s[h..]);
        LossyIsValid(s[h..]);
        HeadLenLocal(s, rest);
        assert (s[..h] + rest)[h..] == rest;
      } else {
        var rest := Lossy(s[BadLen(s)..]);
        LossyIsValid(s[BadLen(s)..]);
        var r: Text := REPLACEMENT;
        assert r[..3] == r && HeadLen(r) == 3;
        HeadLenLocal(r, rest);
        assert (r + rest)[3..] == rest;
      }
    }
  }

  lemma {:induction false} ValidConcat(a: Text, b: Text)
    requires Valid(a) && Valid(b)
    ensures Valid(a + b)
  {
    if a == [] {
      assert a + b == b;
    } else {
      var h := HeadLen(a);
      var rest := a[h..] + b;
      ValidConcat(a[h..], b);
      HeadLenLocal(a, rest);
      ConcatAt(a, b, h);
      assert HeadLen(a + b) == h && Valid(rest);
    }
  }

  lemma {:induction false} ConcatAt(a: Text, b: Text, h: nat)
    requires h <= |a|
    ensures a + b == a[..h] + (a[h..] + b) && (a + b)[h..] == a[h..] + b
  {
  }

  /** UTF-8 splits cleanly around an ASCII byte. */
  lemma {:induction false} ValidAround(a: Text, c: Byte, b: Text)
    requires Valid(a + [c] + b) && Between(c, 0, 0x7F)
    ensures Valid(a) && Valid(b)
  {
    var s := a + [c] + b;
    var h := HeadLen(s);
    if a == [] {
      assert s[0] == c && s[1..] == b;
    } else {
      assert s[|a|] == c;
      assert h <= |a|;
      ValidAround(a[h..], c, b) by {
        assert s[h..] == a[h..] + [c] + b;
      }
      assert s[..h] == a[..h] && a == a[..h] + a[h..];
      HeadLenLocal(s, a[h..]);
    }
  }

  lemma {:induction false} ValidPieces(s: Text, sep: Byte, pieces: seq<Text>)
    requires Valid(s) && Between(sep, 0, 0x7F) && pieces != [] && s == Join(pieces, sep)
    ensures forall i :: 0 <= i < |pieces| ==> Valid(pieces[i])
    decreases |pieces|
  {
    if |pieces| > 1 {
      var rest := Join(pieces[1..], sep);
      ValidAround(pieces[0], sep, rest);
      ValidPieces(rest, sep, pieces[1..]);
      forall i | 0 <= i < |pieces| ensures Valid(pieces[i]) {
        assert i > 0 ==> pieces[i] == pieces[1..][i - 1];
      }
    }
  }

  lemma {:induction false} ValidJoin(pieces: seq<Text>, sep: Byte)
    requires Between(sep, 0, 0x7F) && forall i :: 0 <= i < |pieces| ==> Valid(pieces[i])
    ensures Valid(Join(pieces, sep))
  {
    if |pieces| > 1 {
      ValidJoin(pieces[1..], sep);
      assert [sep][1..] == [];
      assert Valid([sep]);
      ValidConcat(pieces[0], [sep]);
      ValidConcat(pieces[0] + [sep], Join(pieces[1..], sep));
    }
  }

  // ----- against the code points -----

  /** A Unicode scalar value: a code point that is no surrogate. */
  predicate Scalar(v: int) {
    0 <= v < 0xD800 || 0xE000 <= v <= 0x10FFFF
  }

  function Unit(n: int): Byte
    requires 0 <= n < 256
  {
    n as char
  }

  /** The bytes of a scalar value (table 3-6 of the Unicode Standard). */
  function Units(v: int): (s: Text)
    requires Scalar(v)
    ensures 1 <= |s| <= 4
  {
    if v < 0x80 then [Unit(v)]
    else if v < 0x800 then [Unit(0xC0 + v / 64), Unit(0x80 + v % 64)]
    else if v < 0x10000 then [Unit(0xE0 + v / 4096), Unit(0x80 + v / 64 % 64), Unit(0x80 + v % 64)]
    else [Unit(0xF0 + v / 262144), Unit(0x80 + v / 4096 % 64), Unit(0x80 + v / 64 % 64), Unit(0x80 + v % 64)]
  }

  /** The scalar value a string starts with. */
  function Point(s: Text): int
    requires HeadLen(s) > 0
  {
    if HeadLen(s) == 1 then s[0] as int
    else if HeadLen(s) == 2 then (s[0] as int - 0xC0) * 64 + (s[1] as int - 0x80)
    else if HeadLen(s) == 3 then (s[0] as int - 0xE0) * 4096 + (s[1] as int - 0x80) * 64 + (s[2] as int - 0x80)
    else
      (s[0] as int - 0xF0) * 262144 + (s[1] as int - 0x80) * 4096 + (s[2] as int - 0x80) * 64 + (s[3] as int - 0x80)
  }

  lemma {:induction false} TwoUnits(a: int, b: int)
    requires 0 <= b < 64
    ensures (a * 64 + b) / 64 == a && (a * 64 + b) % 64 == b
  {
  }

  lemma {:induction false} ThreeUnits(a: int, b: int, c: int)
    requires 0 <= b < 64 && 0 <= c < 64
    ensures
      var v := a * 4096 + b * 64 + c;
      v / 4096 == a && v / 64 % 64 == b && v % 64 == c
  {
    TwoUnits(a * 64 + b, c);
    TwoUnits(a, b);
  }

  lemma {:induction false} FourUnits(a: int, b: int, c: int, d: int)
    requires 0 <= b < 64 && 0 <= c < 64 && 0 <= d < 64
    ensures
      var v := a * 262144 + b * 4096 + c * 64 + d;
      v / 262144 == a && v / 4096 % 64 == b && v / 64 % 64 == c && v % 64 == d
  {
    ThreeUnits(a * 64 + b, c, d);
    TwoUnits(a, b);
  }

  lemma {:induction false} PointIsScalar(s: Text)
    requires HeadLen(s) > 0
    ensures Scalar(Point(s)) && |Units(Point(s))| == HeadLen(s)
  {
  }

  lemma {:induction false} HeadIsScalar(s: Text)
    requires HeadLen(s) > 0
    ensures Scalar(Point(s)) && Units(Point(s)) == s[..HeadLen(s)]
  {
    PointIsScalar(s);
    match HeadLen(s)
    case 1 =>
    case 2 => TwoUnits(s[0] as int - 0xC0, s[1] as int - 0x80);
    case 3 => ThreeUnits(s[0] as int - 0xE0, s[1] as int - 0x80, s[2] as int - 0x80);
    case _ => FourUnits(s[0] as int - 0xF0, s[1] as int - 0x80, s[2] as int - 0x80, s[3] as int - 0x80);
  }

  lemma {:induction false} UnitsHead(v: int, rest: Text)
    requires Scalar(v)
    ensures HeadLen(Units(v) + rest) == |Units(v)|
  {
    var s := Units(v) + rest;
    assert s[..|Units(v)|] == Units(v);
  }

  function AllUnits(vs: seq<int>): Text
    requires forall k :: 0 <= k < |vs| ==> Scalar(vs[k])
  {
    if vs == [] then [] else Units(vs[0]) + AllUnits(vs[1..])
  }

  ghost predicate Spells(vs: seq<int>, s: Text) {
    (forall k :: 0 <= k < |vs| ==> Scalar(vs[k])) && s == AllUnits(vs)
  }

  lemma {:induction false} SpelledIsValid(vs: seq<int>, s: Text)
    requires Spells(vs, s)
    ensures Valid(s)
  {
    if vs != [] {
      var rest := AllUnits(vs[1..]);
      SpelledIsValid(vs[1..], rest);
      UnitsHead(vs[0], rest);
      assert s[|Units(vs[0])|..] == rest;
    }
  }

  lemma {:induction false} ValidIsSpelled(s: Text) returns (vs: seq<int>)
    requires Valid(s)
    ensures Spells(vs, s)
  {
    if s == [] {
      vs := [];
    } else {
      var n := HeadLen(s);
      var rest := ValidIsSpelled(s[n..]);
      vs := [Point(s)] + rest;
      HeadAndRest(s);
      SpellsMore(Point(s), rest, s[n..]);
    }
  }

  lemma {:induction false} HeadAndRest(s: Text)
    requires HeadLen(s) > 0
    ensures Scalar(Point(s)) && s == Units(Point(s)) + s[HeadLen(s)..]
  {
    HeadIsScalar(s);
  }

  lemma {:induction false} SpellsMore(v: int, vs: seq<int>, s: Text)
    requires Scalar(v) && Spells(vs, s)
    ensures Spells([v] + vs, Units(v) + s)
  {
    assert ([v] + vs)[1..] == vs;
  }

  /** A string is valid exactly when it is the bytes of some sequence of scalar values. */
  lemma {:induction false} ValidIff(s: Text)
    ensures Valid(s) <==> exists vs :: Spells(vs, s)
  {
    if Valid(s) {
      var vs := ValidIsSpelled(s);
    }
    if vs :| Spells(vs, s) {
      SpelledIsValid(vs, s);
    }
  }

  /** The start of some character, not the whole of it. */
  ghost predicate Begins(p: Text) {
    exists v :: Scalar(v) && |p| < |Units(v)| && p == Units(v)[..|p|]
  }

  lemma {:induction false} PaddedBegins(p: Text, padding: Text)
    requires padding != [] && HeadLen(p + padding) == |p| + |padding|
    ensures Begins(p)
  {
    var s := p + padding;
    HeadIsScalar(s);
    assert s[..|s|] == s && s[..|p|] == p;
    assert p == Units(Point(s))[..|p|];
  }

  lemma {:induction false} BeginsWithin(s: Text, n: nat, v: int)
    requires s != [] && HeadLen(s) == 0 && 2 <= n <= |s|
    requires Scalar(v) && n < |Units(v)| && s[..n] == Units(v)[..n]
    ensures n <= BadLen(s)
  {
    var u := Units(v);
    UnitsShape(v);
    assert s[0] == s[..n][0] == u[0] && s[1] == s[..n][1] == u[1];
    assert n == 3 ==> s[2] == s[..n][2] == u[2];
  }

  lemma {:induction false} UnitsShape(v: int)
    requires Scalar(v)
    ensures |Units(v)| >= 3 ==> Between(Units(v)[0], 0xE0, 0xF4) && Second(Units(v)[0], Units(v)[1])
    ensures |Units(v)| == 4 ==> Between(Units(v)[0], 0xF0, 0xF4) && Tail(Units(v)[2])
  {
    var high := v / 64;
    assert v == 64 * high + v % 64 && high == 64 * (high / 64) + high % 64;
    Quotients(v);
    if v >= 0x10000 {
      assert high / 64 == 64 * (v / 262144) + v / 4096 % 64;
    } else if v >= 0x800 {
      assert high / 64 < 16;
    }
  }

  lemma {:induction false} Quotients(v: int)
    requires v >= 0
    ensures v / 64 / 64 == v / 4096 && v / 4096 / 64 == v / 262144
  {
  }

  lemma {:induction false} BadBegins(s: Text)
    requires s != [] && HeadLen(s) == 0 && BadLen(s) > 1
    ensures Begins(s[..BadLen(s)])
  {
    var p, tail := s[..BadLen(s)], Unit(0x80);
    if BadLen(s) == 3 {
      PaddedBegins(p, [tail]);
    } else if Between(s[0], 0xE0, 0xEF) {
      PaddedBegins(p, [tail]);
    } else {
      PaddedBegins(p, [tail, tail]);
    }
  }

  /** A character is kept as it is. */
  lemma {:induction false} LossyKeepsUnits(v: int, rest: Text)
    requires Scalar(v)
    ensures Lossy(Units(v) + rest) == Units(v) + Lossy(rest)
  {
    var s := Units(v) + rest;
    UnitsHead(v, rest);
    assert s[..|Units(v)|] == Units(v) && s[|Units(v)|..] == rest;
  }

  /** Elsewhere one replacement character, U+FFFD, stands for a maximal piece: the longest start of a character there
      is at that place, or a single byte where none starts. */
  lemma {:induction false} BadIsMaximal(s: Text)
    requires s != [] && HeadLen(s) == 0
    ensures BadLen(s) == 1 || Begins(s[..BadLen(s)])
    ensures forall n :: BadLen(s) < n <= |s| ==> !Begins(s[..n])
    ensures Lossy(s) == Units(0xFFFD) + Lossy(s[BadLen(s)..])
  {
    if BadLen(s) > 1 {
      BadBegins(s);
    }
    forall n | BadLen(s) < n <= |s| ensures !Begins(s[..n]) {
      if v :| Scalar(v) && |s[..n]| < |Units(v)| && s[..n] == Units(v)[..|s[..n]|] {
        BeginsWithin(s, n, v);
      }
    }
  }
}
