/** Byte strings and their order. A Rust string is modelled as the sequence of its UTF-8 bytes, each
    byte written as the character with that code, so a literal such as "catalogs" is its own encoding. */
module Text {
  type Byte = c: char | c as int < 256
  type Text = seq<Byte>

  datatype Option<+T> = None | Some(value: T)

  datatype Result<+R, +E> = Ok(value: R) | Err(error: E)

  function OrZero(n: Option<nat>): nat {
    if n.Some? then n.value else 0
  }

  /** Rust's `str` order: byte-wise lexicographic. */
  predicate Le(a: Text, b: Text) {
    a == [] || (b != [] && (a[0] < b[0] || (a[0] == b[0] && Le(a[1..], b[1..]))))
  }

  lemma LeReflexive(a: Text)
    ensures Le(a, a)
  {
    if a != [] {
      LeReflexive(a[1..]);
    }
  }

  lemma LeTotal(a: Text, b: Text)
    ensures Le(a, b) || Le(b, a)
  {
    if a != [] && b != [] && a[0] == b[0] {
      LeTotal(a[1..], b[1..]);
    }
  }

  lemma LeTransitive(a: Text, b: Text, c: Text)
    requires Le(a, b) && Le(b, c)
    ensures Le(a, c)
  {
    if a != [] && a[0] == b[0] == c[0] {
      LeTransitive(a[1..], b[1..], c[1..]);
    }
  }

  lemma {:induction false} LeAntisymmetric(a: Text, b: Text)
    requires Le(a, b) && Le(b, a)
    ensures a == b
  {
    if a != [] {
      LeAntisymmetric(a[1..], b[1..]);
      assert a == [a[0]] + a[1..];
      assert b == [b[0]] + b[1..];
    }
  }

  /** The two strings agree up to `k`, where the first ends or has the smaller byte. */
  predicate Precedes(a: Text, b: Text, k: nat) {
    k <= |a| && k <= |b| && a[..k] == b[..k] && (k == |a| || (k < |b| && a[k] < b[k]))
  }

  /** The order is byte by byte: a prefix comes first, and otherwise the first byte that differs decides. */
  lemma {:induction false} LeIsByteOrder(a: Text, b: Text)
    ensures Le(a, b) <==> exists k: nat :: Precedes(a, b, k)
  {
    if a == [] {
      assert Precedes(a, b, 0);
    } else if b != [] {
      LeIsByteOrder(a[1..], b[1..]);
      if a[0] < b[0] {
        assert Precedes(a, b, 0);
      } else if a[0] == b[0] {
        if k: nat :| Precedes(a[1..], b[1..], k) {
          assert a[..k + 1] == [a[0]] + a[1..][..k] && b[..k + 1] == [b[0]] + b[1..][..k];
          assert Precedes(a, b, k + 1);
        }
        if k: nat :| Precedes(a, b, k) {
          PrecedesRest(a, b, k);
        }
      } else {
        HeadsDiffer(a, b);
      }
    }
  }

  lemma {:induction false} HeadsDiffer<T>(a: seq<T>, b: seq<T>)
    requires a != [] && b != [] && a[0] != b[0]
    ensures forall k :: 0 < k <= |a| && k <= |b| ==> a[..k] != b[..k]
  {
    forall k | 0 < k <= |a| && k <= |b| ensures a[..k] != b[..k] {
      assert a[..k][0] == a[0] && b[..k][0] == b[0];
    }
  }

  lemma {:induction false} PrecedesRest(a: Text, b: Text, k: nat)
    requires a != [] && b != [] && a[0] == b[0] && Precedes(a, b, k)
    ensures k > 0 && Precedes(a[1..], b[1..], k - 1)
  {
    assert a[1..][..k - 1] == a[..k][1..] && b[1..][..k - 1] == b[..k][1..];
  }

  predicate IsLeast(s: set<Text>, x: Text) {
    x in s && forall y {:trigger Le(x, y)} :: y in s ==> Le(x, y)
  }

  lemma {:induction false} LeastOfMore(s: set<Text>, z: Text, x: Text)
    requires IsLeast(s, x)
    ensures IsLeast(s + {z}, if Le(x, z) then x else z)
  {
    LeReflexive(z);
    LeTotal(x, z);
    if !Le(x, z) {
      forall y | y in s ensures Le(z, y) {
        LeTransitive(z, x, y);
      }
    }
  }

  /** A non-empty set of strings has a least element. */
  lemma {:induction false} LeastExists(s: set<Text>)
    requires s != {}
    ensures exists x :: IsLeast(s, x)
  {
    var z :| z in s;
    var rest := s - {z};
    assert s == rest + {z};
    if rest == {} {
      LeReflexive(z);
      assert IsLeast(s, z);
    } else {
      LeastExists(rest);
      var x :| IsLeast(rest, x);
      LeastOfMore(rest, z, x);
    }
  }

  lemma {:induction false} LeastUnique(s: set<Text>, x: Text, y: Text)
    requires IsLeast(s, x) && IsLeast(s, y)
    ensures x == y
  {
    LeAntisymmetric(x, y);
  }

  function Least(s: set<Text>): (x: Text)
    requires s != {}
    ensures IsLeast(s, x)
  {
    LeastExists(s);
    assert forall x, y :: IsLeast(s, x) && IsLeast(s, y) ==> x == y by {
      forall x, y | IsLeast(s, x) && IsLeast(s, y) ensures x == y {
        LeastUnique(s, x, y);
      }
    }
    var x :| x in s && IsLeast(s, x);
    x
  }

  /** The order a `BTreeMap` or `BTreeSet` iterates its keys in. */
  function SortedKeys(s: set<Text>): (keys: seq<Text>)
    ensures forall x :: x in keys <==> x in s
    ensures |keys| == |s|
    ensures forall i, j :: 0 <= i < j < |keys| ==> keys[i] != keys[j]
    decreases |s|
  {
    if s == {} then []
    else
      var x := Least(s);
      [x] + SortedKeys(s - {x})
  }

  predicate Ascending(keys: seq<Text>) {
    forall i, j {:trigger Le(keys[i], keys[j])} :: 0 <= i < j < |keys| ==> Le(keys[i], keys[j])
  }

  lemma {:induction false} AscendingCons(x: Text, rest: seq<Text>)
    requires Ascending(rest) && forall y {:trigger Le(x, y)} :: y in rest ==> Le(x, y)
    ensures Ascending([x] + rest)
  {
    var keys := [x] + rest;
    forall i, j | 0 <= i < j < |keys| ensures Le(keys[i], keys[j]) {
      if i == 0 {
        assert rest[j - 1] in rest;
      }
    }
  }

  lemma {:induction false} SortedKeysAscend(s: set<Text>)
    ensures Ascending(SortedKeys(s))
    decreases |s|
  {
    if s != {} {
      var x := Least(s);
      SortedKeysAscend(s - {x});
      AscendingCons(x, SortedKeys(s - {x}));
    }
  }

  // ----- splitting and joining -----

  /** Rust's `str::split` on one character: always at least one piece. */
  function Split(s: Text, sep: Byte): (pieces: seq<Text>)
    ensures |pieces| >= 1
    ensures forall i :: 0 <= i < |pieces| ==> sep !in pieces[i]
  {
    if s == [] then [[]]
    else
      var rest := Split(s[1..], sep);
      if s[0] == sep then [[]] + rest else [[s[0]] + rest[0]] + rest[1..]
  }

  function Join(pieces: seq<Text>, sep: Byte): (s: Text)
  {
    if |pieces| == 0 then []
    else if |pieces| == 1 then pieces[0]
    else pieces[0] + [sep] + Join(pieces[1..], sep)
  }

  lemma {:induction false} JoinSplit(s: Text, sep: Byte)
    ensures Join(Split(s, sep), sep) == s
  {
    if s != [] {
      JoinSplit(s[1..], sep);
      var rest := Split(s[1..], sep);
      var pieces := Split(s, sep);
      if s[0] == sep {
        assert pieces[1..] == rest;
      } else {
        assert pieces[1..] == rest[1..];
        if |rest| > 1 {
          assert Join(pieces, sep) == [s[0]] + rest[0] + [sep] + Join(rest[1..], sep);
        }
      }
    }
  }

  lemma {:induction false} SplitWord(w: Text, sep: Byte)
    requires sep !in w
    ensures Split(w, sep) == [w]
  {
    if w != [] {
      SplitWord(w[1..], sep);
      assert [w[0]] + w[1..] == w;
    }
  }

  lemma {:induction false} SplitAt(w: Text, rest: Text, sep: Byte)
    requires sep !in w
    ensures Split(w + [sep] + rest, sep) == [w] + Split(rest, sep)
  {
    var s := w + [sep] + rest;
    if w == [] {
      assert s[1..] == rest;
    } else {
      SplitAt(w[1..], rest, sep);
      assert s[1..] == w[1..] + [sep] + rest;
      assert [w[0]] + w[1..] == w;
      assert Split(s, sep) == [w] + Split(rest, sep);
    }
  }

  /** Joining pieces that do not hold the separator loses nothing. */
  lemma {:induction false} SplitJoin(pieces: seq<Text>, sep: Byte)
    requires |pieces| >= 1
    requires forall i :: 0 <= i < |pieces| ==> sep !in pieces[i]
    ensures Split(Join(pieces, sep), sep) == pieces
  {
    if |pieces| == 1 {
      SplitWord(pieces[0], sep);
    } else {
      SplitJoin(pieces[1..], sep);
      SplitAt(pieces[0], Join(pieces[1..], sep), sep);
      assert [pieces[0]] + pieces[1..] == pieces;
    }
  }

  /** What a loop over `s` needs of its prefixes. */
  lemma {:induction false} Prefix<T>(s: seq<T>, k: nat)
    requires k < |s|
    ensures s[..k + 1] == s[..k] + [s[k]] && s[..k + 1][..k] == s[..k] && s[..k + 1][k] == s[k]
    ensures s[..|s|] == s
  {
  }

  lemma {:induction false} WholePrefix<T>(s: seq<T>)
    ensures s[..|s|] == s
  {
  }

  lemma {:induction false} Associate<T>(a: seq<T>, b: seq<T>, c: seq<T>)
    ensures (a + b) + c == a + (b + c)
  {
  }

  lemma {:induction false} EmptyUnit<T>(s: seq<T>)
    ensures s + [] == s && [] + s == s
  {
  }

  predicate StartsWith(s: Text, prefix: Text) {
    |prefix| <= |s| && s[..|prefix|] == prefix
  }

  predicate EndsWith(s: Text, suffix: Text) {
    |suffix| <= |s| && s[|s| - |suffix|..] == suffix
  }
}
