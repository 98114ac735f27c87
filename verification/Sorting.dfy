/** The standard library's stable sort, as the function `sort_by` computes, and what determines its result. */
module Sorting {
  ghost predicate Preorder<T(!new)>(le: (T, T) -> bool) {
    && (forall a, b :: le(a, b) || le(b, a))
    && (forall a, b, c :: le(a, b) && le(b, c) ==> le(a, c))
  }

  predicate SortedBy<T>(le: (T, T) -> bool, s: seq<T>) {
    forall i, j :: 0 <= i < j < |s| ==> le(s[i], s[j])
  }

  function Insert<T>(le: (T, T) -> bool, x: T, s: seq<T>): (r: seq<T>)
    ensures multiset(r) == multiset(s) + multiset{x}
    ensures |r| == |s| + 1
  {
    if s == [] then [x]
    else if le(x, s[0]) then [x] + s
    else
      assert s == [s[0]] + s[1..];
      [s[0]] + Insert(le, x, s[1..])
  }

  function StableSort<T>(le: (T, T) -> bool, s: seq<T>): (r: seq<T>)
    ensures multiset(r) == multiset(s)
    ensures |r| == |s|
  {
    if s == [] then []
    else
      assert s == [s[0]] + s[1..];
      Insert(le, s[0], StableSort(le, s[1..]))
  }

  /** The elements of `s` that `le` cannot tell from `x`, in order. */
  ghost function Class<T>(le: (T, T) -> bool, x: T, s: seq<T>): (r: seq<T>)
  {
    if s == [] then []
    else (if le(x, s[0]) && le(s[0], x) then [s[0]] else []) + Class(le, x, s[1..])
  }

  lemma {:induction false} MemberOfPermutation<T>(a: seq<T>, b: seq<T>, x: T)
    requires multiset(a) == multiset(b)
    ensures x in a <==> x in b
  {
    assert x in a <==> x in multiset(a);
    assert x in b <==> x in multiset(b);
  }

  lemma {:induction false} SortedCons<T(!new)>(le: (T, T) -> bool, x: T, s: seq<T>)
    requires SortedBy(le, s)
    requires forall y :: y in s ==> le(x, y)
    ensures SortedBy(le, [x] + s)
  {
  }

  lemma {:induction false} InsertSorts<T(!new)>(le: (T, T) -> bool, x: T, s: seq<T>)
    requires Preorder(le) && SortedBy(le, s)
    ensures SortedBy(le, Insert(le, x, s))
  {
    if s == [] {
    } else if le(x, s[0]) {
      forall y | y in s ensures le(x, y) {
        var j :| 0 <= j < |s| && s[j] == y;
        assert j == 0 || le(s[0], s[j]);
      }
      SortedCons(le, x, s);
    } else {
      InsertSorts(le, x, s[1..]);
      var t := Insert(le, x, s[1..]);
      forall y | y in t ensures le(s[0], y) {
        assert y in multiset(t);
        if y != x {
          assert y in s[1..];
        }
      }
      SortedCons(le, s[0], t);
    }
  }

  lemma {:induction false} StableSortSorts<T(!new)>(le: (T, T) -> bool, s: seq<T>)
    requires Preorder(le)
    ensures SortedBy(le, StableSort(le, s))
  {
    if s != [] {
      StableSortSorts(le, s[1..]);
      InsertSorts(le, s[0], StableSort(le, s[1..]));
    }
  }

  lemma {:induction false} ClassCons<T(!new)>(le: (T, T) -> bool, k: T, x: T, s: seq<T>)
    ensures Class(le, k, [x] + s) == (if le(k, x) && le(x, k) then [x] else []) + Class(le, k, s)
  {
    assert ([x] + s)[1..] == s;
  }

  lemma {:induction false} NotBothTie<T(!new)>(le: (T, T) -> bool, k: T, x: T, y: T)
    requires Preorder(le) && !le(x, y)
    ensures !(le(k, x) && le(x, k) && le(k, y) && le(y, k))
  {
  }

  lemma {:induction false} InsertKeeps<T(!new)>(le: (T, T) -> bool, x: T, s: seq<T>, k: T)
    requires Preorder(le)
    ensures Class(le, k, Insert(le, x, s)) == Class(le, k, [x] + s)
  {
    if s != [] && !le(x, s[0]) {
      var rest := s[1..];
      InsertKeeps(le, x, rest, k);
      ClassCons(le, k, s[0], Insert(le, x, rest));
      ClassCons(le, k, x, s);
      ClassCons(le, k, x, rest);
      NotBothTie(le, k, x, s[0]);
      EmptyClass(if le(k, s[0]) && le(s[0], k) then [s[0]] else [], if le(k, x) && le(x, k) then [x] else [],
                 Class(le, k, rest));
    }
  }

  lemma {:induction false} EmptyClass<T>(a: seq<T>, b: seq<T>, c: seq<T>)
    requires a == [] || b == []
    ensures a + (b + c) == b + (a + c)
  {
    assert [] + c == c && [] + (b + c) == b + c && a + ([] + c) == a + c && [] + (a + c) == a + c;
  }

  /** Stability: elements the order cannot tell apart keep their input order. */
  lemma {:induction false} StableSortKeeps<T(!new)>(le: (T, T) -> bool, s: seq<T>, k: T)
    requires Preorder(le)
    ensures Class(le, k, StableSort(le, s)) == Class(le, k, s)
  {
    if s != [] {
      StableSortKeeps(le, s[1..], k);
      InsertKeeps(le, s[0], StableSort(le, s[1..]), k);
      var t := StableSort(le, s[1..]);
      assert ([s[0]] + t)[1..] == t;
    }
  }

  lemma {:induction false} ClassMembers<T(!new)>(le: (T, T) -> bool, k: T, s: seq<T>, x: T)
    ensures x in Class(le, k, s) <==> x in s && le(k, x) && le(x, k)
  {
    if s != [] {
      ClassMembers(le, k, s[1..], x);
    }
  }

  /** A sorted sequence is determined by its classes: this is what makes a stable sort's result unique. */
  lemma {:induction false} SortedUnique<T(!new)>(le: (T, T) -> bool, a: seq<T>, b: seq<T>)
    requires Preorder(le) && SortedBy(le, a) && SortedBy(le, b)
    requires forall k :: Class(le, k, a) == Class(le, k, b)
    ensures a == b
  {
    if a == [] {
      assert b == [];
    } else {
      ClassMembers(le, a[0], a, a[0]);
      ClassMembers(le, a[0], b, a[0]);
      ClassMembers(le, b[0], b, b[0]);
      ClassMembers(le, b[0], a, b[0]);
      assert le(a[0], b[0]) && le(b[0], a[0]);
      assert Class(le, a[0], a)[0] == a[0];
      assert Class(le, a[0], b)[0] == b[0];
      assert a[0] == b[0];
      forall k ensures Class(le, k, a[1..]) == Class(le, k, b[1..]) {
        var head := if le(k, a[0]) && le(a[0], k) then [a[0]] else [];
        assert Class(le, k, a) == head + Class(le, k, a[1..]);
        assert Class(le, k, b) == head + Class(le, k, b[1..]);
        assert Class(le, k, a[1..]) == Class(le, k, a)[|head|..];
        assert Class(le, k, b[1..]) == Class(le, k, b)[|head|..];
      }
      SortedUnique(le, a[1..], b[1..]);
      assert a == [a[0]] + a[1..] && b == [b[0]] + b[1..];
    }
  }

  lemma {:induction false} WithoutAt<T>(s: seq<T>, k: nat)
    requires k < |s|
    ensures multiset(s) == multiset(s[..k] + s[k + 1..]) + multiset{s[k]}
  {
    assert s == s[..k] + [s[k]] + s[k + 1..];
  }

  lemma {:induction false} RestsPermute<T>(a: seq<T>, i: nat, b: seq<T>, k: nat)
    requires multiset(a) == multiset(b) && i < |a| && k < |b| && a[i] == b[k]
    ensures multiset(a[..i] + a[i + 1..]) == multiset(b[..k] + b[k + 1..])
  {
    WithoutAt(a, i);
    WithoutAt(b, k);
    var x, y := multiset(a[..i] + a[i + 1..]), multiset(b[..k] + b[k + 1..]);
    assert x == (x + multiset{a[i]}) - multiset{a[i]};
    assert y == (y + multiset{a[i]}) - multiset{a[i]};
  }

  lemma {:induction false} HeadIsLeast<T(!new)>(le: (T, T) -> bool, s: seq<T>, x: T)
    requires Preorder(le) && SortedBy(le, s) && x in s
    ensures le(s[0], x)
  {
    var i :| 0 <= i < |s| && s[i] == x;
    assert i == 0 || le(s[0], s[i]);
  }

  lemma {:induction false} TailOfPermutation<T>(a: seq<T>, b: seq<T>)
    requires a != [] && b != [] && a[0] == b[0] && multiset(a) == multiset(b)
    ensures multiset(a[1..]) == multiset(b[1..])
  {
    assert a == [a[0]] + a[1..] && b == [b[0]] + b[1..];
    assert multiset(a[1..]) == multiset(a) - multiset{a[0]};
    assert multiset(b[1..]) == multiset(b) - multiset{b[0]};
  }

  /** When no two distinct elements tie, a sorted sequence is determined by its multiset alone. */
  lemma {:induction false} SortedPermutationUnique<T(!new)>(le: (T, T) -> bool, a: seq<T>, b: seq<T>)
    requires Preorder(le) && SortedBy(le, a) && SortedBy(le, b)
    requires multiset(a) == multiset(b)
    requires forall x, y | x in a && y in a :: le(x, y) && le(y, x) ==> x == y
    ensures a == b
  {
    assert |a| == |multiset(a)| && |b| == |multiset(b)|;
    if a != [] {
      MemberOfPermutation(a, b, a[0]);
      MemberOfPermutation(a, b, b[0]);
      HeadIsLeast(le, a, b[0]);
      HeadIsLeast(le, b, a[0]);
      TailOfPermutation(a, b);
      var at, bt := a[1..], b[1..];
      assert forall x :: x in at ==> x in a;
      SortedPermutationUnique(le, at, bt);
      assert a == [a[0]] + at && b == [b[0]] + bt;
    }
  }

  lemma {:induction false} ClassOfConcat<T(!new)>(le: (T, T) -> bool, k: T, a: seq<T>, b: seq<T>)
    ensures Class(le, k, a + b) == Class(le, k, a) + Class(le, k, b)
  {
    if a == [] {
      assert a + b == b;
    } else {
      var x, rest := a[0], a[1..];
      ClassOfConcat(le, k, rest, b);
      assert a + b == [x] + (rest + b) && a == [x] + rest;
      ClassCons(le, k, x, rest + b);
      ClassCons(le, k, x, rest);
    }
  }

  /** `le` first, ties settled by `tie`. */
  function Lex<T>(le: (T, T) -> bool, tie: (T, T) -> bool): (T, T) -> bool {
    (a, b) => le(a, b) && (le(b, a) ==> tie(a, b))
  }

  lemma {:induction false} LexCons<T(!new)>(le: (T, T) -> bool, tie: (T, T) -> bool, x: T, s: seq<T>)
    requires Preorder(le) && SortedBy(Lex(le, tie), s)
    requires forall y :: y in s ==> tie(x, y)
    requires s != [] ==> le(x, s[0])
    ensures SortedBy(Lex(le, tie), [x] + s)
  {
    forall y | y in s ensures Lex(le, tie)(x, y) {
      var j :| 0 <= j < |s| && s[j] == y;
      assert j == 0 || Lex(le, tie)(s[0], s[j]);
    }
    SortedCons(Lex(le, tie), x, s);
  }

  lemma {:induction false} InsertMembers<T(!new)>(le: (T, T) -> bool, x: T, s: seq<T>, y: T)
    ensures y in Insert(le, x, s) <==> y == x || y in s
  {
    assert y in Insert(le, x, s) <==> y in multiset(s) + multiset{x};
  }

  lemma {:induction false} InsertRefines<T(!new)>(le: (T, T) -> bool, tie: (T, T) -> bool, x: T, s: seq<T>)
    requires Preorder(le) && SortedBy(Lex(le, tie), s)
    requires forall y :: y in s ==> tie(x, y)
    ensures SortedBy(Lex(le, tie), Insert(le, x, s))
  {
    if s == [] {
    } else if le(x, s[0]) {
      LexCons(le, tie, x, s);
    } else {
      InsertRefines(le, tie, x, s[1..]);
      var t := Insert(le, x, s[1..]);
      forall y | y in t ensures Lex(le, tie)(s[0], y) {
        InsertMembers(le, x, s[1..], y);
        if y != x {
          var j :| 1 <= j < |s| && s[j] == y;
          assert Lex(le, tie)(s[0], s[j]);
        }
      }
      SortedCons(Lex(le, tie), s[0], t);
    }
  }

  /** A stable sort of a sequence sorted by `tie` is sorted by `le` and, within ties, by `tie`. */
  lemma {:induction false} StableSortRefines<T(!new)>(le: (T, T) -> bool, tie: (T, T) -> bool, s: seq<T>)
    requires Preorder(le) && SortedBy(tie, s)
    ensures SortedBy(Lex(le, tie), StableSort(le, s))
  {
    if s != [] {
      StableSortRefines(le, tie, s[1..]);
      var t := StableSort(le, s[1..]);
      forall y | y in t ensures tie(s[0], y) {
        MemberOfPermutation(t, s[1..], y);
        var j :| 1 <= j < |s| && s[j] == y;
        assert tie(s[0], s[j]);
      }
      InsertRefines(le, tie, s[0], t);
    }
  }
}
