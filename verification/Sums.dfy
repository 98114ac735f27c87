/** Totals over the values of a map, taken in key order as a `BTreeMap` iterates. */
module Sums {
  import opened Text

  function Total(m: map<Text, real>): real
    decreases |m|
  {
    if m == map[] then 0.0
    else
      var k := Least(m.Keys);
      RemoveShrinks(m, k);
      m[k] + Total(m - {k})
  }

  lemma {:induction false} RemoveShrinks<V>(m: map<Text, V>, k: Text)
    requires k in m
    ensures |m - {k}| == |m| - 1 && (m - {k}).Keys == m.Keys - {k}
  {
    assert (m - {k}).Keys == m.Keys - {k};
    assert |m.Keys| == |m| && |(m - {k}).Keys| == |m - {k}|;
  }

  lemma {:induction false} TotalWithout(m: map<Text, real>, k: Text)
    requires k in m
    ensures Total(m) == m[k] + Total(m - {k})
    decreases |m|
  {
    var x := Least(m.Keys);
    if x != k {
      RemoveShrinks(m, x);
      RemoveShrinks(m, k);
      TotalWithout(m - {x}, k);
      assert (m - {x}) - {k} == (m - {k}) - {x};
      TotalWithout(m - {k}, x);
    }
  }

  /** Changing or adding one value changes the total by the difference. */
  lemma {:induction false} TotalUpdate(m: map<Text, real>, k: Text, v: real)
    ensures Total(m[k := v]) == Total(m) + v - if k in m then m[k] else 0.0
  {
    TotalWithout(m[k := v], k);
    assert m[k := v] - {k} == m - {k};
    if k in m {
      TotalWithout(m, k);
    } else {
      assert m - {k} == m;
    }
  }

  /** Scaling every value scales the total. */
  lemma {:induction false} TotalScaled(m: map<Text, real>, n: map<Text, real>, factor: real)
    requires m.Keys == n.Keys && forall k :: k in n ==> n[k] == Scaled(m[k], factor)
    ensures Total(n) == Scaled(Total(m), factor)
    decreases |m|
  {
    if m == map[] {
      assert n == map[];
    } else {
      var x := Least(m.Keys);
      RemoveShrinks(m, x);
      RemoveShrinks(n, x);
      TotalScaled(m - {x}, n - {x}, factor);
      Distribute(m[x], Total(m - {x}), factor);
    }
  }

  function Scaled(a: real, factor: real): real {
    a * factor
  }

  lemma {:induction false} Distribute(a: real, b: real, factor: real)
    ensures Scaled(a + b, factor) == Scaled(a, factor) + Scaled(b, factor)
  {
  }

  /** The same total taken along any enumeration of the keys. */
  function SumAlong(m: map<Text, real>, keys: seq<Text>): real
    requires forall k :: k in keys ==> k in m
  {
    if keys == [] then 0.0 else SumAlong(m, keys[..|keys| - 1]) + m[keys[|keys| - 1]]
  }

  lemma {:induction false} SumAlongIsTotal(m: map<Text, real>, keys: seq<Text>)
    requires forall k :: k in keys <==> k in m
    requires forall i, j :: 0 <= i < j < |keys| ==> keys[i] != keys[j]
    ensures SumAlong(m, keys) == Total(m)
    decreases |keys|
  {
    if keys == [] {
      assert m.Keys == {};
      assert m == map[];
    } else {
      var front, last := keys[..|keys| - 1], keys[|keys| - 1];
      assert keys == front + [last];
      TotalWithout(m, last);
      SumAlongIsTotal(m - {last}, front);
      SumAlongLocal(m, m - {last}, front);
    }
  }

  lemma {:induction false} SumAlongLocal(m: map<Text, real>, n: map<Text, real>, keys: seq<Text>)
    requires forall k :: k in keys ==> k in m && k in n && m[k] == n[k]
    ensures SumAlong(m, keys) == SumAlong(n, keys)
  {
    if keys != [] {
      SumAlongLocal(m, n, keys[..|keys| - 1]);
    }
  }
}
