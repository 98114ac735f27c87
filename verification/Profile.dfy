/** `profile`: run lengths, nearest-rank percentiles and the most frequent values of one sampled column. */
module Profile {
  import opened Text
  import opened Sorting

  type Cell = Option<Text>

  // ----- runs -----

  /** Adjacent cells that are equal; two adjacent nulls are. */
  function EqualPairs(cells: seq<Cell>): nat {
    if |cells| < 2 then 0
    else EqualPairs(cells[..|cells| - 1]) + if cells[|cells| - 1] == cells[|cells| - 2] then 1 else 0
  }

  /** A stretch of equal cells. */
  predicate IsRun(cells: seq<Cell>, from: nat, to: nat) {
    from < to <= |cells| && forall k :: from <= k < to ==> cells[k] == cells[from]
  }

  /** The length of the longest stretch of equal cells. */
  ghost predicate IsLongest(cells: seq<Cell>, length: nat) {
    && (forall from: nat, to: nat :: IsRun(cells, from, to) ==> to - from <= length)
    && (cells == [] ==> length == 0)
    && (cells != [] ==> exists from: nat, to: nat :: IsRun(cells, from, to) && to - from == length)
  }

  lemma {:induction false} RunExtends(cells: seq<Cell>, from: nat, to: nat, upto: nat)
    requires upto <= |cells|
    ensures IsRun(cells[..upto], from, to) <==> IsRun(cells, from, to) && to <= upto
  {
  }

  lemma {:induction false} RunsWithin(cells: seq<Cell>)
    ensures forall from: nat, to: nat, less: nat ::
      IsRun(cells, from, to) && from < less <= to ==> IsRun(cells, from, less)
  {
  }

  /** The stretch that ends a prefix, as long as it can be. */
  predicate EndsIn(cells: seq<Cell>, length: nat) {
    && length <= |cells| && IsRun(cells, |cells| - length, |cells|)
    && (length < |cells| ==> cells[|cells| - length - 1] != cells[|cells| - 1])
  }

  lemma {:induction false} LongestStep(cells: seq<Cell>, cell: Cell, last: nat, longest: nat, length: nat)
    requires IsLongest(cells, longest) && (cells != [] ==> EndsIn(cells, last))
    requires length == if cells != [] && cells[|cells| - 1] == cell then last + 1 else 1
    ensures EndsIn(cells + [cell], length)
    ensures IsLongest(cells + [cell], if longest < length then length else longest)
  {
    var all, n := cells + [cell], |cells|;
    var best := if longest < length then length else longest;
    assert all[..n] == cells;
    RunsWithin(all);
    forall from: nat, to: nat | IsRun(all, from, to) ensures to - from <= best {
      if to <= n {
        RunExtends(all, from, to, n);
      } else if from < n {
        assert all[n] == all[from] && all[n - 1] == all[from] && cells[n - 1] == cell;
        RunExtends(all, from, n, n);
      }
    }
    if longest < length {
      assert IsRun(all, n + 1 - length, n + 1);
    } else {
      var from: nat, to: nat :| IsRun(cells, from, to) && to - from == longest;
      RunExtends(all, from, to, n);
    }
  }

  lemma {:induction false} PairsSnoc(cells: seq<Cell>, cell: Cell)
    ensures EqualPairs(cells + [cell]) ==
            EqualPairs(cells) + if cells != [] && cells[|cells| - 1] == cell then 1 else 0
  {
    assert (cells + [cell])[..|cells|] == cells;
  }

  /** The fraction of adjacent cells that are equal, the mean run length and the longest run. */
  method RunStats(cells: seq<Cell>) returns (equal: real, mean: real, longest: nat)
    ensures |cells| >= 2 ==> equal == EqualPairs(cells) as real / (|cells| - 1) as real
    ensures |cells| < 2 ==> equal == 0.0
    ensures |cells| > EqualPairs(cells) || cells == []
    ensures cells != [] ==> mean == |cells| as real / (|cells| - EqualPairs(cells)) as real
    ensures IsLongest(cells, longest)
  {
    if cells == [] {
      return 0.0, 0.0, 0;
    }
    var runs, length := 0, 0;
    longest := 0;
    var previous: Option<Cell> := None;
    for k := 0 to |cells|
      invariant previous == if k == 0 then None else Some(cells[k - 1])
      invariant runs + EqualPairs(cells[..k]) == k && (k > 0 ==> runs > 0)
      invariant k > 0 ==> EndsIn(cells[..k], length)
      invariant IsLongest(cells[..k], longest)
    {
      Prefix(cells, k);
      PairsSnoc(cells[..k], cells[k]);
      ghost var last := length;
      if previous == Some(cells[k]) {
        length := length + 1;
      } else {
        length := 1;
        runs := runs + 1;
      }
      LongestStep(cells[..k], cells[k], last, longest, length);
      longest := if longest < length then length else longest;
      previous := Some(cells[k]);
    }
    WholePrefix(cells);
    equal := if |cells| < 2 then 0.0 else (|cells| - runs) as real / (|cells| - 1) as real;
    mean := |cells| as real / runs as real;
  }

  // ----- percentiles -----

  function Ceiling(x: real): int {
    -((-x).Floor)
  }

  /** The rank, cast to an index that stops at zero below. */
  function RankIndex(fraction: real, n: nat): nat
    requires n > 0
  {
    var rank := Ceiling(fraction * n as real);
    if rank <= 1 then 0 else if rank - 1 < n - 1 then rank - 1 else n - 1
  }

  function Percentile(sorted: seq<nat>, fraction: real): nat
    requires sorted != []
  {
    sorted[RankIndex(fraction, |sorted|)]
  }

  function CountAtMost(s: seq<nat>, v: nat): nat {
    if s == [] then 0 else CountAtMost(s[..|s| - 1], v) + if s[|s| - 1] <= v then 1 else 0
  }

  function CountBelow(s: seq<nat>, v: nat): nat {
    if s == [] then 0 else CountBelow(s[..|s| - 1], v) + if s[|s| - 1] < v then 1 else 0
  }

  lemma {:induction false} CountsAt(s: seq<nat>, k: nat, v: nat)
    requires forall i, j :: 0 <= i < j < |s| ==> s[i] <= s[j]
    requires forall i :: 0 <= i <= k && i < |s| ==> s[i] <= v
    requires forall i :: k <= i < |s| ==> v <= s[i]
    ensures CountAtMost(s, v) >= (if k < |s| then k + 1 else |s|) && CountBelow(s, v) <= k
    ensures CountBelow(s, v) <= |s|
  {
    if s != [] {
      CountsAt(s[..|s| - 1], k, v);
    }
  }

  lemma {:induction false} RankIs(fraction: real, n: nat)
    requires n > 0 && 0.0 < fraction <= 1.0
    ensures RankIndex(fraction, n) < n
    ensures (RankIndex(fraction, n) + 1) as real >= fraction * n as real
    ensures RankIndex(fraction, n) as real < fraction * n as real
  {
    var x := fraction * n as real;
    assert 0.0 < x <= n as real by {
      PositiveProduct(fraction, n as real);
    }
  }

  lemma {:induction false} PositiveProduct(a: real, b: real)
    requires 0.0 < a <= 1.0 && b > 0.0
    ensures 0.0 < a * b <= b
  {
  }

  /** The nearest-rank percentile: at least that fraction of the values are no larger, and less than that fraction are
      smaller. */
  lemma {:induction false} PercentileIsNearestRank(sorted: seq<nat>, fraction: real)
    requires sorted != [] && 0.0 < fraction <= 1.0
    requires forall i, j :: 0 <= i < j < |sorted| ==> sorted[i] <= sorted[j]
    ensures
      var v, n := Percentile(sorted, fraction), |sorted|;
      CountAtMost(sorted, v) as real >= fraction * n as real && fraction * n as real > CountBelow(sorted, v) as real
  {
    RankIs(fraction, |sorted|);
    CountsAt(sorted, RankIndex(fraction, |sorted|), Percentile(sorted, fraction));
  }

  // ----- the most frequent values -----

  datatype ValueCount = ValueCount(value: Text, count: nat)

  /** How often each value occurs. */
  method CountValues(values: seq<Text>) returns (counts: map<Text, nat>)
    ensures counts.Keys == set v | v in values
    ensures forall v :: v in counts ==> counts[v] == multiset(values)[v]
  {
    counts := map[];
    for k := 0 to |values|
      invariant counts.Keys == set v | v in values[..k]
      invariant forall v :: v in counts ==> counts[v] == multiset(values[..k])[v]
    {
      Prefix(values, k);
      var before := if values[k] in counts then counts[values[k]] else 0;
      counts := counts[values[k] := before + 1];
    }
    WholePrefix(values);
  }

  /** Higher counts first, then by value. */
  predicate Above(a: ValueCount, b: ValueCount) {
    a.count > b.count || (a.count == b.count && Le(a.value, b.value))
  }

  function Entries(counts: map<Text, nat>, keys: seq<Text>): (entries: seq<ValueCount>)
    requires forall k :: k in keys ==> k in counts
    ensures |entries| == |keys|
    ensures forall k :: 0 <= k < |keys| ==> entries[k] == ValueCount(keys[k], counts[keys[k]])
  {
    seq(|keys|, k requires 0 <= k < |keys| => ValueCount(keys[k], counts[keys[k]]))
  }

  function Ranked(counts: map<Text, nat>): seq<ValueCount> {
    StableSort(Above, Entries(counts, SortedKeys(counts.Keys)))
  }

  function Top(counts: map<Text, nat>, n: nat): seq<ValueCount> {
    if n < |Ranked(counts)| then Ranked(counts)[..n] else Ranked(counts)
  }

  lemma {:induction false} AboveIsPreorder()
    ensures Preorder(Above)
  {
    forall a: ValueCount, b: ValueCount ensures Above(a, b) || Above(b, a) {
      LeTotal(a.value, b.value);
    }
    forall a: ValueCount, b: ValueCount, c: ValueCount | Above(a, b) && Above(b, c) ensures Above(a, c) {
      if a.count == c.count {
        LeTransitive(a.value, b.value, c.value);
      }
    }
  }

  ghost predicate Lists(keys: seq<Text>, s: set<Text>) {
    && (forall k :: k in keys <==> k in s)
    && forall i, j :: 0 <= i < j < |keys| ==> keys[i] != keys[j]
  }

  lemma {:induction false} OneOfEach(keys: seq<Text>, x: Text)
    requires forall i, j :: 0 <= i < j < |keys| ==> keys[i] != keys[j]
    ensures multiset(keys)[x] == if x in keys then 1 else 0
  {
    if keys != [] {
      var front, last := keys[..|keys| - 1], keys[|keys| - 1];
      assert keys == front + [last];
      OneOfEach(front, x);
    }
  }

  lemma {:induction false} EntriesCount(counts: map<Text, nat>, keys: seq<Text>, e: ValueCount)
    requires forall k :: k in keys ==> k in counts
    ensures multiset(Entries(counts, keys))[e] ==
            if e.value in counts && counts[e.value] == e.count then multiset(keys)[e.value] else 0
  {
    if keys != [] {
      var front, last := keys[..|keys| - 1], keys[|keys| - 1];
      assert keys == front + [last];
      EntriesCount(counts, front, e);
      assert Entries(counts, keys) == Entries(counts, front) + [ValueCount(last, counts[last])];
    }
  }

  lemma {:induction false} EntriesPermute(counts: map<Text, nat>, a: seq<Text>, b: seq<Text>)
    requires Lists(a, counts.Keys) && Lists(b, counts.Keys)
    ensures multiset(Entries(counts, a)) == multiset(Entries(counts, b))
  {
    forall e: ValueCount ensures multiset(Entries(counts, a))[e] == multiset(Entries(counts, b))[e] {
      EntriesCount(counts, a, e);
      EntriesCount(counts, b, e);
      OneOfEach(a, e.value);
      OneOfEach(b, e.value);
    }
  }

  /** Sorting settles the order: whichever way the hash map lists its entries, the ranking is the same. */
  lemma {:induction false} HashOrderIsImmaterial(counts: map<Text, nat>, keys: seq<Text>)
    requires Lists(keys, counts.Keys)
    ensures StableSort(Above, Entries(counts, keys)) == Ranked(counts)
  {
    var a, b := StableSort(Above, Entries(counts, keys)), Ranked(counts);
    EntriesPermute(counts, keys, SortedKeys(counts.Keys));
    AboveIsPreorder();
    StableSortSorts(Above, Entries(counts, keys));
    StableSortSorts(Above, Entries(counts, SortedKeys(counts.Keys)));
    forall x, y | x in a && y in a && Above(x, y) && Above(y, x) ensures x == y {
      LeAntisymmetric(x.value, y.value);
    }
    SortedPermutationUnique(Above, a, b);
  }

  /** The keys, in whatever order the hash map gives them. */
  method ListKeys(counts: map<Text, nat>) returns (keys: seq<Text>)
    ensures Lists(keys, counts.Keys)
  {
    keys := [];
    var left := counts.Keys;
    while left != {}
      invariant left <= counts.Keys
      invariant Lists(keys, counts.Keys - left)
      decreases |left|
    {
      var key :| key in left;
      left := left - {key};
      keys := keys + [key];
    }
    assert counts.Keys - left == counts.Keys;
  }

  /** List the counts, sort them and keep the first. */
  method TopValues(counts: map<Text, nat>, n: nat) returns (top: seq<ValueCount>)
    ensures top == Top(counts, n)
  {
    var keys := ListKeys(counts);
    HashOrderIsImmaterial(counts, keys);
    top := StableSort(Above, Entries(counts, keys));
    top := if n < |top| then top[..n] else top;
  }

  lemma {:induction false} RankedIs(counts: map<Text, nat>, v: Text)
    ensures SortedBy(Above, Ranked(counts))
    ensures v in counts ==> ValueCount(v, counts[v]) in Ranked(counts)
  {
    var keys := SortedKeys(counts.Keys);
    var entries := Entries(counts, keys);
    AboveIsPreorder();
    StableSortSorts(Above, entries);
    if v in counts {
      var e := ValueCount(v, counts[v]);
      var i :| 0 <= i < |keys| && keys[i] == v;
      assert entries[i] == e;
      MemberOfPermutation(Ranked(counts), entries, e);
    }
  }

  /** The top values outrank the rest, and come in rank order. */
  lemma {:induction false} TopOutranks(counts: map<Text, nat>, n: nat, v: Text)
    requires v in counts && ValueCount(v, counts[v]) !in Top(counts, n)
    ensures |Top(counts, n)| == n
    ensures forall k :: 0 <= k < n ==>
      var top := Top(counts, n)[k];
      top.count > counts[v] || (top.count == counts[v] && Le(top.value, v))
  {
    RankedIs(counts, v);
    var ranked := Ranked(counts);
    var j :| 0 <= j < |ranked| && ranked[j] == ValueCount(v, counts[v]);
    BeyondTop(ranked, n, j);
  }

  /** The top values are counted values, as many as were asked for or as there are, the greater count first and, of one
      count, the smaller value. */
  lemma {:induction false} TopHolds(counts: map<Text, nat>, n: nat)
    ensures |Top(counts, n)| == if n < |counts| then n else |counts|
    ensures forall k :: 0 <= k < |Top(counts, n)| ==>
      Top(counts, n)[k].value in counts && counts[Top(counts, n)[k].value] == Top(counts, n)[k].count
    ensures
      var top := Top(counts, n);
      forall i, j {:trigger top[i], top[j]} :: 0 <= i < j < |top| ==>
        top[i].count > top[j].count || (top[i].count == top[j].count && Le(top[i].value, top[j].value))
  {
    var keys, ranked := SortedKeys(counts.Keys), Ranked(counts);
    var entries := Entries(counts, keys);
    AboveIsPreorder();
    StableSortSorts(Above, entries);
    forall k | 0 <= k < |ranked| ensures ranked[k].value in counts && counts[ranked[k].value] == ranked[k].count {
      MemberOfPermutation(ranked, entries, ranked[k]);
      var i :| 0 <= i < |entries| && entries[i] == ranked[k];
      assert keys[i] in keys;
    }
    var top := Top(counts, n);
    forall i, j {:trigger top[i], top[j]} | 0 <= i < j < |top|
      ensures top[i].count > top[j].count || (top[i].count == top[j].count && Le(top[i].value, top[j].value))
    {
      assert Above(ranked[i], ranked[j]);
    }
  }

  lemma {:induction false} InPrefix(ranked: seq<ValueCount>, n: nat, j: nat)
    requires j < n < |ranked|
    ensures ranked[j] in ranked[..n]
  {
    assert ranked[..n][j] == ranked[j];
  }

  lemma {:induction false} BeyondTop(ranked: seq<ValueCount>, n: nat, j: nat)
    requires j < |ranked| && ranked[j] !in (if n < |ranked| then ranked[..n] else ranked)
    ensures n <= j
  {
    if j < n && n < |ranked| {
      InPrefix(ranked, n, j);
    }
  }
}
