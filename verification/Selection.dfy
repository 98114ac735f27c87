/** Deterministic selection of a snapshot's files: filter, sort by path, then keep all, the first N, every N-th, or the
    N nearest the lower median size. Glob matching is a parameter. */
module Selection {
  import opened Text
  import opened Decimal
  import opened Files
  import opened Sorting

  datatype Error =
    | InvalidPattern(pattern: Text)
    | SampleForm
    | SampleCount
    | UnknownMethod
    | UnknownSizes

  datatype Glob = Glob(valid: Text -> bool, matches: (Text, Text) -> bool)

  datatype FileSelection = FileSelection(
    includes: seq<Text>, excludes: seq<Text>, partitions: map<Text, Option<Text>>, sample: Text)

  datatype Method = All | First(n: nat) | Every(n: nat) | Median(n: nat)

  // ----- reading the selection -----

  /** The first pattern that does not compile. */
  function FirstInvalid(glob: Glob, patterns: seq<Text>): Option<Text> {
    if patterns == [] then None
    else if FirstInvalid(glob, patterns[..|patterns| - 1]).Some? then FirstInvalid(glob, patterns[..|patterns| - 1])
    else if !glob.valid(patterns[|patterns| - 1]) then Some(patterns[|patterns| - 1])
    else None
  }

  lemma {:induction false} FirstInvalidStops(glob: Glob, patterns: seq<Text>, k: nat)
    requires k <= |patterns| && FirstInvalid(glob, patterns[..k]).Some?
    ensures FirstInvalid(glob, patterns) == FirstInvalid(glob, patterns[..k])
  {
    if k < |patterns| {
      var front := patterns[..|patterns| - 1];
      assert front[..k] == patterns[..k];
      FirstInvalidStops(glob, front, k);
    } else {
      WholePrefix(patterns);
    }
  }

  /** Compile the patterns in order: the first invalid one is reported. */
  method Compile(glob: Glob, patterns: seq<Text>) returns (invalid: Option<Text>)
    ensures invalid == FirstInvalid(glob, patterns)
    ensures invalid.None? <==> forall k :: 0 <= k < |patterns| ==> glob.valid(patterns[k])
  {
    for k := 0 to |patterns|
      invariant FirstInvalid(glob, patterns[..k]) == None
      invariant forall j :: 0 <= j < k ==> glob.valid(patterns[j])
    {
      Prefix(patterns, k);
      if !glob.valid(patterns[k]) {
        FirstInvalidStops(glob, patterns, k + 1);
        return Some(patterns[k]);
      }
    }
    WholePrefix(patterns);
    return None;
  }

  const FIRST: Text := "first"
  const EVERY: Text := "every"
  const MEDIAN: Text := "median"

  function MethodOf(word: Text, n: nat): Result<Method, Error> {
    if word == FIRST then Ok(First(n))
    else if word == EVERY then Ok(Every(n))
    else if word == MEDIAN then Ok(Median(n))
    else Err(UnknownMethod)
  }

  /** `method:N`, with the errors in the order the source finds them: no colon, a bad N, an unknown method. */
  function ParseSample(sample: Text): Result<Method, Error> {
    if sample == "" || sample == "all" then Ok(All)
    else
      var pieces := Split(sample, ':');
      if |pieces| == 1 then Err(SampleForm)
      else
        var n := ParseU64(Join(pieces[1..], ':'));
        if n.None? || n.value == 0 then Err(SampleCount) else MethodOf(pieces[0], n.value)
  }

  // ----- filtering and ordering -----

  predicate MatchesAny(glob: Glob, patterns: seq<Text>, path: Text) {
    exists k :: 0 <= k < |patterns| && glob.matches(patterns[k], path)
  }

  predicate InPartition(wanted: map<Text, Option<Text>>, values: map<Text, Option<Text>>) {
    forall k :: k in wanted ==> k in values && values[k] == wanted[k]
  }

  predicate Passes(selection: FileSelection, glob: Glob, f: TableFile) {
    && (selection.includes == [] || MatchesAny(glob, selection.includes, f.path))
    && !MatchesAny(glob, selection.excludes, f.path)
    && InPartition(selection.partitions, f.partitionValues)
  }

  function Retained(selection: FileSelection, glob: Glob, files: seq<TableFile>): seq<TableFile> {
    if files == [] then []
    else
      var front, last := Retained(selection, glob, files[..|files| - 1]), files[|files| - 1];
      if Passes(selection, glob, last) then front + [last] else front
  }

  predicate PathLe(a: TableFile, b: TableFile) {
    if a.path == b.path then Le(a.name, b.name) else Le(a.path, b.path)
  }

  function Size(f: TableFile): nat {
    if f.sizeBytes.Some? then f.sizeBytes.value else 0
  }

  function Distance(f: TableFile, median: nat): nat {
    if Size(f) < median then median - Size(f) else Size(f) - median
  }

  function ByDistance(median: nat): (TableFile, TableFile) -> bool {
    (a: TableFile, b: TableFile) => Distance(a, median) <= Distance(b, median)
  }

  predicate NatLe(a: nat, b: nat) {
    a <= b
  }

  function Sizes(files: seq<TableFile>): (sizes: seq<nat>)
    ensures |sizes| == |files|
    ensures forall k :: 0 <= k < |files| ==> sizes[k] == Size(files[k])
  {
    seq(|files|, k requires 0 <= k < |files| => Size(files[k]))
  }

  function LowerMedian(files: seq<TableFile>): nat
    requires files != []
  {
    StableSort(NatLe, Sizes(files))[(|files| - 1) / 2]
  }

  function Take(files: seq<TableFile>, n: nat): seq<TableFile> {
    if n < |files| then files[..n] else files
  }

  /** Every `n`-th file, starting with the first. */
  function Steps(files: seq<TableFile>, n: nat): seq<TableFile>
    requires n > 0
    decreases |files|
  {
    if files == [] then [] else [files[0]] + Steps(if n < |files| then files[n..] else [], n)
  }

  /** The files nearest the median, ties by path. */
  function ByRank(files: seq<TableFile>): seq<TableFile>
    requires files != []
  {
    StableSort(ByDistance(LowerMedian(files)), files)
  }

  /** What is kept of files already sorted by path. */
  function Sampled(how: Method, files: seq<TableFile>): Result<seq<TableFile>, Error>
    requires how != All ==> how.n > 0
  {
    match how
    case All => Ok(files)
    case First(n) => Ok(Take(files, n))
    case Every(n) => Ok(Steps(files, n))
    case Median(n) =>
      if files == [] then Ok([])
      else if exists k :: 0 <= k < |files| && Size(files[k]) == 0 then Err(UnknownSizes)
      else Ok(StableSort(PathLe, Take(ByRank(files), n)))
  }

  function Sorted(selection: FileSelection, glob: Glob, files: seq<TableFile>): seq<TableFile> {
    StableSort(PathLe, Retained(selection, glob, files))
  }

  function Selected(selection: FileSelection, glob: Glob, files: seq<TableFile>): Result<seq<TableFile>, Error> {
    var includes := FirstInvalid(glob, selection.includes);
    if includes.Some? then Err(InvalidPattern(includes.value)) else
    var excludes := FirstInvalid(glob, selection.excludes);
    if excludes.Some? then Err(InvalidPattern(excludes.value)) else
    var how := ParseSample(selection.sample);
    if how.Err? then Err(how.error) else Sampled(how.value, Sorted(selection, glob, files))
  }

  // ----- the operation -----

  /** `split_once`: at the first separator. */
  method SplitOnce(s: Text, sep: Byte) returns (r: Option<(Text, Text)>)
    ensures
      var pieces := Split(s, sep);
      r == if |pieces| == 1 then None else Some((pieces[0], Join(pieces[1..], sep)))
  {
    var k := 0;
    while k < |s| && s[k] != sep
      invariant k <= |s| && sep !in s[..k]
    {
      k := k + 1;
    }
    if k == |s| {
      WholePrefix(s);
      SplitWord(s, sep);
      return None;
    }
    assert s == s[..k] + [sep] + s[k + 1..];
    SplitAt(s[..k], s[k + 1..], sep);
    JoinSplit(s[k + 1..], sep);
    assert Split(s, sep)[1..] == Split(s[k + 1..], sep);
    return Some((s[..k], s[k + 1..]));
  }

  method ReadSample(sample: Text) returns (r: Result<Method, Error>)
    ensures r == ParseSample(sample)
  {
    if sample == "" || sample == "all" {
      return Ok(All);
    }
    var parts := SplitOnce(sample, ':');
    if parts.None? {
      return Err(SampleForm);
    }
    var n := ParseU64(parts.value.1);
    if n.None? || n.value == 0 {
      return Err(SampleCount);
    }
    return MethodOf(parts.value.0, n.value);
  }

  method Retain(selection: FileSelection, glob: Glob, files: seq<TableFile>) returns (kept: seq<TableFile>)
    ensures kept == Retained(selection, glob, files)
  {
    kept := [];
    for k := 0 to |files|
      invariant kept == Retained(selection, glob, files[..k])
    {
      Prefix(files, k);
      if Passes(selection, glob, files[k]) {
        kept := kept + [files[k]];
      }
    }
    WholePrefix(files);
  }

  method AnySizeUnknown(files: seq<TableFile>) returns (unknown: bool)
    ensures unknown <==> exists k :: 0 <= k < |files| && Size(files[k]) == 0
  {
    unknown := false;
    for k := 0 to |files|
      invariant !unknown && forall j :: 0 <= j < k ==> Size(files[j]) != 0
    {
      if Size(files[k]) == 0 {
        return true;
      }
    }
  }

  /** Re-sort by distance from the median, truncate, and sort back by path. */
  method KeepNearest(n: nat, files: seq<TableFile>) returns (kept: seq<TableFile>)
    requires files != []
    ensures kept == StableSort(PathLe, Take(ByRank(files), n))
  {
    var sizes := StableSort(NatLe, Sizes(files));
    var median := sizes[(|sizes| - 1) / 2];
    kept := StableSort(ByDistance(median), files);
    kept := Take(kept, n);
    kept := StableSort(PathLe, kept);
  }

  /** Keep a sample of files already sorted by path. */
  method Keep(how: Method, files: seq<TableFile>) returns (r: Result<seq<TableFile>, Error>)
    requires how != All ==> how.n > 0
    ensures r == Sampled(how, files)
  {
    var kept := files;
    if how.First? {
      kept := Take(kept, how.n);
    } else if how.Every? {
      kept := Steps(kept, how.n);
    } else if how.Median? && kept != [] {
      var unknown := AnySizeUnknown(kept);
      if unknown {
        return Err(UnknownSizes);
      }
      kept := KeepNearest(how.n, kept);
    }
    return Ok(kept);
  }

  /** Select the files of a snapshot. */
  method SelectFiles(selection: FileSelection, glob: Glob, files: seq<TableFile>)
    returns (r: Result<seq<TableFile>, Error>)
    ensures r == Selected(selection, glob, files)
  {
    var includes := Compile(glob, selection.includes);
    if includes.Some? {
      return Err(InvalidPattern(includes.value));
    }
    var excludes := Compile(glob, selection.excludes);
    if excludes.Some? {
      return Err(InvalidPattern(excludes.value));
    }
    var how := ReadSample(selection.sample);
    if how.Err? {
      return Err(how.error);
    }
    var kept := Retain(selection, glob, files);
    kept := StableSort(PathLe, kept);
    r := Keep(how.value, kept);
  }

  // ----- the order of the input does not matter -----

  lemma {:induction false} PathLeIsPreorder()
    ensures Preorder(PathLe)
  {
    forall a: TableFile, b: TableFile ensures PathLe(a, b) || PathLe(b, a) {
      LeTotal(a.path, b.path);
      LeTotal(a.name, b.name);
    }
    forall a: TableFile, b: TableFile, c: TableFile | PathLe(a, b) && PathLe(b, c) ensures PathLe(a, c) {
      PathLeTransitive(a, b, c);
    }
  }

  lemma {:induction false} PathLeTransitive(a: TableFile, b: TableFile, c: TableFile)
    requires PathLe(a, b) && PathLe(b, c)
    ensures PathLe(a, c)
  {
    if a.path == b.path && b.path == c.path {
      LeTransitive(a.name, b.name, c.name);
    } else if a.path != b.path && b.path != c.path {
      LeTransitive(a.path, b.path, c.path);
      if a.path == c.path {
        LeAntisymmetric(a.path, b.path);
      }
    }
  }

  lemma {:induction false} PathLeTies(a: TableFile, b: TableFile)
    requires PathLe(a, b) && PathLe(b, a)
    ensures a.path == b.path && a.name == b.name
  {
    if a.path == b.path {
      LeAntisymmetric(a.name, b.name);
    } else {
      LeAntisymmetric(a.path, b.path);
    }
  }

  /** No two files share both path and name. */
  predicate DistinctFiles(files: seq<TableFile>) {
    forall a, b :: a in files && b in files && a.path == b.path && a.name == b.name ==> a == b
  }

  lemma {:induction false} RetainedCount(selection: FileSelection, glob: Glob, files: seq<TableFile>, f: TableFile)
    ensures multiset(Retained(selection, glob, files))[f] ==
            if Passes(selection, glob, f) then multiset(files)[f] else 0
  {
    if files != [] {
      var front, last := files[..|files| - 1], files[|files| - 1];
      assert files == front + [last];
      RetainedCount(selection, glob, front, f);
    }
  }

  lemma {:induction false} RetainedPermutes(
    selection: FileSelection, glob: Glob, a: seq<TableFile>, b: seq<TableFile>)
    requires multiset(a) == multiset(b)
    ensures multiset(Retained(selection, glob, a)) == multiset(Retained(selection, glob, b))
  {
    forall f: TableFile
      ensures multiset(Retained(selection, glob, a))[f] == multiset(Retained(selection, glob, b))[f]
    {
      RetainedCount(selection, glob, a, f);
      RetainedCount(selection, glob, b, f);
    }
  }

  /** The files that pass, and no others. */
  lemma {:induction false} SortedHolds(selection: FileSelection, glob: Glob, files: seq<TableFile>, f: TableFile)
    ensures f in Sorted(selection, glob, files) <==>
      && f in files
      && (selection.includes == [] ||
            exists k :: 0 <= k < |selection.includes| && glob.matches(selection.includes[k], f.path))
      && !(exists k :: 0 <= k < |selection.excludes| && glob.matches(selection.excludes[k], f.path))
      && (forall k :: k in selection.partitions ==>
            k in f.partitionValues && f.partitionValues[k] == selection.partitions[k])
  {
    var kept := Retained(selection, glob, files);
    MemberOfPermutation(Sorted(selection, glob, files), kept, f);
    RetainedCount(selection, glob, files, f);
    assert f in kept <==> f in multiset(kept);
    assert f in files <==> f in multiset(files);
  }

  /** Ordered by path, and files of one path by name. */
  predicate Ahead(a: TableFile, b: TableFile) {
    (a.path != b.path ==> Le(a.path, b.path)) && (a.path == b.path ==> Le(a.name, b.name))
  }

  lemma {:induction false} SortedIsSorted(selection: FileSelection, glob: Glob, files: seq<TableFile>)
    ensures SortedBy(PathLe, Sorted(selection, glob, files))
  {
    PathLeIsPreorder();
    StableSortSorts(PathLe, Retained(selection, glob, files));
  }

  lemma {:induction false} SortedIsDistinct(selection: FileSelection, glob: Glob, files: seq<TableFile>)
    requires DistinctFiles(files)
    ensures DistinctFiles(Sorted(selection, glob, files))
  {
    var sorted := Sorted(selection, glob, files);
    forall a, b | a in sorted && b in sorted && a.path == b.path && a.name == b.name ensures a == b {
      SortedHolds(selection, glob, files, a);
      SortedHolds(selection, glob, files, b);
    }
  }

  /** With distinct files the selection, and its errors, are the same for every order of the input. */
  lemma {:induction false} OrderIsImmaterial(
    selection: FileSelection, glob: Glob, a: seq<TableFile>, b: seq<TableFile>)
    requires multiset(a) == multiset(b) && DistinctFiles(a)
    ensures Selected(selection, glob, a) == Selected(selection, glob, b)
  {
    RetainedPermutes(selection, glob, a, b);
    PathLeIsPreorder();
    SortedIsSorted(selection, glob, a);
    SortedIsSorted(selection, glob, b);
    SortedIsDistinct(selection, glob, a);
    var x, y := Sorted(selection, glob, a), Sorted(selection, glob, b);
    forall p, q | p in x && q in x && PathLe(p, q) && PathLe(q, p) ensures p == q {
      PathLeTies(p, q);
    }
    SortedPermutationUnique(PathLe, x, y);
  }

  // ----- what a median selection keeps -----

  lemma {:induction false} ByDistanceIsPreorder(median: nat)
    ensures Preorder(ByDistance(median))
  {
  }

  /** Strictly nearer the median, or as near and earlier by path and name. */
  predicate Nearer(median: nat, a: TableFile, b: TableFile) {
    || Distance(a, median) < Distance(b, median)
    || (Distance(a, median) == Distance(b, median) && PathLe(a, b) && !(a.path == b.path && a.name == b.name))
  }

  /** The file's size is known and lies within `d` of the median. */
  predicate Around(median: nat, d: int, f: TableFile) {
    f.sizeBytes.Some? && median - d <= f.sizeBytes.value <= median + d
  }

  lemma {:induction false} RankOrder(files: seq<TableFile>, i: nat, j: nat)
    requires files != [] && SortedBy(PathLe, files) && i < j < |files|
    ensures
      var ranked, median := ByRank(files), LowerMedian(files);
      Distance(ranked[i], median) <= Distance(ranked[j], median)
      && (Distance(ranked[i], median) == Distance(ranked[j], median) ==> PathLe(ranked[i], ranked[j]))
  {
    var le := ByDistance(LowerMedian(files));
    ByDistanceIsPreorder(LowerMedian(files));
    StableSortRefines(le, PathLe, files);
    assert Lex(le, PathLe)(ByRank(files)[i], ByRank(files)[j]);
  }

  lemma {:induction false} KeptIs(files: seq<TableFile>, n: nat, f: TableFile)
    requires files != [] && n > 0 && Sampled(Median(n), files).Ok?
    ensures f in Sampled(Median(n), files).value <==> f in Take(ByRank(files), n)
  {
    MemberOfPermutation(Sampled(Median(n), files).value, Take(ByRank(files), n), f);
  }

  lemma {:induction false} RankedMember(files: seq<TableFile>, f: TableFile)
    requires files != []
    ensures f in ByRank(files) <==> f in files
  {
    MemberOfPermutation(ByRank(files), files, f);
  }

  /** Median selection is optimal: every kept file is nearer the lower median than every dropped one, ties settled by
      path and then by name; as many are kept as were asked for; and what is kept comes from the files. */
  lemma {:induction false} MedianIsOptimal(files: seq<TableFile>, n: nat)
    requires files != [] && SortedBy(PathLe, files) && DistinctFiles(files)
    requires n > 0 && Sampled(Median(n), files).Ok?
    ensures
      var kept := Sampled(Median(n), files).value;
      forall x, y :: x in kept && y in files && y !in kept ==>
        Nearer(LowerMedian(files), x, y)
        && forall d: int :: Around(LowerMedian(files), d, y) ==> Around(LowerMedian(files), d, x)
    ensures
      var kept := Sampled(Median(n), files).value;
      |kept| == (if n < |files| then n else |files|) && SortedBy(PathLe, kept)
      && forall x :: x in kept ==> x in files
  {
    var kept, ranked := Sampled(Median(n), files).value, ByRank(files);
    PathLeIsPreorder();
    StableSortSorts(PathLe, Take(ranked, n));
    forall x | x in kept ensures x in files {
      KeptIs(files, n, x);
      RankedMember(files, x);
    }
    forall x, y | x in kept && y in files && y !in kept
      ensures Nearer(LowerMedian(files), x, y)
      ensures forall d: int :: Around(LowerMedian(files), d, y) ==> Around(LowerMedian(files), d, x)
    {
      KeptIs(files, n, x);
      KeptIs(files, n, y);
      RankedMember(files, y);
      NearerThanDropped(files, n, x, y);
    }
  }

  lemma {:induction false} TakeHolds(files: seq<TableFile>, n: nat, k: nat)
    requires k < n && k < |files|
    ensures files[k] in Take(files, n)
  {
    assert Take(files, n)[k] == files[k];
  }

  lemma {:induction false} DroppedIsBeyond(files: seq<TableFile>, n: nat, k: nat)
    requires k < |files| && files[k] !in Take(files, n)
    ensures k >= n
  {
    if k < n {
      TakeHolds(files, n, k);
    }
  }

  lemma {:induction false} NearerThanDropped(files: seq<TableFile>, n: nat, x: TableFile, y: TableFile)
    requires files != [] && SortedBy(PathLe, files) && DistinctFiles(files)
    requires x in Take(ByRank(files), n) && y in ByRank(files) && y !in Take(ByRank(files), n)
    ensures Nearer(LowerMedian(files), x, y)
  {
    var ranked := ByRank(files);
    var i :| 0 <= i < |Take(ranked, n)| && Take(ranked, n)[i] == x;
    var j :| 0 <= j < |ranked| && ranked[j] == y;
    DroppedIsBeyond(ranked, n, j);
    assert ranked[i] == x;
    RankOrder(files, i, j);
    RankedMember(files, x);
    RankedMember(files, y);
    assert x.path == y.path && x.name == y.name ==> x == y;
  }

  /** A larger median selection holds the smaller one. */
  lemma {:induction false} MedianNests(files: seq<TableFile>, n: nat, f: TableFile)
    requires n > 0 && Sampled(Median(n), files).Ok? && f in Sampled(Median(n), files).value
    ensures Sampled(Median(n + 1), files).Ok? && f in Sampled(Median(n + 1), files).value
  {
    KeptIs(files, n, f);
    KeptIs(files, n + 1, f);
    var ranked := ByRank(files);
    assert forall k :: 0 <= k < |Take(ranked, n)| ==> Take(ranked, n)[k] == Take(ranked, n + 1)[k];
  }

  function SortedSizes(files: seq<TableFile>): seq<nat> {
    StableSort(NatLe, Sizes(files))
  }

  /** What the median is: half the sizes, rounded up, are no larger, and more than half are no smaller. */
  lemma {:induction false} MedianIsInTheMiddle(files: seq<TableFile>, k: nat)
    requires k < |files|
    ensures multiset(SortedSizes(files)) == multiset(Sizes(files))
    ensures Sizes(files)[k] == OrZero(files[k].sizeBytes)
    ensures k <= (|files| - 1) / 2 ==> SortedSizes(files)[k] <= LowerMedian(files)
    ensures k >= (|files| - 1) / 2 ==> SortedSizes(files)[k] >= LowerMedian(files)
  {
    StableSortSorts(NatLe, Sizes(files));
    var sorted, m := SortedSizes(files), (|files| - 1) / 2;
    if k < m {
      assert NatLe(sorted[k], sorted[m]);
    } else if k > m {
      assert NatLe(sorted[m], sorted[k]);
    }
  }

  // ----- the other methods, and the error cases -----

  lemma {:induction false} OneStepMore(k: nat, n: nat)
    requires k > 0
    ensures k * n == (k - 1) * n + n && (k - 1) * n >= 0
  {
  }

  lemma {:induction false} StepsAre(files: seq<TableFile>, n: nat, k: nat)
    requires n > 0
    ensures k < |Steps(files, n)| <==> k * n < |files|
    ensures k * n < |files| ==> k < |Steps(files, n)| && Steps(files, n)[k] == files[k * n]
    decreases |files|
  {
    if files == [] {
    } else if k == 0 {
      assert Steps(files, n)[0] == files[0];
    } else {
      var rest := if n < |files| then files[n..] else [];
      StepsAre(rest, n, k - 1);
      OneStepMore(k, n);
      var at := (k - 1) * n;
      if n < |files| && at < |rest| {
        assert rest[at] == files[at + n];
      }
    }
  }

  lemma {:induction false} ProductGrows(i: nat, j: nat, n: nat)
    requires i < j && n > 0
    ensures i * n < j * n
  {
  }

  lemma {:induction false} StepsAreSorted(files: seq<TableFile>, n: nat)
    requires n > 0 && SortedBy(PathLe, files)
    ensures SortedBy(PathLe, Steps(files, n))
  {
    var steps := Steps(files, n);
    forall i: nat, j: nat | i < j < |steps| ensures PathLe(steps[i], steps[j]) {
      StepsAre(files, n, i);
      StepsAre(files, n, j);
      ProductGrows(i, j, n);
    }
  }

  lemma {:induction false} SampledIsSorted(how: Method, files: seq<TableFile>)
    requires how != All ==> how.n > 0
    requires SortedBy(PathLe, files) && Sampled(how, files).Ok?
    ensures SortedBy(PathLe, Sampled(how, files).value)
  {
    if how.Every? {
      StepsAreSorted(files, how.n);
    } else if how.Median? && files != [] {
      PathLeIsPreorder();
      StableSortSorts(PathLe, Take(ByRank(files), how.n));
    }
  }

  /** What each method keeps of the filtered and sorted files, and when the median cannot be taken. */
  lemma {:induction false} MethodHolds(how: Method, files: seq<TableFile>)
    requires how != All ==> how.n > 0
    ensures how.All? ==> Sampled(how, files) == Ok(files)
    ensures how.First? ==> Sampled(how, files) == Ok(if how.n <= |files| then files[..how.n] else files)
    ensures how.Every? ==> Sampled(how, files).Ok?
    ensures how.Every? ==> forall k: nat ::
      (k < |Sampled(how, files).value| <==> k * how.n < |files|)
      && (k * how.n < |files| ==> Sampled(how, files).value[k] == files[k * how.n])
    ensures how.Median? && (exists k :: 0 <= k < |files| && OrZero(files[k].sizeBytes) == 0) ==>
      Sampled(how, files) == Err(UnknownSizes)
    ensures how.Median? && (forall k :: 0 <= k < |files| ==> OrZero(files[k].sizeBytes) > 0) ==>
      Sampled(how, files).Ok? && (files == [] ==> Sampled(how, files).value == [])
  {
    assert forall k :: 0 <= k < |files| ==> Size(files[k]) == OrZero(files[k].sizeBytes);
    WholePrefix(files);
    if how.Every? {
      forall k: nat
        ensures k < |Steps(files, how.n)| <==> k * how.n < |files|
        ensures k * how.n < |files| ==> Steps(files, how.n)[k] == files[k * how.n]
      {
        StepsAre(files, how.n, k);
      }
    }
  }

  predicate AllValid(glob: Glob, patterns: seq<Text>) {
    forall k :: 0 <= k < |patterns| ==> glob.valid(patterns[k])
  }

  /** The pattern is invalid, and none before it is. */
  predicate IsFirstInvalid(glob: Glob, patterns: seq<Text>, k: nat) {
    k < |patterns| && !glob.valid(patterns[k]) && AllValid(glob, patterns[..k])
  }

  lemma {:induction false} FirstInvalidAt(glob: Glob, patterns: seq<Text>, k: nat)
    requires IsFirstInvalid(glob, patterns, k)
    ensures FirstInvalid(glob, patterns) == Some(patterns[k])
  {
    NoneInvalid(glob, patterns[..k]);
    Prefix(patterns, k);
    FirstInvalidStops(glob, patterns, k + 1);
  }

  lemma {:induction false} NoneInvalid(glob: Glob, patterns: seq<Text>)
    requires AllValid(glob, patterns)
    ensures FirstInvalid(glob, patterns) == None
  {
    if patterns != [] {
      NoneInvalid(glob, patterns[..|patterns| - 1]);
    }
  }

  /** The first bad pattern is reported, the ones to include before the ones to exclude. */
  lemma {:induction false} BadPatternFails(selection: FileSelection, glob: Glob, files: seq<TableFile>, k: nat)
    ensures IsFirstInvalid(glob, selection.includes, k) ==>
      Selected(selection, glob, files) == Err(InvalidPattern(selection.includes[k]))
    ensures IsFirstInvalid(glob, selection.excludes, k) ==>
      (AllValid(glob, selection.includes) ==>
         Selected(selection, glob, files) == Err(InvalidPattern(selection.excludes[k])))
  {
    if IsFirstInvalid(glob, selection.includes, k) {
      FirstInvalidAt(glob, selection.includes, k);
    } else if AllValid(glob, selection.includes) {
      NoneInvalid(glob, selection.includes);
      if IsFirstInvalid(glob, selection.excludes, k) {
        FirstInvalidAt(glob, selection.excludes, k);
      }
    }
  }

  /** With good patterns the selection is what the method keeps of the filtered and sorted files. */
  lemma {:induction false} SelectionIs(selection: FileSelection, glob: Glob, files: seq<TableFile>)
    requires AllValid(glob, selection.includes) && AllValid(glob, selection.excludes)
    ensures Selected(selection, glob, files) ==
      match ParseSample(selection.sample)
      case Err(error) => Err(error)
      case Ok(how) => Sampled(how, Sorted(selection, glob, files))
  {
    NoneInvalid(glob, selection.includes);
    NoneInvalid(glob, selection.excludes);
  }

  lemma {:induction false} SelectedIs(selection: FileSelection, glob: Glob, files: seq<TableFile>)
    requires Selected(selection, glob, files).Ok?
    ensures ParseSample(selection.sample).Ok?
    ensures Selected(selection, glob, files) ==
            Sampled(ParseSample(selection.sample).value, Sorted(selection, glob, files))
  {
  }

  /** Whatever the method, what is selected comes out in path order. */
  lemma {:induction false} SelectionIsSorted(selection: FileSelection, glob: Glob, files: seq<TableFile>)
    requires Selected(selection, glob, files).Ok?
    ensures SortedBy(PathLe, Selected(selection, glob, files).value)
    ensures
      var selected := Selected(selection, glob, files).value;
      forall i, j {:trigger selected[i], selected[j]} :: 0 <= i < j < |selected| ==> Ahead(selected[i], selected[j])
  {
    SelectedIs(selection, glob, files);
    var sorted := Sorted(selection, glob, files);
    SortedIsSorted(selection, glob, files);
    SampledIsSorted(ParseSample(selection.sample).value, sorted);
  }

  lemma {:induction false} NotAll(s: Text)
    requires ':' in s
    ensures s != "" && s != "all"
  {
  }

  /** How the flag is read: two spellings of all; a count after the first colon, positive and in 64 bits; and one of
      three methods, looked at last. */
  lemma {:induction false} SampleIs(word: Text, rest: Text)
    requires ':' !in word
    ensures ParseSample("") == ParseSample("all") == Ok(All)
    ensures word != "" && word != "all" ==> ParseSample(word) == Err(SampleForm)
    ensures
      var n, r := ParseU64(rest), ParseSample(word + [':'] + rest);
      if n.None? || n.value == 0 then r == Err(SampleCount)
      else if word == "first" then r == Ok(First(n.value))
      else if word == "every" then r == Ok(Every(n.value))
      else if word == "median" then r == Ok(Median(n.value))
      else r == Err(UnknownMethod)
  {
    var s := word + [':'] + rest;
    assert s[|word|] == ':';
    NotAll(s);
    SplitWord(word, ':');
    SplitAt(word, rest, ':');
    JoinSplit(rest, ':');
    assert Split(s, ':')[1..] == Split(rest, ':');
  }

  lemma {:induction false} NoColons()
    ensures ':' !in FIRST && ':' !in EVERY && ':' !in MEDIAN
    ensures FIRST != EVERY && FIRST != MEDIAN && EVERY != MEDIAN
  {
  }

  lemma {:induction false} ReadsAs(word: Text, n: nat)
    requires ':' !in word && 0 < n < 0x1_0000_0000_0000_0000
    ensures ParseSample(word + [':'] + Print(n)) == MethodOf(word, n)
  {
    ParsePrint(n);
    SampleIs(word, Print(n));
  }

  /** Every sample the flag's form can spell reads back as itself. */
  lemma {:induction false} SampleReads(n: nat)
    requires 0 < n < 0x1_0000_0000_0000_0000
    ensures ParseSample(FIRST + [':'] + Print(n)) == Ok(First(n))
    ensures ParseSample(EVERY + [':'] + Print(n)) == Ok(Every(n))
    ensures ParseSample(MEDIAN + [':'] + Print(n)) == Ok(Median(n))
  {
    NoColons();
    ReadsAs(FIRST, n);
    ReadsAs(EVERY, n);
    ReadsAs(MEDIAN, n);
  }
}
