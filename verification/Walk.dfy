/** The parallel linter: workers claim file indices from a shared counter, lint on their own, and append to one
    mutex-guarded report, which is sorted at the end. */
module Walk {
  import opened Text
  import opened Sorting

  /** A path is compared component by component. */
  type Path = seq<Text>

  predicate PathLe(a: Path, b: Path) {
    a == [] || (b != [] && if a[0] == b[0] then PathLe(a[1..], b[1..]) else Le(a[0], b[0]))
  }

  lemma {:induction false} PathLeTotal(a: Path, b: Path)
    ensures PathLe(a, b) || PathLe(b, a)
  {
    if a != [] && b != [] {
      LeTotal(a[0], b[0]);
      PathLeTotal(a[1..], b[1..]);
    }
  }

  lemma {:induction false} PathLeTransitive(a: Path, b: Path, c: Path)
    requires PathLe(a, b) && PathLe(b, c)
    ensures PathLe(a, c)
  {
    if a != [] {
      if a[0] == b[0] == c[0] {
        PathLeTransitive(a[1..], b[1..], c[1..]);
      } else {
        LeReflexive(a[0]);
        LeReflexive(b[0]);
        LeTransitive(a[0], b[0], c[0]);
        if a[0] == c[0] {
          LeAntisymmetric(a[0], b[0]);
        }
      }
    }
  }

  lemma {:induction false} PathLeAntisymmetric(a: Path, b: Path)
    requires PathLe(a, b) && PathLe(b, a)
    ensures a == b
  {
    if a != [] {
      if a[0] != b[0] {
        LeAntisymmetric(a[0], b[0]);
      }
      PathLeAntisymmetric(a[1..], b[1..]);
      assert a == [a[0]] + a[1..] && b == [b[0]] + b[1..];
    }
  }

  lemma {:induction false} PathLeIsPreorder()
    ensures Preorder(PathLe)
  {
    forall a, b ensures PathLe(a, b) || PathLe(b, a) {
      PathLeTotal(a, b);
    }
    forall a, b, c | PathLe(a, b) && PathLe(b, c) ensures PathLe(a, c) {
      PathLeTransitive(a, b, c);
    }
  }

  /** One finding; `message` stands for what the order does not look at. */
  datatype Finding = Finding(line: nat, column: nat, rule: Text, message: Text)

  predicate FindingLe(a: Finding, b: Finding) {
    a.line < b.line || (a.line == b.line && (a.column < b.column || (a.column == b.column && Le(a.rule, b.rule))))
  }

  datatype Entry = Entry(path: Path, finding: Finding)

  predicate EntryLe(a: Entry, b: Entry) {
    if a.path == b.path then FindingLe(a.finding, b.finding) else PathLe(a.path, b.path)
  }

  lemma {:induction false} FindingLeIsPreorder()
    ensures Preorder(FindingLe)
  {
    forall a, b ensures FindingLe(a, b) || FindingLe(b, a) {
      LeTotal(a.rule, b.rule);
    }
    forall a, b, c | FindingLe(a, b) && FindingLe(b, c) ensures FindingLe(a, c) {
      if a.line == b.line == c.line && a.column == b.column == c.column {
        LeTransitive(a.rule, b.rule, c.rule);
      }
    }
  }

  lemma {:induction false} EntryLeIsPreorder()
    ensures Preorder(EntryLe)
  {
    FindingLeIsPreorder();
    forall a, b ensures EntryLe(a, b) || EntryLe(b, a) {
      PathLeTotal(a.path, b.path);
    }
    forall a, b, c | EntryLe(a, b) && EntryLe(b, c) ensures EntryLe(a, c) {
      if a.path != b.path && b.path != c.path {
        PathLeTransitive(a.path, b.path, c.path);
        if a.path == c.path {
          PathLeAntisymmetric(a.path, b.path);
        }
      }
    }
  }

  /** The two paths agree up to component `k`, where the first ends or has the smaller component. */
  predicate Precedes(a: Path, b: Path, k: nat) {
    k <= |a| && k <= |b| && a[..k] == b[..k] && (k == |a| || (k < |b| && a[k] != b[k] && Le(a[k], b[k])))
  }

  /** Paths are ordered component by component. */
  lemma {:induction false} PathLeIsByComponent(a: Path, b: Path)
    ensures PathLe(a, b) <==> exists k: nat :: Precedes(a, b, k)
  {
    if a == [] {
      assert Precedes(a, b, 0);
    } else if b != [] {
      PathLeIsByComponent(a[1..], b[1..]);
      if a[0] == b[0] {
        if k: nat :| Precedes(a[1..], b[1..], k) {
          assert a[..k + 1] == [a[0]] + a[1..][..k] && b[..k + 1] == [b[0]] + b[1..][..k];
          assert Precedes(a, b, k + 1);
        }
        if k: nat :| Precedes(a, b, k) {
          PrecedesRest(a, b, k);
        }
      } else {
        if Le(a[0], b[0]) {
          assert Precedes(a, b, 0);
        }
        HeadsDiffer(a, b);
      }
    }
  }

  lemma {:induction false} PrecedesRest(a: Path, b: Path, k: nat)
    requires a != [] && b != [] && a[0] == b[0] && Precedes(a, b, k)
    ensures k > 0 && Precedes(a[1..], b[1..], k - 1)
  {
    assert a[1..][..k - 1] == a[..k][1..] && b[1..][..k - 1] == b[..k][1..];
  }

  // ----- the file list -----

  ghost predicate StrictlySorted(files: seq<Path>) {
    forall i, j :: 0 <= i < j < |files| ==> PathLe(files[i], files[j]) && files[i] != files[j]
  }

  /** `dedup`: keep an element unless it equals the one before it. */
  function Dedup(s: seq<Path>): seq<Path> {
    if s == [] then []
    else
      var front, last := s[..|s| - 1], s[|s| - 1];
      if front != [] && front[|front| - 1] == last then Dedup(front) else Dedup(front) + [last]
  }

  /** Sorting and dropping repeats leaves each discovered file once, in path order. */
  lemma {:induction false} DedupSorted(s: seq<Path>)
    requires SortedBy(PathLe, s)
    ensures StrictlySorted(Dedup(s))
    ensures forall p :: p in Dedup(s) <==> p in s
    ensures s != [] ==> Dedup(s) != [] && Dedup(s)[|Dedup(s)| - 1] == s[|s| - 1]
  {
    if s != [] {
      var front, last := s[..|s| - 1], s[|s| - 1];
      assert s == front + [last];
      DedupSorted(front);
      if front != [] && front[|front| - 1] != last {
        assert PathLe(s[|s| - 2], s[|s| - 1]);
        StrictlySortedMore(Dedup(front), last);
      }
    }
  }

  lemma {:induction false} StrictlySortedMore(files: seq<Path>, p: Path)
    requires files != [] && StrictlySorted(files)
    requires PathLe(files[|files| - 1], p) && files[|files| - 1] != p
    ensures StrictlySorted(files + [p])
  {
    var last := files[|files| - 1];
    forall i | 0 <= i < |files| ensures PathLe(files[i], p) && files[i] != p {
      if i < |files| - 1 {
        PathLeTransitive(files[i], last, p);
        if files[i] == p {
          PathLeAntisymmetric(p, last);
        }
      }
    }
  }

  /** The discovered files, sorted and with repeats dropped. */
  method SortFiles(found: seq<Path>) returns (files: seq<Path>)
    ensures StrictlySorted(files)
    ensures forall p :: p in files <==> p in found
  {
    var sorted := StableSort(PathLe, found);
    files := [];
    for k := 0 to |sorted|
      invariant files == Dedup(sorted[..k])
    {
      assert sorted[..k + 1][..k] == sorted[..k];
      if k == 0 || sorted[k - 1] != sorted[k] {
        files := files + [sorted[k]];
      }
    }
    assert sorted[..|sorted|] == sorted;
    PathLeIsPreorder();
    StableSortSorts(PathLe, found);
    DedupSorted(sorted);
    forall p ensures p in sorted <==> p in found {
      MemberOfPermutation(sorted, found, p);
    }
  }

  // ----- the program the workers must agree with -----

  /** What reading a file gives: the findings its rules report, in rule order, or a read error. */
  datatype Source = Readable(raw: seq<Finding>) | Unreadable(error: Text)

  datatype Job = Job(files: seq<Path>, disk: Path -> Source)

  /** `lint`: the findings in position order. */
  function Lint(source: Source): seq<Finding> {
    match source
    case Readable(raw) => StableSort(FindingLe, raw)
    case Unreadable(_) => []
  }

  function Tag(path: Path, findings: seq<Finding>): (entries: seq<Entry>)
    ensures |entries| == |findings|
    ensures forall k :: 0 <= k < |findings| ==> entries[k] == Entry(path, findings[k])
  {
    seq(|findings|, k requires 0 <= k < |findings| => Entry(path, findings[k]))
  }

  function EntriesOf(j: Job, i: nat): seq<Entry>
    requires i < |j.files|
  {
    Tag(j.files[i], Lint(j.disk(j.files[i])))
  }

  function ErrorOf(j: Job, i: nat): seq<(Path, Text)>
    requires i < |j.files|
  {
    match j.disk(j.files[i])
    case Readable(_) => []
    case Unreadable(error) => [(j.files[i], error)]
  }

  predicate Indices(j: Job, order: seq<nat>) {
    forall k :: 0 <= k < |order| ==> order[k] < |j.files|
  }

  /** The findings of the files in `order`, file after file. */
  function Findings(j: Job, order: seq<nat>): seq<Entry>
    requires Indices(j, order)
  {
    if order == [] then []
    else Findings(j, order[..|order| - 1]) + EntriesOf(j, order[|order| - 1])
  }

  function ReadErrors(j: Job, order: seq<nat>): seq<(Path, Text)>
    requires Indices(j, order)
  {
    if order == [] then []
    else ReadErrors(j, order[..|order| - 1]) + ErrorOf(j, order[|order| - 1])
  }

  lemma {:induction false} ReportMore(j: Job, order: seq<nat>, i: nat)
    requires Indices(j, order) && i < |j.files|
    ensures Indices(j, order + [i])
    ensures Findings(j, order + [i]) == Findings(j, order) + EntriesOf(j, i)
    ensures ReadErrors(j, order + [i]) == ReadErrors(j, order) + ErrorOf(j, i)
  {
    assert (order + [i])[..|order|] == order;
  }

  /** The indices from `lo` up to `hi`. */
  function Range(lo: nat, hi: nat): (r: seq<nat>)
    requires lo <= hi
    ensures |r| == hi - lo && forall k :: 0 <= k < |r| ==> r[k] == lo + k
  {
    seq(hi - lo, k requires 0 <= k < hi - lo => lo + k)
  }

  // ----- the workers -----

  datatype Worker = Ready | Claimed(index: nat) | Linted(index: nat) | Stopped

  datatype State = State(
    next: nat, workers: seq<Worker>, findings: seq<Entry>, errors: seq<(Path, Text)>,
    ghost order: seq<nat>)   // the files appended so far, in order

  datatype Step = Claim(worker: nat) | Read(worker: nat) | Append(worker: nat)

  ghost predicate Enabled(j: Job, s: State, step: Step) {
    step.worker < |s.workers| &&
    match step
    case Claim(w) => s.workers[w].Ready?
    case Read(w) => s.workers[w].Claimed?
    case Append(w) => s.workers[w].Linted? && s.workers[w].index < |j.files|
  }

  ghost function Apply(j: Job, s: State, step: Step): State
    requires Enabled(j, s, step)
  {
    match step
    case Claim(w) =>
      s.(next := s.next + 1, workers := s.workers[w := if s.next < |j.files| then Claimed(s.next) else Stopped])
    case Read(w) => s.(workers := s.workers[w := Linted(s.workers[w].index)])
    case Append(w) =>
      var i := s.workers[w].index;
      State(s.next, s.workers[w := Ready], s.findings + EntriesOf(j, i), s.errors + ErrorOf(j, i), s.order + [i])
  }

  ghost function Start(workers: nat): State {
    State(0, seq(workers, _ => Ready), [], [], [])
  }

  ghost predicate Run(j: Job, s: State, steps: seq<Step>)
    decreases |steps|
  {
    steps == [] || (Enabled(j, s, steps[0]) && Run(j, Apply(j, s, steps[0]), steps[1..]))
  }

  ghost function After(j: Job, s: State, steps: seq<Step>): State
    requires Run(j, s, steps)
    decreases |steps|
  {
    if steps == [] then s else After(j, Apply(j, s, steps[0]), steps[1..])
  }

  ghost predicate Finished(s: State) {
    forall w :: 0 <= w < |s.workers| ==> s.workers[w].Stopped?
  }

  predicate Holds(w: Worker, i: nat) {
    (w.Claimed? || w.Linted?) && w.index == i
  }

  /** How many workers hold file `i`. */
  function HeldCount(workers: seq<Worker>, i: nat): nat {
    if workers == [] then 0
    else HeldCount(workers[..|workers| - 1], i) + if Holds(workers[|workers| - 1], i) then 1 else 0
  }

  /** How many files were claimed: the counter also counts the claims that found no file. */
  function Taken(j: Job, s: State): nat {
    if s.next < |j.files| then s.next else |j.files|
  }

  ghost predicate Hands(j: Job, s: State) {
    && (forall w :: 0 <= w < |s.workers| && (s.workers[w].Claimed? || s.workers[w].Linted?) ==>
          s.workers[w].index < |j.files|)
    && (forall w :: 0 <= w < |s.workers| && s.workers[w].Stopped? ==> s.next >= |j.files|)
  }

  /** Every claimed file is in one worker's hands or in the report, once; the report holds whole files. */
  ghost predicate Inv(j: Job, s: State) {
    && Indices(j, s.order)
    && (forall i: nat :: multiset(s.order)[i] + HeldCount(s.workers, i) == if i < Taken(j, s) then 1 else 0)
    && s.findings == Findings(j, s.order)
    && s.errors == ReadErrors(j, s.order)
    && Hands(j, s)
  }

  lemma {:induction false} HeldUpdate(workers: seq<Worker>, w: nat, to: Worker, i: nat)
    requires w < |workers|
    ensures HeldCount(workers[w := to], i) + (if Holds(workers[w], i) then 1 else 0) ==
            HeldCount(workers, i) + (if Holds(to, i) then 1 else 0)
  {
    var n := |workers| - 1;
    if w == n {
      assert workers[w := to][..n] == workers[..n];
    } else {
      HeldUpdate(workers[..n], w, to, i);
      assert workers[w := to][..n] == workers[..n][w := to];
    }
  }

  lemma {:induction false} HeldNone(workers: seq<Worker>, i: nat)
    requires forall w :: 0 <= w < |workers| ==> !Holds(workers[w], i)
    ensures HeldCount(workers, i) == 0
  {
    if workers != [] {
      HeldNone(workers[..|workers| - 1], i);
    }
  }

  lemma {:induction false} RangeMore(lo: nat, hi: nat)
    requires lo <= hi
    ensures Range(lo, hi + 1) == Range(lo, hi) + [hi]
  {
  }

  lemma {:induction false} CountsStep(j: Job, s: State, step: Step, i: nat)
    requires Inv(j, s) && Enabled(j, s, step)
    ensures
      var t := Apply(j, s, step);
      multiset(t.order)[i] + HeldCount(t.workers, i) == if i < Taken(j, t) then 1 else 0
  {
    var t, w := Apply(j, s, step), step.worker;
    HeldUpdate(s.workers, w, t.workers[w], i);
    assert multiset(s.order)[i] + HeldCount(s.workers, i) == if i < Taken(j, s) then 1 else 0;
    if step.Append? {
      assert multiset(t.order) == multiset(s.order) + multiset{s.workers[w].index};
    }
  }

  lemma {:induction false} ReportStep(j: Job, s: State, step: Step)
    requires Inv(j, s) && Enabled(j, s, step)
    ensures
      var t := Apply(j, s, step);
      Indices(j, t.order) && t.findings == Findings(j, t.order) && t.errors == ReadErrors(j, t.order)
  {
    if step.Append? {
      ReportMore(j, s.order, s.workers[step.worker].index);
    }
  }

  lemma {:induction false} InvStep(j: Job, s: State, step: Step)
    requires Inv(j, s) && Enabled(j, s, step)
    ensures Inv(j, Apply(j, s, step))
  {
    var t := Apply(j, s, step);
    forall i: nat ensures multiset(t.order)[i] + HeldCount(t.workers, i) == if i < Taken(j, t) then 1 else 0 {
      CountsStep(j, s, step, i);
    }
    ReportStep(j, s, step);
    HandsStep(j, s, step);
  }

  lemma {:induction false} HandsStep(j: Job, s: State, step: Step)
    requires Hands(j, s) && Enabled(j, s, step)
    ensures Hands(j, Apply(j, s, step))
  {
    var t := Apply(j, s, step);
    forall w | 0 <= w < |t.workers|
      ensures (t.workers[w].Claimed? || t.workers[w].Linted?) ==> t.workers[w].index < |j.files|
      ensures t.workers[w].Stopped? ==> t.next >= |j.files|
    {
      if w != step.worker {
        assert t.workers[w] == s.workers[w];
      }
    }
  }

  lemma {:induction false} InvRun(j: Job, s: State, steps: seq<Step>)
    requires Inv(j, s) && Run(j, s, steps)
    ensures Inv(j, After(j, s, steps))
    ensures |After(j, s, steps).workers| == |s.workers|
    decreases |steps|
  {
    if steps != [] {
      InvStep(j, s, steps[0]);
      InvRun(j, Apply(j, s, steps[0]), steps[1..]);
    }
  }

  lemma {:induction false} InvStart(j: Job, workers: nat)
    ensures Inv(j, Start(workers))
  {
    forall i: nat ensures HeldCount(Start(workers).workers, i) == 0 {
      HeldNone(Start(workers).workers, i);
    }
  }

  lemma {:induction false} RangeCounts(n: nat)
    ensures forall i: nat :: multiset(Range(0, n))[i] == if i < n then 1 else 0
  {
    if n > 0 {
      RangeCounts(n - 1);
      RangeMore(0, n - 1);
    }
  }

  /** Each file is claimed and reported exactly once, whatever the interleaving. */
  lemma {:induction false} FinishedOrder(j: Job, s: State)
    requires Inv(j, s) && Finished(s) && s.workers != []
    ensures multiset(s.order) == multiset(Range(0, |j.files|))
  {
    assert s.workers[0].Stopped?;
    RangeCounts(|j.files|);
    forall i: nat ensures multiset(s.order)[i] == multiset(Range(0, |j.files|))[i] {
      HeldNone(s.workers, i);
      assert multiset(s.order)[i] + HeldCount(s.workers, i) == if i < Taken(j, s) then 1 else 0;
    }
  }

  // ----- progress -----

  function WorkerWeight(w: Worker): nat {
    match w
    case Ready => 1
    case Claimed(_) => 3
    case Linted(_) => 2
    case Stopped => 0
  }

  ghost function WorkersWeight(workers: seq<Worker>): nat {
    if workers == [] then 0
    else WorkersWeight(workers[..|workers| - 1]) + WorkerWeight(workers[|workers| - 1])
  }

  lemma {:induction false} WorkersWeightUpdate(workers: seq<Worker>, w: nat, to: Worker)
    requires w < |workers|
    ensures WorkersWeight(workers[w := to]) == WorkersWeight(workers) + WorkerWeight(to) - WorkerWeight(workers[w])
  {
    var n := |workers| - 1;
    if w == n {
      assert workers[w := to][..n] == workers[..n];
    } else {
      WorkersWeightUpdate(workers[..n], w, to);
      assert workers[w := to][..n] == workers[..n][w := to];
    }
  }

  ghost function Work(j: Job, s: State): nat {
    4 * (|j.files| - Taken(j, s)) + WorkersWeight(s.workers)
  }

  lemma {:induction false} WorkDecreases(j: Job, s: State, step: Step)
    requires Enabled(j, s, step)
    ensures Work(j, Apply(j, s, step)) < Work(j, s)
  {
    WorkersWeightUpdate(s.workers, step.worker, Apply(j, s, step).workers[step.worker]);
  }

  /** Every run is finite, and one that cannot go on has every worker stopped. */
  lemma {:induction false} RunsFinish(j: Job, s: State, steps: seq<Step>)
    requires Inv(j, s) && Run(j, s, steps)
    ensures |steps| <= Work(j, s)
    ensures (forall step :: !Enabled(j, After(j, s, steps), step)) <==> Finished(After(j, s, steps))
    decreases |steps|
  {
    if steps != [] {
      InvStep(j, s, steps[0]);
      WorkDecreases(j, s, steps[0]);
      RunsFinish(j, Apply(j, s, steps[0]), steps[1..]);
    } else if forall step :: !Enabled(j, s, step) {
      forall w | 0 <= w < |s.workers| ensures s.workers[w].Stopped? {
        assert !Enabled(j, s, Claim(w)) && !Enabled(j, s, Read(w)) && !Enabled(j, s, Append(w));
      }
    }
  }

  // ----- every schedule gives the sequential findings -----

  lemma {:induction false} ClassOfTag(path: Path, findings: seq<Finding>, k: Entry)
    ensures k.path != path ==> Class(EntryLe, k, Tag(path, findings)) == []
  {
    if k.path != path {
      if findings != [] {
        var entries := Tag(path, findings);
        assert entries[1..] == Tag(path, findings[1..]);
        ClassOfTag(path, findings[1..], k);
        if EntryLe(k, entries[0]) && EntryLe(entries[0], k) {
          PathLeAntisymmetric(k.path, path);
        }
      }
    }
  }

  lemma {:induction false} ClassOfOther(j: Job, k: Entry, i: nat, last: nat)
    requires StrictlySorted(j.files) && i < |j.files| && last < |j.files| && i != last && j.files[i] == k.path
    ensures Class(EntryLe, k, EntriesOf(j, last)) == []
  {
    assert j.files[last] != j.files[i] by {
      assert last < i || i < last;
    }
    ClassOfTag(j.files[last], Lint(j.disk(j.files[last])), k);
  }

  /** The findings at one position all come from one file, so a class never mixes two appends. */
  lemma {:induction false} ClassOfFindings(j: Job, order: seq<nat>, k: Entry, i: nat)
    requires StrictlySorted(j.files) && Indices(j, order)
    requires forall x, y :: 0 <= x < y < |order| ==> order[x] != order[y]
    requires i < |j.files| && j.files[i] == k.path
    ensures Class(EntryLe, k, Findings(j, order)) ==
            if i in order then Class(EntryLe, k, EntriesOf(j, i)) else []
  {
    if order != [] {
      var front, last := order[..|order| - 1], order[|order| - 1];
      assert order == front + [last];
      ClassOfFindings(j, front, k, i);
      ClassOfConcat(EntryLe, k, Findings(j, front), EntriesOf(j, last));
      EmptyUnit(Class(EntryLe, k, EntriesOf(j, i)));
      if last == i {
        assert i !in front;
      } else {
        ClassOfOther(j, k, i, last);
        EmptyUnit(Class(EntryLe, k, Findings(j, front)));
      }
    }
  }

  lemma {:induction false} ClassOfNoFile(j: Job, order: seq<nat>, k: Entry)
    requires Indices(j, order) && k.path !in j.files
    ensures Class(EntryLe, k, Findings(j, order)) == []
  {
    if order != [] {
      var front, last := order[..|order| - 1], order[|order| - 1];
      ClassOfNoFile(j, front, k);
      ClassOfConcat(EntryLe, k, Findings(j, front), EntriesOf(j, last));
      ClassOfTag(j.files[last], Lint(j.disk(j.files[last])), k);
    }
  }

  lemma {:induction false} TagSorted(path: Path, source: Source)
    ensures SortedBy(EntryLe, Tag(path, Lint(source)))
  {
    FindingLeIsPreorder();
    if source.Readable? {
      StableSortSorts(FindingLe, source.raw);
    }
  }

  lemma {:induction false} FindingsPaths(j: Job, hi: nat)
    requires hi <= |j.files|
    ensures Indices(j, Range(0, hi))
    ensures forall e :: e in Findings(j, Range(0, hi)) ==> exists i :: 0 <= i < hi && j.files[i] == e.path
  {
    if hi > 0 {
      FindingsPaths(j, hi - 1);
      RangeMore(0, hi - 1);
      assert Range(0, hi)[..hi - 1] == Range(0, hi - 1);
    }
  }

  lemma {:induction false} SequentialSorted(j: Job, hi: nat)
    requires StrictlySorted(j.files) && hi <= |j.files|
    ensures Indices(j, Range(0, hi))
    ensures SortedBy(EntryLe, Findings(j, Range(0, hi)))
  {
    if hi > 0 {
      var n := hi - 1;
      SequentialSorted(j, n);
      RangeMore(0, n);
      assert Range(0, hi)[..n] == Range(0, n);
      FindingsPaths(j, n);
      var before, now := Findings(j, Range(0, n)), EntriesOf(j, n);
      TagSorted(j.files[n], j.disk(j.files[n]));
      forall a, b | a in before && b in now ensures EntryLe(a, b) {
        var i :| 0 <= i < n && j.files[i] == a.path;
      }
    }
  }

  lemma {:induction false} PermutationIsDistinct(order: seq<nat>, n: nat)
    requires multiset(order) == multiset(Range(0, n))
    ensures forall x, y :: 0 <= x < y < |order| ==> order[x] != order[y]
    ensures forall i: nat :: i in order <==> i < n
  {
    RangeCounts(n);
    forall x, y | 0 <= x < y < |order| ensures order[x] != order[y] {
      if order[x] == order[y] {
        CountTwice(order, x, y);
      }
    }
    forall i: nat ensures i in order <==> i < n {
      assert i in order <==> multiset(order)[i] > 0;
    }
  }

  lemma {:induction false} CountTwice(s: seq<nat>, x: nat, y: nat)
    requires x < y < |s| && s[x] == s[y]
    ensures multiset(s)[s[x]] >= 2
  {
    assert s == s[..y] + s[y..];
    assert s[x] == s[..y][x] && s[x] == s[y..][0];
    assert s[x] in s[..y] && s[x] in s[y..];
  }

  /** Any order that covers every file once sorts to the same findings, ties included. */
  lemma {:induction false} OrderIsImmaterial(j: Job, order: seq<nat>)
    requires StrictlySorted(j.files)
    requires multiset(order) == multiset(Range(0, |j.files|))
    ensures Indices(j, order) && Indices(j, Range(0, |j.files|))
    ensures StableSort(EntryLe, Findings(j, order)) == Findings(j, Range(0, |j.files|))
  {
    var n := |j.files|;
    PermutationIsDistinct(order, n);
    EntryLeIsPreorder();
    SequentialSorted(j, n);
    assert forall k :: 0 <= k < |order| ==> order[k] in order;
    var found, expected := Findings(j, order), Findings(j, Range(0, n));
    StableSortSorts(EntryLe, found);
    forall k ensures Class(EntryLe, k, StableSort(EntryLe, found)) == Class(EntryLe, k, expected) {
      StableSortKeeps(EntryLe, found, k);
      if k.path in j.files {
        var i :| 0 <= i < n && j.files[i] == k.path;
        assert Range(0, n)[i] == i;
        ClassOfFindings(j, order, k, i);
        ClassOfFindings(j, Range(0, n), k, i);
      } else {
        ClassOfNoFile(j, order, k);
        ClassOfNoFile(j, Range(0, n), k);
      }
    }
    SortedUnique(EntryLe, StableSort(EntryLe, found), expected);
  }

  lemma {:induction false} ReadErrorCount(j: Job, order: seq<nat>, e: (Path, Text))
    requires StrictlySorted(j.files) && Indices(j, order)
    requires forall x, y :: 0 <= x < y < |order| ==> order[x] != order[y]
    ensures multiset(ReadErrors(j, order))[e] == if exists i :: i in order && ErrorOf(j, i) == [e] then 1 else 0
  {
    if order != [] {
      var front, last := order[..|order| - 1], order[|order| - 1];
      assert order == front + [last];
      ReadErrorCount(j, front, e);
      ReportMore(j, front, last);
      assert multiset(ErrorOf(j, last))[e] == if ErrorOf(j, last) == [e] then 1 else 0;
      if ErrorOf(j, last) == [e] {
        forall i | i in front ensures ErrorOf(j, i) != [e] {
          OtherError(j, i, last, e);
        }
        assert last in order;
      } else {
        assert forall i :: i in order && ErrorOf(j, i) == [e] <==> i in front && ErrorOf(j, i) == [e];
      }
    }
  }

  lemma {:induction false} OtherError(j: Job, i: nat, last: nat, e: (Path, Text))
    requires StrictlySorted(j.files) && i < |j.files| && last < |j.files| && i != last && ErrorOf(j, last) == [e]
    ensures ErrorOf(j, i) != [e]
  {
    assert j.files[i] != j.files[last] by {
      assert i < last || last < i;
    }
    assert ErrorOf(j, last)[0].0 == j.files[last];
  }

  lemma {:induction false} ReadErrorsBag(j: Job, a: seq<nat>, b: seq<nat>)
    requires StrictlySorted(j.files)
    requires multiset(a) == multiset(b) == multiset(Range(0, |j.files|))
    ensures Indices(j, a) && Indices(j, b) && multiset(ReadErrors(j, a)) == multiset(ReadErrors(j, b))
  {
    PermutationIsDistinct(a, |j.files|);
    PermutationIsDistinct(b, |j.files|);
    assert forall k :: 0 <= k < |a| ==> a[k] in a;
    assert forall k :: 0 <= k < |b| ==> b[k] in b;
    forall e ensures multiset(ReadErrors(j, a))[e] == multiset(ReadErrors(j, b))[e] {
      ReadErrorCount(j, a, e);
      ReadErrorCount(j, b, e);
      forall i ensures i in a <==> i in b {
        MemberOfPermutation(a, b, i);
      }
    }
  }

  /** Safety over every schedule of any number of workers: a finished run's sorted findings are the sequential
      program's, and its read errors are the sequential program's as a multiset. */
  lemma {:induction false} EveryScheduleAgrees(j: Job, workers: nat, steps: seq<Step>)
    requires StrictlySorted(j.files) && workers >= 1
    requires Run(j, Start(workers), steps) && Finished(After(j, Start(workers), steps))
    ensures Indices(j, Range(0, |j.files|))
    ensures StableSort(EntryLe, After(j, Start(workers), steps).findings) == Findings(j, Range(0, |j.files|))
    ensures multiset(After(j, Start(workers), steps).errors) == multiset(ReadErrors(j, Range(0, |j.files|)))
  {
    var s := After(j, Start(workers), steps);
    InvStart(j, workers);
    InvRun(j, Start(workers), steps);
    FinishedOrder(j, s);
    OrderIsImmaterial(j, s.order);
    ReadErrorsBag(j, s.order, Range(0, |j.files|));
  }

  // ----- what a finished run reports -----

  lemma {:induction false} TagCount(path: Path, findings: seq<Finding>, e: Entry)
    ensures multiset(Tag(path, findings))[e] == if e.path == path then multiset(findings)[e.finding] else 0
  {
    if findings != [] {
      var front, last := findings[..|findings| - 1], findings[|findings| - 1];
      assert findings == front + [last];
      assert Tag(path, findings) == Tag(path, front) + [Entry(path, last)];
      TagCount(path, front, e);
    }
  }

  /** How often the files of an order report one finding: as often as reading its file does. */
  lemma {:induction false} FindingsCount(j: Job, order: seq<nat>, e: Entry)
    requires StrictlySorted(j.files) && Indices(j, order)
    requires forall x, y :: 0 <= x < y < |order| ==> order[x] != order[y]
    ensures multiset(Findings(j, order))[e] ==
            if exists i :: i in order && j.files[i] == e.path then multiset(Lint(j.disk(e.path)))[e.finding] else 0
  {
    if order != [] {
      var front, last := order[..|order| - 1], order[|order| - 1];
      assert order == front + [last];
      FindingsCount(j, front, e);
      TagCount(j.files[last], Lint(j.disk(j.files[last])), e);
      if j.files[last] == e.path {
        forall i | i in front ensures j.files[i] != e.path {
          SameFile(j, i, last);
        }
        assert last in order;
      } else {
        assert forall i :: i in order && j.files[i] == e.path <==> i in front && j.files[i] == e.path;
      }
    }
  }

  lemma {:induction false} SameFile(j: Job, a: nat, b: nat)
    requires StrictlySorted(j.files) && a < |j.files| && b < |j.files| && a != b
    ensures j.files[a] != j.files[b]
  {
    assert a < b || b < a;
  }

  /** In a report one entry comes before another: the smaller path first; of one path the smaller line, within a line
      the smaller column, and within a column the smaller rule. */
  predicate Ahead(a: Entry, b: Entry) {
    && (a.path != b.path ==> PathLe(a.path, b.path))
    && (a.path == b.path ==> a.finding.line <= b.finding.line)
    && (a.path == b.path && a.finding.line == b.finding.line ==> a.finding.column <= b.finding.column)
    && (a.path == b.path && a.finding.line == b.finding.line && a.finding.column == b.finding.column ==>
          Le(a.finding.rule, b.finding.rule))
  }

  /** The findings that reading a file gives. */
  function RawOf(j: Job, path: Path): seq<Finding> {
    match j.disk(path)
    case Readable(raw) => raw
    case Unreadable(_) => []
  }

  /** Every schedule of any number of workers reports each finding of each readable file as often as the linter found
      it, and nothing else. */
  lemma {:induction false} ReportHolds(j: Job, workers: nat, steps: seq<Step>, e: Entry)
    requires StrictlySorted(j.files) && workers >= 1
    requires Run(j, Start(workers), steps) && Finished(After(j, Start(workers), steps))
    ensures multiset(StableSort(EntryLe, After(j, Start(workers), steps).findings))[e] ==
            if e.path in j.files then multiset(RawOf(j, e.path))[e.finding] else 0
  {
    EveryScheduleAgrees(j, workers, steps);
    FindingsCount(j, Range(0, |j.files|), e);
    AllInRange(j, e.path);
  }

  lemma {:induction false} AllInRange(j: Job, path: Path)
    ensures (exists i :: i in Range(0, |j.files|) && j.files[i] == path) <==> path in j.files
  {
    var n := |j.files|;
    assert forall i :: 0 <= i < n ==> Range(0, n)[i] in Range(0, n);
    if path in j.files {
      var i :| 0 <= i < n && j.files[i] == path;
      assert Range(0, n)[i] == i;
    }
  }

  /** It is ordered by path, line, column and rule. */
  lemma {:induction false} ReportIsOrdered(found: seq<Entry>, a: nat, b: nat)
    requires a < b < |found|
    ensures Ahead(StableSort(EntryLe, found)[a], StableSort(EntryLe, found)[b])
  {
    EntryLeIsPreorder();
    StableSortSorts(EntryLe, found);
  }

  /** Each unreadable file is reported once, with its error, and no other. */
  lemma {:induction false} ErrorsHold(j: Job, workers: nat, steps: seq<Step>, path: Path, error: Text)
    requires StrictlySorted(j.files) && workers >= 1
    requires Run(j, Start(workers), steps) && Finished(After(j, Start(workers), steps))
    ensures multiset(After(j, Start(workers), steps).errors)[(path, error)] ==
            if path in j.files && j.disk(path) == Unreadable(error) then 1 else 0
  {
    EveryScheduleAgrees(j, workers, steps);
    ReadErrorCount(j, Range(0, |j.files|), (path, error));
    AllInRange(j, path);
    forall i | i in Range(0, |j.files|)
      ensures ErrorOf(j, i) == [(path, error)] <==> j.files[i] == path && j.disk(path) == Unreadable(error)
    {
      var own := ErrorOf(j, i);
      if own == [(path, error)] {
        assert own[0] == (path, error);
      }
    }
  }

  // ----- the order of the read errors -----

  lemma {:induction false} OneErrorIsOrdered(j: Job, workers: nat, steps: seq<Step>)
    requires StrictlySorted(j.files) && workers >= 1
    requires Run(j, Start(workers), steps) && Finished(After(j, Start(workers), steps))
    requires Indices(j, Range(0, |j.files|)) && |ReadErrors(j, Range(0, |j.files|))| <= 1
    ensures After(j, Start(workers), steps).errors == ReadErrors(j, Range(0, |j.files|))
  {
    EveryScheduleAgrees(j, workers, steps);
    var a, b := After(j, Start(workers), steps).errors, ReadErrors(j, Range(0, |j.files|));
    ShortBag(a, b);
  }

  lemma {:induction false} ShortBag<T>(a: seq<T>, b: seq<T>)
    requires multiset(a) == multiset(b) && |b| <= 1
    ensures a == b
  {
    assert |a| == |multiset(a)| && |b| == |multiset(b)|;
    if |b| == 1 {
      MemberOfPermutation(a, b, a[0]);
    }
  }

  /** A single worker's report is the sequential prefix. */
  ghost predicate Alone(j: Job, s: State) {
    && |s.workers| == 1
    && s.order == Range(0, |s.order|)
    && match s.workers[0]
       case Ready => s.next == |s.order| <= |j.files|
       case Claimed(i) => i == |s.order| && s.next == i + 1
       case Linted(i) => i == |s.order| && s.next == i + 1
       case Stopped => |s.order| == |j.files|
  }

  lemma {:induction false} AloneRun(j: Job, s: State, steps: seq<Step>)
    requires Alone(j, s) && Run(j, s, steps)
    ensures Alone(j, After(j, s, steps))
    decreases |steps|
  {
    if steps != [] {
      var t := Apply(j, s, steps[0]);
      if steps[0].Append? {
        RangeMore(0, |s.order|);
      }
      AloneRun(j, t, steps[1..]);
    }
  }

  lemma {:induction false} OneWorkerIsOrdered(j: Job, steps: seq<Step>)
    requires Run(j, Start(1), steps) && Finished(After(j, Start(1), steps))
    ensures Indices(j, Range(0, |j.files|))
    ensures After(j, Start(1), steps).errors == ReadErrors(j, Range(0, |j.files|))
  {
    InvStart(j, 1);
    InvRun(j, Start(1), steps);
    AloneRun(j, Start(1), steps);
  }

  lemma {:induction false} RunCons(j: Job, s: State, step: Step, rest: seq<Step>)
    requires Enabled(j, s, step) && Run(j, Apply(j, s, step), rest)
    ensures Run(j, s, [step] + rest) && After(j, s, [step] + rest) == After(j, Apply(j, s, step), rest)
  {
    assert ([step] + rest)[1..] == rest;
  }

  lemma {:induction false} RunConcat(j: Job, s: State, a: seq<Step>, b: seq<Step>)
    requires Run(j, s, a) && Run(j, After(j, s, a), b)
    ensures Run(j, s, a + b) && After(j, s, a + b) == After(j, After(j, s, a), b)
    decreases |a|
  {
    if a == [] {
      EmptyUnit(b);
    } else {
      var t, rest := Apply(j, s, a[0]), a[1..];
      RunConcat(j, t, rest, b);
      RunCons(j, s, a[0], rest + b);
      HeadConcat(a, b);
    }
  }

  lemma {:induction false} HeadConcat<T>(a: seq<T>, b: seq<T>)
    requires a != []
    ensures a + b == [a[0]] + (a[1..] + b)
  {
  }

  /** Worker `w` takes the next file from claim to report. */
  lemma {:induction false} OneFile(j: Job, s: State, w: nat) returns (steps: seq<Step>)
    requires w < |s.workers| && s.workers[w].Ready? && s.next < |j.files|
    ensures Run(j, s, steps)
    ensures After(j, s, steps).next == s.next + 1 && After(j, s, steps).workers == s.workers
    ensures After(j, s, steps).order == s.order + [s.next]
  {
    var t := Apply(j, s, Claim(w));
    var u := Apply(j, t, Read(w));
    var v := Apply(j, u, Append(w));
    assert v.workers == s.workers;
    RunCons(j, u, Append(w), []);
    RunCons(j, t, Read(w), [Append(w)] + []);
    RunCons(j, s, Claim(w), [Read(w)] + ([Append(w)] + []));
    steps := [Claim(w)] + ([Read(w)] + ([Append(w)] + []));
  }

  /** Worker `w` handles the files up to `hi` while the others wait. */
  lemma {:induction false} Solo(j: Job, s: State, w: nat, hi: nat) returns (steps: seq<Step>)
    requires w < |s.workers| && s.workers[w].Ready? && s.next <= hi <= |j.files|
    ensures Run(j, s, steps)
    ensures After(j, s, steps).next == hi && After(j, s, steps).workers == s.workers
    ensures After(j, s, steps).order == s.order + Range(s.next, hi)
    decreases hi - s.next
  {
    if s.next == hi {
      steps := [];
    } else {
      var three := OneFile(j, s, w);
      var t := After(j, s, three);
      var rest := Solo(j, t, w, hi);
      RunConcat(j, s, three, rest);
      steps := three + rest;
      RangeHead(s.next, hi);
      Associate(s.order, [s.next], Range(s.next + 1, hi));
    }
  }

  lemma {:induction false} RangeHead(lo: nat, hi: nat)
    requires lo < hi
    ensures Range(lo, hi) == [lo] + Range(lo + 1, hi)
  {
  }

  /** With the files used up, every waiting worker finds none and stops. */
  lemma {:induction false} StopAll(j: Job, s: State, from: nat) returns (steps: seq<Step>)
    requires s.next >= |j.files| && from <= |s.workers|
    requires forall w :: 0 <= w < from ==> s.workers[w].Stopped?
    requires forall w :: from <= w < |s.workers| ==> s.workers[w].Ready?
    ensures Run(j, s, steps) && Finished(After(j, s, steps)) && After(j, s, steps).order == s.order
    decreases |s.workers| - from
  {
    if from == |s.workers| {
      steps := [];
    } else {
      var t := Apply(j, s, Claim(from));
      var rest := StopAll(j, t, from + 1);
      RunCons(j, s, Claim(from), rest);
      steps := [Claim(from)] + rest;
    }
  }

  /** Worker 1 handles the remaining files while worker 0 holds the claimed file `i`, which it then reports. */
  lemma {:induction false} Overtake(j: Job, s: State) returns (steps: seq<Step>)
    requires |s.workers| >= 2 && s.workers[0].Ready? && s.workers[1].Ready? && s.next < |j.files|
    ensures Run(j, s, steps)
    ensures After(j, s, steps).workers == s.workers && After(j, s, steps).next == |j.files|
    ensures After(j, s, steps).order == s.order + Range(s.next + 1, |j.files|) + [s.next]
  {
    var t := Apply(j, s, Claim(0));
    var middle := Solo(j, t, 1, |j.files|);
    var u := After(j, t, middle);
    var v := Apply(j, u, Read(0));
    assert Apply(j, v, Append(0)).workers == s.workers;
    RunCons(j, v, Append(0), []);
    RunCons(j, u, Read(0), [Append(0)] + []);
    var late := [Read(0)] + ([Append(0)] + []);
    RunConcat(j, t, middle, late);
    RunCons(j, s, Claim(0), middle + late);
    steps := [Claim(0)] + (middle + late);
  }

  /** A schedule in which the file `i` is reported last although it was claimed in turn. */
  lemma {:induction false} LateFile(j: Job, workers: nat, i: nat) returns (steps: seq<Step>)
    requires workers >= 2 && i < |j.files|
    ensures Run(j, Start(workers), steps) && Finished(After(j, Start(workers), steps))
    ensures After(j, Start(workers), steps).order == Range(0, i) + Range(i + 1, |j.files|) + [i]
  {
    var s := Start(workers);
    var first := Solo(j, s, 0, i);
    EmptyUnit(Range(0, i));
    var t := After(j, s, first);
    var middle := Overtake(j, t);
    var u := After(j, t, middle);
    var last := StopAll(j, u, 0);
    RunConcat(j, t, middle, last);
    RunConcat(j, s, first, middle + last);
    steps := first + (middle + last);
  }

  lemma {:induction false} ReadErrorsConcat(j: Job, a: seq<nat>, b: seq<nat>)
    requires Indices(j, a) && Indices(j, b)
    ensures Indices(j, a + b) && ReadErrors(j, a + b) == ReadErrors(j, a) + ReadErrors(j, b)
  {
    if b == [] {
      EmptyUnit(a);
      EmptyUnit(ReadErrors(j, a));
    } else {
      var front, last := b[..|b| - 1], b[|b| - 1];
      ReadErrorsConcat(j, a, front);
      assert b == front + [last] && a + b == (a + front) + [last];
      ReportMore(j, front, last);
      ReportMore(j, a + front, last);
      Associate(ReadErrors(j, a), ReadErrors(j, front), ErrorOf(j, last));
    }
  }

  lemma {:induction false} ReadErrorsPaths(j: Job, order: seq<nat>)
    requires Indices(j, order)
    ensures forall e :: e in ReadErrors(j, order) ==> exists i :: i in order && e.0 == j.files[i]
    ensures forall i :: i in order && j.disk(j.files[i]).Unreadable? ==> ReadErrors(j, order) != []
  {
    if order != [] {
      var front, last := order[..|order| - 1], order[|order| - 1];
      assert order == front + [last];
      ReadErrorsPaths(j, front);
    }
  }

  lemma {:induction false} OthersErrorsDiffer(j: Job, i: nat, after: seq<nat>, error: (Path, Text))
    requires StrictlySorted(j.files) && Indices(j, after) && i < |j.files|
    requires i !in after && ReadErrors(j, after) != [] && error.0 == j.files[i]
    ensures ReadErrors(j, after)[0] != error
  {
    ReadErrorsPaths(j, after);
    var first := ReadErrors(j, after)[0];
    var m :| m in after && first.0 == j.files[m];
    assert j.files[m] != j.files[i] by {
      assert m < i || i < m;
    }
  }

  /** After the errors of `before`, an unreadable `i` comes next in one order and some later file in the other. */
  lemma {:induction false} LateErrorDiffers(j: Job, before: seq<nat>, i: nat, after: seq<nat>)
    requires StrictlySorted(j.files) && Indices(j, before) && Indices(j, after) && i < |j.files|
    requires j.disk(j.files[i]).Unreadable? && i !in after && ReadErrors(j, after) != []
    ensures Indices(j, before + after + [i]) && Indices(j, before + ([i] + after))
    ensures ReadErrors(j, before + after + [i]) != ReadErrors(j, before + ([i] + after))
  {
    var error := (j.files[i], j.disk(j.files[i]).error);
    OthersErrorsDiffer(j, i, after, error);
    ReadErrorsConcat(j, before, after);
    ReportMore(j, before + after, i);
    assert ReadErrors(j, [i]) == [error] by {
      assert [i][..0] == [];
    }
    ReadErrorsConcat(j, [i], after);
    ReadErrorsConcat(j, before, [i] + after);
    DifferAfter(ReadErrors(j, before), ReadErrors(j, after), error);
  }

  lemma {:induction false} DifferAfter<T>(x: seq<T>, a: seq<T>, e: T)
    requires a != [] && a[0] != e
    ensures (x + a) + [e] != x + ([e] + a)
  {
    assert ((x + a) + [e])[|x|] == a[0];
    assert (x + ([e] + a))[|x|] == e;
  }

  ghost predicate TwoUnreadable(j: Job) {
    exists i, k :: 0 <= i < k < |j.files| && j.disk(j.files[i]).Unreadable? && j.disk(j.files[k]).Unreadable?
  }

  predicate IsUnreadable(j: Job, i: nat) {
    i < |j.files| && j.disk(j.files[i]).Unreadable?
  }

  lemma {:induction false} ErrorOfOne(j: Job, i: nat)
    requires i < |j.files|
    ensures |ErrorOf(j, i)| == if IsUnreadable(j, i) then 1 else 0
  {
  }

  lemma {:induction false} ReadErrorsUpTo(j: Job, hi: nat)
    requires 0 < hi <= |j.files|
    ensures Indices(j, Range(0, hi)) && Indices(j, Range(0, hi - 1))
    ensures ReadErrors(j, Range(0, hi)) == ReadErrors(j, Range(0, hi - 1)) + ErrorOf(j, hi - 1)
  {
    RangeMore(0, hi - 1);
    ReportMore(j, Range(0, hi - 1), hi - 1);
  }

  lemma {:induction false} SomeUnreadable(j: Job, hi: nat)
    requires hi <= |j.files| && Indices(j, Range(0, hi)) && ReadErrors(j, Range(0, hi)) != []
    ensures exists i :: 0 <= i < hi && IsUnreadable(j, i)
  {
    if hi > 0 {
      ReadErrorsUpTo(j, hi);
      ErrorOfOne(j, hi - 1);
      if !IsUnreadable(j, hi - 1) {
        SomeUnreadable(j, hi - 1);
      }
    }
  }

  lemma {:induction false} ReadErrorsCount(j: Job, hi: nat)
    requires hi <= |j.files|
    ensures Indices(j, Range(0, hi))
    ensures |ReadErrors(j, Range(0, hi))| > 1 ==> TwoUnreadable(j)
  {
    if hi > 0 {
      ReadErrorsUpTo(j, hi);
      ErrorOfOne(j, hi - 1);
      ReadErrorsCount(j, hi - 1);
      if IsUnreadable(j, hi - 1) && ReadErrors(j, Range(0, hi - 1)) != [] {
        SomeUnreadable(j, hi - 1);
        var i :| 0 <= i < hi - 1 && IsUnreadable(j, i);
        assert j.disk(j.files[i]).Unreadable? && j.disk(j.files[hi - 1]).Unreadable?;
      }
    }
  }

  lemma {:induction false} Overtaken(j: Job, workers: nat, i: nat, k: nat) returns (steps: seq<Step>)
    requires StrictlySorted(j.files) && workers >= 2
    requires i < k < |j.files| && j.disk(j.files[i]).Unreadable? && j.disk(j.files[k]).Unreadable?
    ensures Run(j, Start(workers), steps) && Finished(After(j, Start(workers), steps))
    ensures Indices(j, Range(0, |j.files|))
    ensures After(j, Start(workers), steps).errors != ReadErrors(j, Range(0, |j.files|))
  {
    steps := LateFile(j, workers, i);
    InvStart(j, workers);
    InvRun(j, Start(workers), steps);
    var before, after := Range(0, i), Range(i + 1, |j.files|);
    assert ReadErrors(j, after) != [] by {
      assert after[k - i - 1] == k;
      ReadErrorsPaths(j, after);
    }
    LateErrorDiffers(j, before, i, after);
    RangeAround(i, |j.files|);
  }

  lemma {:induction false} RangeAround(i: nat, n: nat)
    requires i < n
    ensures Range(0, i) + ([i] + Range(i + 1, n)) == Range(0, n)
  {
  }

  /** Under every schedule the read errors come out in file order. */
  ghost predicate AlwaysOrdered(j: Job, workers: nat)
    requires Indices(j, Range(0, |j.files|))
  {
    forall steps :: Run(j, Start(workers), steps) && Finished(After(j, Start(workers), steps)) ==>
      After(j, Start(workers), steps).errors == ReadErrors(j, Range(0, |j.files|))
  }

  /** That holds exactly when there is one worker or at most one unreadable file: the report sorts its findings,
      never its read errors. */
  lemma {:induction false} ReadErrorOrderIff(j: Job, workers: nat)
    requires StrictlySorted(j.files) && workers >= 1
    ensures Indices(j, Range(0, |j.files|))
    ensures AlwaysOrdered(j, workers) <==> workers == 1 || !TwoUnreadable(j)
  {
    ReadErrorsCount(j, |j.files|);
    if workers == 1 || !TwoUnreadable(j) {
      forall steps | Run(j, Start(workers), steps) && Finished(After(j, Start(workers), steps))
        ensures After(j, Start(workers), steps).errors == ReadErrors(j, Range(0, |j.files|))
      {
        if workers == 1 {
          OneWorkerIsOrdered(j, steps);
        } else {
          OneErrorIsOrdered(j, workers, steps);
        }
      }
    } else {
      var i, k :| 0 <= i < k < |j.files| && j.disk(j.files[i]).Unreadable? && j.disk(j.files[k]).Unreadable?;
      var steps := Overtaken(j, workers, i, k);
    }
  }
}
