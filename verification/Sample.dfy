/** `sample files`: keep a file when the hash of its name lies below a probability that grows with its size, and stamp
    the probability on the record. Floating point is modelled as real arithmetic. */
module Sample {
  import opened Text
  import opened Files
  import opened Hashing

  const REFERENCE_BYTES: real := 268435456.0

  datatype Error = Rate(rate: real) | Sampled(rate: real) | Underflow(rate: real) | UnknownSize(name: Text)

  datatype Outcome = Kept(file: TableFile) | Dropped | Failed(error: Error)

  predicate Valid(rate: real) {
    0.0 < rate <= 1.0
  }

  function Min(a: real, b: real): real {
    if a <= b then a else b
  }

  /** The probability at which a file is kept; a rate of one keeps everything. */
  function Probability(sizeBytes: nat, rate: real): real {
    if rate >= 1.0 then 1.0 else Min(rate * sizeBytes as real / REFERENCE_BYTES, 1.0)
  }

  /** `select`, with the record the stage writes. */
  function Select(file: TableFile, rate: real): Outcome {
    if !Valid(rate) then Failed(Rate(rate))
    else if file.sizeBytes.None? || file.sizeBytes.value == 0 then Failed(UnknownSize(file.name))
    else
      var drawn := Probability(file.sizeBytes.value, rate);
      if drawn <= 0.0 then Failed(Underflow(rate))
      else if file.sampleRate.Some? && !Valid(file.sampleRate.value) then Failed(Sampled(file.sampleRate.value))
      else
        var inclusion := if file.sampleRate.Some? then Min(file.sampleRate.value, drawn) else drawn;
        if Unit(file.name) < inclusion then Kept(file.(sampleRate := Some(inclusion))) else Dropped
  }

  // ----- one record through two stages -----

  lemma {:induction false} QuotientGrows(a: real, b: real, size: real)
    requires a <= b && size > 0.0
    ensures a * size / REFERENCE_BYTES <= b * size / REFERENCE_BYTES
  {
    assert a * size <= b * size;
  }

  lemma {:induction false} QuotientPositive(a: real, size: real)
    requires a > 0.0 && size > 0.0
    ensures a * size / REFERENCE_BYTES > 0.0
  {
    assert a * size > 0.0;
  }

  lemma {:induction false} ProbabilityIsValid(size: nat, rate: real)
    requires size > 0 && Valid(rate)
    ensures Valid(Probability(size, rate))
  {
    QuotientPositive(rate, size as real);
  }

  /** The jump to one at rate one keeps the probability monotone. */
  lemma {:induction false} ProbabilityGrows(size: nat, a: real, b: real)
    requires size > 0 && a <= b
    ensures Probability(size, a) <= Probability(size, b)
  {
    QuotientGrows(a, b, size as real);
  }

  /** The rate is the probability at the reference size, and below the cap the probability is proportional to size. */
  lemma {:induction false} ProbabilityIsProportional(size: nat, rate: real)
    requires Valid(rate)
    ensures Probability(268435456, rate) == rate
    ensures rate < 1.0 ==>
      Probability(size, rate) * REFERENCE_BYTES == Min(rate * size as real, REFERENCE_BYTES)
  {
    var x := rate * size as real;
    assert x / REFERENCE_BYTES * REFERENCE_BYTES == x;
    assert x / REFERENCE_BYTES <= 1.0 <==> x <= REFERENCE_BYTES;
    assert rate * 268435456.0 / REFERENCE_BYTES == rate;
  }

  lemma {:induction false} ProbabilityOfMin(size: nat, a: real, b: real)
    requires size > 0
    ensures Probability(size, Min(a, b)) == Min(Probability(size, a), Probability(size, b))
  {
    if a <= b {
      ProbabilityGrows(size, a, b);
    } else {
      ProbabilityGrows(size, b, a);
    }
  }

  /** The records a stage refuses, and how, do not depend on its rate. */
  predicate Refused(file: TableFile) {
    file.sizeBytes.None? || file.sizeBytes.value == 0 || (file.sampleRate.Some? && !Valid(file.sampleRate.value))
  }

  function Refusal(file: TableFile): Error {
    if file.sizeBytes.None? || file.sizeBytes.value == 0 then UnknownSize(file.name)
    else if file.sampleRate.Some? then Sampled(file.sampleRate.value)
    else UnknownSize(file.name)
  }

  /** The probability a record is kept with: the least of its own and the stage's. */
  function Inclusion(file: TableFile, rate: real): real
    requires !Refused(file)
  {
    var drawn := Probability(file.sizeBytes.value, rate);
    if file.sampleRate.Some? then Min(file.sampleRate.value, drawn) else drawn
  }

  lemma {:induction false} SelectIs(file: TableFile, rate: real)
    requires Valid(rate)
    ensures Refused(file) ==> Select(file, rate) == Failed(Refusal(file))
    ensures !Refused(file) ==>
      Select(file, rate) ==
        if Unit(file.name) < Inclusion(file, rate)
        then Kept(file.(sampleRate := Some(Inclusion(file, rate)))) else Dropped
    ensures !Refused(file) ==> Valid(Inclusion(file, rate))
  {
    if file.sizeBytes.Some? && file.sizeBytes.value > 0 {
      ProbabilityIsValid(file.sizeBytes.value, rate);
    }
  }

  /** The top 53 bits of the name's hash. */
  function TopBits(name: Text): real {
    ((Hash(name) >> 11) as bv53) as int as real
  }

  lemma {:induction false} Thresholds(t: real, x: real)
    ensures t / 9007199254740992.0 < x / 268435456.0 <==> t * 268435456.0 < x * 9007199254740992.0
    ensures 0.0 <= t < 9007199254740992.0 && x / 268435456.0 >= 1.0 ==> t * 268435456.0 < x * 9007199254740992.0
  {
  }

  lemma {:induction false} DrawnIff(unit: real, t: real, size: nat, rate: real)
    requires 0.0 < rate <= 1.0 && 0.0 <= unit < 1.0 && unit * 9007199254740992.0 == t
    ensures unit < Probability(size, rate) <==>
            rate == 1.0 || t * 268435456.0 < rate * size as real * 9007199254740992.0
  {
    Thresholds(t, rate * size as real);
  }

  /** A record is kept exactly when the top bits of its name's hash lie below two thresholds: the rate, grown or shrunk
      with its size from 256 MiB, which at rate one is no threshold, and its own earlier rate. */
  lemma {:induction false} KeptIff(file: TableFile, rate: real)
    requires 0.0 < rate <= 1.0 && !Refused(file)
    ensures Select(file, rate).Kept? <==>
      && (rate == 1.0 || TopBits(file.name) * 268435456.0 < rate * file.sizeBytes.value as real * 9007199254740992.0)
      && (file.sampleRate.Some? ==> TopBits(file.name) < file.sampleRate.value * 9007199254740992.0)
    ensures !Select(file, rate).Failed?
  {
    UnitIsTopBits(file.name);
    KeptBelow(file, rate, Unit(file.name), TopBits(file.name));
  }

  lemma {:induction false} BelowBoth(unit: real, t: real, a: real, b: real)
    requires unit * 9007199254740992.0 == t
    ensures unit < Min(a, b) <==> t < a * 9007199254740992.0 && unit < b
  {
  }

  lemma {:induction false} KeptBelow(file: TableFile, rate: real, unit: real, t: real)
    requires 0.0 < rate <= 1.0 && !Refused(file)
    requires unit == Unit(file.name) && 0.0 <= unit < 1.0 && unit * 9007199254740992.0 == t
    ensures Select(file, rate).Kept? <==>
      && (rate == 1.0 || t * 268435456.0 < rate * file.sizeBytes.value as real * 9007199254740992.0)
      && (file.sampleRate.Some? ==> t < file.sampleRate.value * 9007199254740992.0)
    ensures !Select(file, rate).Failed?
  {
    SelectIs(file, rate);
    DrawnIff(unit, t, file.sizeBytes.value, rate);
    if file.sampleRate.Some? {
      BelowBoth(unit, t, file.sampleRate.value, Probability(file.sizeBytes.value, rate));
    }
  }

  /** The rate stamped on a kept record, and nothing else of it, is new: the least of one, its own earlier rate and the
      stage's rate for its size. */
  lemma {:induction false} StampIs(file: TableFile, rate: real)
    requires 0.0 < rate <= 1.0 && !Refused(file) && Select(file, rate).Kept?
    ensures Select(file, rate).file == file.(sampleRate := Select(file, rate).file.sampleRate)
    ensures Select(file, rate).file.sampleRate.Some?
    ensures
      var stamp, size := Select(file, rate).file.sampleRate.value, file.sizeBytes.value as real;
      && stamp <= 1.0 && (file.sampleRate.Some? ==> stamp <= file.sampleRate.value)
      && (rate < 1.0 ==> stamp * 268435456.0 <= rate * size)
      && (stamp == 1.0 || Some(stamp) == file.sampleRate || (rate < 1.0 && stamp * 268435456.0 == rate * size))
  {
    SelectIs(file, rate);
  }

  /** Exactly the records without a positive size and those with an earlier rate outside `(0, 1]` fail, the size being
      looked at first; a rate of the stage outside it fails on every record. */
  lemma {:induction false} FailsIff(file: TableFile, rate: real)
    ensures !(0.0 < rate <= 1.0) ==> Select(file, rate) == Failed(Rate(rate))
    ensures 0.0 < rate <= 1.0 && (file.sizeBytes.None? || file.sizeBytes.value == 0) ==>
      Select(file, rate) == Failed(UnknownSize(file.name))
    ensures 0.0 < rate <= 1.0 && file.sizeBytes.Some? && file.sizeBytes.value > 0 ==>
      if file.sampleRate.Some? && !(0.0 < file.sampleRate.value <= 1.0)
      then Select(file, rate) == Failed(Sampled(file.sampleRate.value))
      else !Refused(file) && !Select(file, rate).Failed?
  {
    if 0.0 < rate <= 1.0 {
      SelectIs(file, rate);
    }
  }

  /** One record through one stage and then another is one record through a stage at the smaller rate. */
  lemma {:induction false} SelectTwice(file: TableFile, a: real, b: real)
    requires Valid(a) && Valid(b)
    ensures
      Select(file, Min(a, b)) ==
        match Select(file, a)
        case Kept(kept) => Select(kept, b)
        case Dropped => Dropped
        case Failed(error) => Failed(error)
  {
    SelectIs(file, a);
    SelectIs(file, Min(a, b));
    if !Refused(file) {
      ProbabilityOfMin(file.sizeBytes.value, a, b);
      SelectIs(file.(sampleRate := Some(Inclusion(file, a))), b);
    }
  }

  // ----- whole stages -----

  /** The records a stage passes on. */
  function Rows(files: seq<TableFile>, rate: real): seq<TableFile> {
    if files == [] then []
    else
      var front, last := Rows(files[..|files| - 1], rate), Select(files[|files| - 1], rate);
      if last.Kept? then front + [last.file] else front
  }

  /** The records a stage fails on. */
  function Failures(files: seq<TableFile>, rate: real): seq<Error> {
    if files == [] then []
    else
      var front, last := Failures(files[..|files| - 1], rate), Select(files[|files| - 1], rate);
      if last.Failed? then front + [last.error] else front
  }

  /** A stage draws record by record: it passes on the kept ones in order. */
  lemma {:induction false} RowsSnoc(files: seq<TableFile>, file: TableFile, rate: real)
    ensures Rows([], rate) == []
    ensures Rows(files + [file], rate) ==
            if Select(file, rate).Kept? then Rows(files, rate) + [Select(file, rate).file] else Rows(files, rate)
  {
    assert (files + [file])[..|files|] == files;
  }

  /** And it fails on the others in order. */
  lemma {:induction false} FailuresSnoc(files: seq<TableFile>, file: TableFile, rate: real)
    ensures Failures([], rate) == []
    ensures Failures(files + [file], rate) ==
            if Select(file, rate).Failed? then Failures(files, rate) + [Select(file, rate).error]
            else Failures(files, rate)
  {
    assert (files + [file])[..|files|] == files;
  }

  /** Two stages pass on what one stage at the smaller rate does, and fail on the same records: the first stage on all
      of them, the second on none. */
  lemma {:induction false} TwoStages(files: seq<TableFile>, a: real, b: real)
    requires Valid(a) && Valid(b)
    ensures Rows(Rows(files, a), b) == Rows(files, Min(a, b))
    ensures Failures(files, a) == Failures(files, Min(a, b))
    ensures Failures(Rows(files, a), b) == []
  {
    if files != [] {
      var front, last := files[..|files| - 1], files[|files| - 1];
      TwoStages(front, a, b);
      SelectTwice(last, a, b);
      SelectIs(last, a);
      if Select(last, a).Kept? {
        var kept := Select(last, a).file;
        RowsSnoc(Rows(front, a), kept, b);
        FailuresSnoc(Rows(front, a), kept, b);
        SelectIs(kept, b);
      }
    }
  }

  /** A pipeline of stages. */
  function Stages(files: seq<TableFile>, rates: seq<real>): seq<TableFile> {
    if rates == [] then files else Rows(Stages(files, rates[..|rates| - 1]), rates[|rates| - 1])
  }

  /** Every record any stage of the pipeline fails on, stage by stage. */
  function StageFailures(files: seq<TableFile>, rates: seq<real>): seq<Error> {
    if rates == [] then []
    else
      var front := rates[..|rates| - 1];
      StageFailures(files, front) + Failures(Stages(files, front), rates[|rates| - 1])
  }

  predicate Smallest(rates: seq<real>, rate: real) {
    rate in rates && forall k :: 0 <= k < |rates| ==> rate <= rates[k]
  }

  lemma {:induction false} SmallestSnoc(rates: seq<real>, least: real, last: real)
    requires Smallest(rates, least)
    ensures Smallest(rates + [last], Min(least, last))
  {
    var all := rates + [last];
    assert all[|rates|] == last;
    assert least in all;
  }

  lemma {:induction false} SmallestIsUnique(rates: seq<real>, a: real, b: real)
    requires Smallest(rates, a) && Smallest(rates, b)
    ensures a == b
  {
  }

  /** However many stages run, and in whatever order, they keep the records one stage at the smallest rate keeps, with
      the same sample rates, and fail on the same records: whatever sizes and rates the records arrive with. */
  lemma {:induction false} StagesCompose(files: seq<TableFile>, rates: seq<real>, least: real)
    requires Smallest(rates, least)
    requires forall k :: 0 <= k < |rates| ==> Valid(rates[k])
    ensures Stages(files, rates) == Rows(files, least)
    ensures StageFailures(files, rates) == Failures(files, least)
  {
    var front, last := rates[..|rates| - 1], rates[|rates| - 1];
    assert rates == front + [last];
    if front == [] {
      assert Stages(files, front) == files;
      assert StageFailures(files, front) == [];
      EmptyUnit(Failures(files, last));
    } else {
      var before := LeastRate(front);
      SmallestSnoc(front, before, last);
      SmallestIsUnique(rates, Min(before, last), least);
      StagesCompose(files, front, before);
      TwoStages(files, before, last);
      EmptyUnit(Failures(files, least));
    }
  }

  lemma {:induction false} LeastRate(rates: seq<real>) returns (least: real)
    requires rates != []
    ensures Smallest(rates, least)
  {
    var front, last := rates[..|rates| - 1], rates[|rates| - 1];
    assert rates == front + [last];
    if front == [] {
      least := last;
    } else {
      var before := LeastRate(front);
      SmallestSnoc(front, before, last);
      least := Min(before, last);
    }
  }

  /** A file's fate is settled by its own name and size: a lower rate keeps a part of what a higher one keeps. */
  lemma {:induction false} SmallerRateKeepsFewer(file: TableFile, a: real, b: real)
    requires Valid(a) && Valid(b) && a <= b && Select(file, a).Kept?
    ensures Select(file, b).Kept?
    ensures Select(file, a).file.sampleRate.value <= Select(file, b).file.sampleRate.value
  {
    SelectTwice(file, b, a);
    SelectIs(file, a);
    SelectIs(file, b);
    ProbabilityGrows(file.sizeBytes.value, a, b);
  }

  /** At rate one a stage keeps every record it can size that no earlier stage sampled. */
  lemma {:induction false} RateOneKeepsAll(file: TableFile)
    requires !Refused(file) && file.sampleRate.None?
    ensures Select(file, 1.0) == Kept(file.(sampleRate := Some(1.0)))
  {
    UnitIsTopBits(file.name);
  }
}
