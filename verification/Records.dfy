/** What the records of a `summarize columns` stream say on their own: where each was measured, for which table, at
    what rate and in which storage class. The fold and the rows are stated against these. */
module Records {
  import opened Text
  import opened Utf8
  import opened Mass
  import Names

  // ----- one record -----

  datatype Place = Place(service: Text, locator: Text, path: Text)

  /** The blob and the column path a record's name spells. */
  function PlaceOf(column: Column): Option<Place> {
    var ids := Names.ParseColumn(column.name);
    if ids.None? || |ids.value| != 3 then None else Some(Place(ids.value[0], ids.value[1], ids.value[2]))
  }

  /** The table a record names, or the local one of the path its blob is read from. */
  function TableOf(column: Column, at: Place): Text {
    if column.table.Some? then column.table.value
    else Names.LocalTable(if at.service == "file" then at.locator else at.service + "://" + at.locator)
  }

  /** The rate a record was kept with; one when it was not sampled. */
  function RateOf(column: Column): real {
    if column.sampleRate.Some? then column.sampleRate.value else 1.0
  }

  predicate RateHolds(column: Column) {
    0.0 < RateOf(column) <= 1.0
  }

  predicate TableHolds(column: Column) {
    PlaceOf(column).Some? ==> Names.ParseTable(TableOf(column, PlaceOf(column).value)).Some?
  }

  /** Only objects in S3 have a storage class; one that reports none is a standard object. */
  function StorageOf(column: Column, at: Place): Option<Text> {
    if at.service != "s3" && at.service != "s3a" then None
    else if column.storageClass.Some? then column.storageClass
    else Some("STANDARD")
  }

  /** What a record reports, unscaled. */
  function Reported(column: Column): Bytemass {
    if column.mass.Some? then column.mass.value else Bytemass(None, None, None)
  }

  /** Each count of the entry is the record's over its rate. */
  predicate Counts(e: Entry, column: Column) {
    && e.facts.weight * RateOf(column) == 1.0
    && e.bytes * RateOf(column) == OrZero(Reported(column).compressedBytes) as real
    && e.values * RateOf(column) == OrZero(Reported(column).valueCount) as real
    && (e.uncompressed.Some? <==> Reported(column).uncompressedBytes.Some?)
    && (e.uncompressed.Some? ==>
          e.uncompressed.value * RateOf(column) == OrZero(Reported(column).uncompressedBytes) as real)
  }

  /** The entry holds what the record says. */
  predicate Scales(e: Entry, column: Column, at: Place) {
    && e.column == column.name && e.path == at.path && e.table == TableOf(column, at)
    && e.blob == Names.Blob(at.service, at.locator) && e.storage == StorageOf(column, at)
    && e.facts.sizeBytes == column.sizeBytes && e.facts.storageClass == column.storageClass
    && Counts(e, column)
  }

  lemma {:induction false} Inverse(column: Column)
    requires RateHolds(column)
    ensures SampleWeight(column.sampleRate).Ok? && SampleWeight(column.sampleRate).value * RateOf(column) == 1.0
  {
  }

  lemma {:induction false} Rescaled(rate: real, weight: real, n: real)
    requires weight * rate == 1.0
    ensures (weight * n) * rate == n
  {
    assert (weight * n) * rate == n * (weight * rate);
  }

  lemma {:induction false} PlaceIsValid(column: Column)
    requires PlaceOf(column).Some?
    ensures Valid(PlaceOf(column).value.service) && Valid(PlaceOf(column).value.locator)
  {
    Names.PathIdsValid(Names.COLUMN, Split(column.name, '/'));
  }

  lemma {:induction false} TableResolves(column: Column, at: Place)
    requires Valid(at.service) && Valid(at.locator)
    ensures
      var blob := Names.Blob(at.service, at.locator);
      && ResolveTable(column, blob) ==
           (if Names.ParseTable(TableOf(column, at)).None? then Err(TableName(TableOf(column, at)))
            else Ok(Some(TableOf(column, at))))
      && PricedClass(blob, column.storageClass) == StorageOf(column, at)
  {
    Names.BlobUriIs(at.service, at.locator);
    Names.BlobParses(at.service, at.locator);
  }

  lemma {:induction false} WeightedCounts(column: Column, table: Text, path: Text, blob: Text, weight: real)
    requires weight * RateOf(column) == 1.0
    ensures Counts(Weighted(column, table, path, blob, weight), column)
  {
    var mass := Reported(column);
    Rescaled(RateOf(column), weight, OrZero(mass.compressedBytes) as real);
    Rescaled(RateOf(column), weight, OrZero(mass.valueCount) as real);
    Rescaled(RateOf(column), weight, OrZero(mass.uncompressedBytes) as real);
  }

  /** What a record comes to: a name that is no column's is skipped; a table that is no table's name and then a rate
      outside `(0, 1]` are refused; and any other record is held with each count over its rate. */
  lemma {:induction false} PreparedHolds(column: Column)
    ensures Prepare(column).Skip? <==> PlaceOf(column).None?
    ensures PlaceOf(column).Some? ==>
      var table := TableOf(column, PlaceOf(column).value);
      if !TableHolds(column) then Prepare(column) == Bad(TableName(table))
      else if !RateHolds(column) then Prepare(column) == Bad(SampleRate(RateOf(column)))
      else Prepare(column).Good? && Scales(Prepare(column).entry, column, PlaceOf(column).value)
  {
    if PlaceOf(column).Some? {
      var at := PlaceOf(column).value;
      PlaceIsValid(column);
      TableResolves(column, at);
      if TableHolds(column) && RateHolds(column) {
        Inverse(column);
        WeightedCounts(
          column, TableOf(column, at), at.path, Names.Blob(at.service, at.locator),
          SampleWeight(column.sampleRate).value);
      }
    }
  }

  /** A record named after a column of a blob is measured there. */
  lemma {:induction false} NamedIsPlaced(column: Column, service: Text, locator: Text, path: Text)
    requires Valid(service) && Valid(locator) && Valid(path) && column.name == Names.Column(service, locator, path)
    ensures PlaceOf(column) == Some(Place(service, locator, path))
  {
    Names.ColumnParses(service, locator, path);
  }

  // ----- a stream -----

  /** The record measures this column of this table. */
  predicate MeasuresAt(column: Column, table: Text, path: Text) {
    PlaceOf(column).Some? && PlaceOf(column).value.path == path && TableOf(column, PlaceOf(column).value) == table
  }

  predicate MeasuresTable(column: Column, table: Text) {
    PlaceOf(column).Some? && TableOf(column, PlaceOf(column).value) == table
  }

  predicate InStorage(column: Column, name: Text) {
    PlaceOf(column).Some? && StorageOf(column, PlaceOf(column).value) == Some(name)
  }

  /** The figure of one record, unscaled; a file counts one. */
  function Figure(column: Column, m: Measure): real {
    match m
    case Compressed => OrZero(Reported(column).compressedBytes) as real
    case UncompressedBytes => OrZero(Reported(column).uncompressedBytes) as real
    case Values => OrZero(Reported(column).valueCount) as real
    case InClass(name) => if InStorage(column, name) then OrZero(Reported(column).compressedBytes) as real else 0.0
    case FileWeight => 1.0
  }

  /** The estimate: every matching record's figure over its rate. */
  function Estimate(columns: seq<Column>, table: Text, path: Text, m: Measure): real {
    if columns == [] then 0.0
    else
      var front, last := Estimate(columns[..|columns| - 1], table, path, m), columns[|columns| - 1];
      if MeasuresAt(last, table, path) && RateHolds(last) then front + Figure(last, m) / RateOf(last) else front
  }

  /** What all of a table's columns are estimated to hold in a class. */
  function TableEstimate(columns: seq<Column>, table: Text, name: Text): real {
    if columns == [] then 0.0
    else
      var front, last := TableEstimate(columns[..|columns| - 1], table, name), columns[|columns| - 1];
      if MeasuresTable(last, table) && RateHolds(last) then front + Figure(last, InClass(name)) / RateOf(last)
      else front
  }

  lemma {:induction false} Divides(x: real, rate: real, n: real)
    requires rate > 0.0 && x * rate == n
    ensures x == n / rate
  {
  }

  lemma {:induction false} ScaledAmount(e: Entry, column: Column, m: Measure)
    requires RateHolds(column) && PlaceOf(column).Some? && Scales(e, column, PlaceOf(column).value)
    ensures Amount(e, m) == Figure(column, m) / RateOf(column)
  {
    Divides(e.facts.weight, RateOf(column), 1.0);
    Divides(e.bytes, RateOf(column), OrZero(Reported(column).compressedBytes) as real);
    Divides(e.values, RateOf(column), OrZero(Reported(column).valueCount) as real);
    if e.uncompressed.Some? {
      Divides(e.uncompressed.value, RateOf(column), OrZero(Reported(column).uncompressedBytes) as real);
    }
  }

  lemma {:induction false} NoBadFront(columns: seq<Column>)
    requires NoBad(columns) && columns != []
    ensures NoBad(columns[..|columns| - 1]) && !Prepare(columns[|columns| - 1]).Bad?
  {
    assert forall i :: 0 <= i < |columns| - 1 ==> columns[..|columns| - 1][i] == columns[i];
  }

  lemma {:induction false} AddsAmount(column: Column, table: Text, path: Text, m: Measure)
    requires !Prepare(column).Bad?
    ensures Prepare(column).Good? && Of(Prepare(column).entry, table, path) <==> MeasuresAt(column, table, path)
    ensures Prepare(column).Good? && Prepare(column).entry.table == table <==> MeasuresTable(column, table)
    ensures Prepare(column).Good? ==>
      RateHolds(column) && Amount(Prepare(column).entry, m) == Figure(column, m) / RateOf(column)
  {
    PreparedHolds(column);
    if Prepare(column).Good? {
      ScaledAmount(Prepare(column).entry, column, m);
    }
  }

  lemma {:induction false} EstimateIs(columns: seq<Column>, table: Text, path: Text, m: Measure)
    requires NoBad(columns)
    ensures SumOf(Entries(columns), table, path, m) == Estimate(columns, table, path, m)
  {
    if columns != [] {
      var front, last := columns[..|columns| - 1], columns[|columns| - 1];
      NoBadFront(columns);
      EstimateIs(front, table, path, m);
      EstimateStep(Entries(front), last, table, path, m);
    }
  }

  lemma {:induction false} EstimateStep(es: seq<Entry>, last: Column, table: Text, path: Text, m: Measure)
    requires !Prepare(last).Bad?
    ensures SumOf(if Prepare(last).Good? then es + [Prepare(last).entry] else es, table, path, m) ==
            SumOf(es, table, path, m)
            + if MeasuresAt(last, table, path) && RateHolds(last) then Figure(last, m) / RateOf(last) else 0.0
  {
    AddsAmount(last, table, path, m);
    if Prepare(last).Good? {
      SumOfSnoc(es, Prepare(last).entry, table, path, m);
    }
  }

  lemma {:induction false} SumOfSnoc(es: seq<Entry>, e: Entry, table: Text, path: Text, m: Measure)
    ensures SumOf(es + [e], table, path, m) ==
            SumOf(es, table, path, m) + if Of(e, table, path) then Amount(e, m) else 0.0
  {
    assert (es + [e])[..|es|] == es;
  }

  lemma {:induction false} TableSumSnoc(es: seq<Entry>, e: Entry, table: Text, name: Text)
    ensures TableSum(es + [e], table, name) ==
            TableSum(es, table, name) + if e.table == table then Amount(e, InClass(name)) else 0.0
  {
    assert (es + [e])[..|es|] == es;
  }

  lemma {:induction false} TableEstimateIs(columns: seq<Column>, table: Text, name: Text)
    requires NoBad(columns)
    ensures TableSum(Entries(columns), table, name) == TableEstimate(columns, table, name)
  {
    if columns != [] {
      var front, last := columns[..|columns| - 1], columns[|columns| - 1];
      NoBadFront(columns);
      TableEstimateIs(front, table, name);
      AddsAmount(last, table, [], InClass(name));
      if Prepare(last).Good? {
        TableSumSnoc(Entries(front), Prepare(last).entry, table, name);
      }
    }
  }

  // ----- which records there are -----

  /** Some record of the stream measures the column and reports this class. */
  predicate HasClass(columns: seq<Column>, table: Text, path: Text, name: Text) {
    exists c :: c in columns && MeasuresAt(c, table, path) && InStorage(c, name)
  }

  /** Every record of the stream that measures the column reports an uncompressed size. */
  predicate Complete(columns: seq<Column>, table: Text, path: Text) {
    forall c :: c in columns && MeasuresAt(c, table, path) ==> Reported(c).uncompressedBytes.Some?
  }

  lemma {:induction false} EntryOf(columns: seq<Column>, c: Column)
    requires NoBad(columns) && c in columns && PlaceOf(c).Some?
    ensures Prepare(c).Good? && Prepare(c).entry in Entries(columns) && Scales(Prepare(c).entry, c, PlaceOf(c).value)
  {
    var front, last := columns[..|columns| - 1], columns[|columns| - 1];
    assert columns == front + [last];
    NoBadFront(columns);
    if c in front {
      EntryOf(front, c);
    } else {
      PreparedHolds(c);
    }
  }

  lemma {:induction false} RecordOf(columns: seq<Column>, e: Entry) returns (c: Column)
    requires NoBad(columns) && e in Entries(columns)
    ensures c in columns && PlaceOf(c).Some? && Scales(e, c, PlaceOf(c).value)
  {
    var front, last := columns[..|columns| - 1], columns[|columns| - 1];
    assert columns == front + [last];
    NoBadFront(columns);
    if e in Entries(front) {
      c := RecordOf(front, e);
    } else {
      c := last;
      PreparedHolds(last);
    }
  }

  predicate IsMeasured(columns: seq<Column>, table: Text, path: Text) {
    exists c :: c in columns && MeasuresAt(c, table, path)
  }

  predicate HasEntry(es: seq<Entry>, table: Text, path: Text) {
    exists e :: e in es && Of(e, table, path)
  }

  lemma {:induction false} HasEntryIff(columns: seq<Column>, table: Text, path: Text)
    requires NoBad(columns)
    ensures HasEntry(Entries(columns), table, path) <==> IsMeasured(columns, table, path)
  {
    if e :| e in Entries(columns) && Of(e, table, path) {
      var c := RecordOf(columns, e);
      assert MeasuresAt(c, table, path);
    }
    if c :| c in columns && MeasuresAt(c, table, path) {
      EntryOf(columns, c);
      assert Of(Prepare(c).entry, table, path);
    }
  }

  lemma {:induction false} HasClassIff(columns: seq<Column>, table: Text, path: Text, name: Text)
    requires NoBad(columns)
    ensures (exists e :: e in Entries(columns) && Of(e, table, path) && e.storage == Some(name)) <==>
            HasClass(columns, table, path, name)
  {
    if e :| e in Entries(columns) && Of(e, table, path) && e.storage == Some(name) {
      var c := RecordOf(columns, e);
      assert MeasuresAt(c, table, path) && InStorage(c, name);
    }
    if c :| c in columns && MeasuresAt(c, table, path) && InStorage(c, name) {
      EntryOf(columns, c);
      assert Of(Prepare(c).entry, table, path) && Prepare(c).entry.storage == Some(name);
    }
  }

  lemma {:induction false} CompleteIff(columns: seq<Column>, table: Text, path: Text)
    requires NoBad(columns)
    ensures (forall e :: e in Entries(columns) && Of(e, table, path) ==> e.uncompressed.Some?) <==>
            Complete(columns, table, path)
  {
    if e :| e in Entries(columns) && Of(e, table, path) && e.uncompressed.None? {
      var c := RecordOf(columns, e);
      assert MeasuresAt(c, table, path);
    }
    if c :| c in columns && MeasuresAt(c, table, path) && Reported(c).uncompressedBytes.None? {
      EntryOf(columns, c);
      assert Of(Prepare(c).entry, table, path);
    }
  }

  // ----- which streams fold -----

  /** The record names a column, and a table that is none or a rate outside `(0, 1]`. */
  predicate Refused(column: Column) {
    PlaceOf(column).Some? && !(TableHolds(column) && RateHolds(column))
  }

  /** Both measure one column of one table in one file. */
  predicate Repeats(a: Column, b: Column) {
    && PlaceOf(a).Some? && PlaceOf(a) == PlaceOf(b)
    && TableOf(a, PlaceOf(a).value) == TableOf(b, PlaceOf(b).value)
  }

  ghost predicate Repeated(columns: seq<Column>) {
    exists i, j {:trigger columns[i], columns[j]} :: 0 <= i < j < |columns| && Repeats(columns[i], columns[j])
  }

  ghost predicate AnyRefused(columns: seq<Column>) {
    exists k :: 0 <= k < |columns| && Refused(columns[k])
  }

  lemma {:induction false} NoBadIff(columns: seq<Column>)
    ensures NoBad(columns) <==> !AnyRefused(columns)
  {
    forall k | 0 <= k < |columns| ensures Prepare(columns[k]).Bad? <==> Refused(columns[k]) {
      PreparedHolds(columns[k]);
    }
  }

  lemma {:induction false} SameKeyIff(a: Column, b: Column)
    requires Prepare(a).Good? && Prepare(b).Good?
    ensures SameKey(Prepare(a).entry, Prepare(b).entry) <==> Repeats(a, b)
  {
    PreparedHolds(a);
    PreparedHolds(b);
    PlaceIsValid(a);
    PlaceIsValid(b);
    SameBlob(PlaceOf(a).value, PlaceOf(b).value);
  }

  lemma {:induction false} SameBlob(x: Place, y: Place)
    requires Valid(x.service) && Valid(x.locator) && Valid(y.service) && Valid(y.locator)
    ensures Names.Blob(x.service, x.locator) == Names.Blob(y.service, y.locator) <==>
            x.service == y.service && x.locator == y.locator
  {
    if Names.Blob(x.service, x.locator) == Names.Blob(y.service, y.locator) {
      Names.BlobInjective([x.service, x.locator], [y.service, y.locator]);
      assert [x.service, x.locator][0] == [y.service, y.locator][0];
      assert [x.service, x.locator][1] == [y.service, y.locator][1];
    }
  }

  predicate RepeatsOne(front: seq<Column>, last: Column) {
    exists i :: 0 <= i < |front| && Repeats(front[i], last)
  }

  predicate KeyIn(es: seq<Entry>, e: Entry) {
    exists i :: 0 <= i < |es| && SameKey(es[i], e)
  }

  lemma {:induction false} KeyInSnoc(es: seq<Entry>, last: Entry, e: Entry)
    ensures KeyIn(es + [last], e) <==> KeyIn(es, e) || SameKey(last, e)
  {
    assert forall i :: 0 <= i < |es| ==> (es + [last])[i] == es[i];
    assert (es + [last])[|es|] == last;
  }

  lemma {:induction false} RepeatsOneSnoc(front: seq<Column>, c: Column, last: Column)
    ensures RepeatsOne(front + [c], last) <==> RepeatsOne(front, last) || Repeats(c, last)
  {
    assert forall i :: 0 <= i < |front| ==> (front + [c])[i] == front[i];
    assert (front + [c])[|front|] == c;
  }

  lemma {:induction false} KeyOfFront(front: seq<Column>, last: Column)
    requires NoBad(front) && Prepare(last).Good?
    ensures KeyIn(Entries(front), Prepare(last).entry) <==> RepeatsOne(front, last)
  {
    if front != [] {
      var before, c := front[..|front| - 1], front[|front| - 1];
      assert front == before + [c];
      NoBadFront(front);
      KeyOfFront(before, last);
      RepeatsOneSnoc(before, c, last);
      if Prepare(c).Good? {
        SameKeyIff(c, last);
        KeyInSnoc(Entries(before), Prepare(c).entry, Prepare(last).entry);
      } else {
        PreparedHolds(c);
      }
    }
  }

  lemma {:induction false} RepeatedSnoc(front: seq<Column>, last: Column)
    ensures Repeated(front + [last]) <==> Repeated(front) || RepeatsOne(front, last)
  {
    var all := front + [last];
    assert forall i :: 0 <= i < |front| ==> all[i] == front[i];
    assert all[|front|] == last;
  }

  lemma {:induction false} DistinctIff(columns: seq<Column>)
    requires NoBad(columns)
    ensures Distinct(Entries(columns)) <==> !Repeated(columns)
  {
    if columns != [] {
      var front, last := columns[..|columns| - 1], columns[|columns| - 1];
      assert columns == front + [last];
      NoBadFront(columns);
      DistinctIff(front);
      RepeatedSnoc(front, last);
      PreparedHolds(last);
      if Prepare(last).Good? {
        KeyOfFront(front, last);
        DistinctSnoc(Entries(front), Prepare(last).entry);
      }
    }
  }

  /** A stream folds exactly when no record of it is refused and no two measure one column of one table in one file;
      and one without a refused record fails only for that. */
  lemma {:induction false} FoldsIff(columns: seq<Column>)
    ensures Fold(columns).Ok? <==> !AnyRefused(columns) && !Repeated(columns)
  {
    NoBadIff(columns);
    if NoBad(columns) {
      FoldSucceedsIff(columns);
      DistinctIff(columns);
    } else if Fold(columns).Ok? {
      FoldOkHasNoBad(columns);
    }
  }

  /** The first record at fault fails the stream: with its table's name, with its rate, or as a duplicate of one that
      came before. */
  lemma {:induction false} FirstFault(columns: seq<Column>, k: nat)
    requires k < |columns| && !AnyRefused(columns[..k]) && !Repeated(columns[..k])
    ensures PlaceOf(columns[k]).Some? && !TableHolds(columns[k]) ==>
      Fold(columns[..k + 1]) == Err(TableName(TableOf(columns[k], PlaceOf(columns[k]).value)))
    ensures PlaceOf(columns[k]).Some? && TableHolds(columns[k]) && !RateHolds(columns[k]) ==>
      Fold(columns[..k + 1]) == Err(SampleRate(RateOf(columns[k])))
    ensures !Refused(columns[k]) && RepeatsOne(columns[..k], columns[k]) ==>
      var at := PlaceOf(columns[k]).value;
      Fold(columns[..k + 1]) == Err(Duplicate(columns[k].name, Names.Blob(at.service, at.locator)))
  {
    var front, last := columns[..k], columns[k];
    FoldsIff(front);
    Prefix(columns, k);
    PreparedHolds(last);
    if !Refused(last) && RepeatsOne(front, last) {
      FoldOkHasNoBad(front);
      FoldSucceedsIff(front);
      assert PlaceOf(last).Some?;
      KeyOfFront(front, last);
      MeasuredIff(Entries(front), Prepare(last).entry);
    }
  }
}
