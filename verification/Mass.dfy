/** `summarize columns`: fold a stream of measured columns into one row per table column, each measurement weighted
    by the inverse of its sample rate, and apportion each table's storage cost to its columns. Floating point is
    modelled as real arithmetic. */
module Mass {
  import opened Text
  import Sorting
  import opened Sums
  import Names

  // ----- one measured column -----

  datatype Bytemass = Bytemass(
    compressedBytes: Option<nat>, uncompressedBytes: Option<nat>, valueCount: Option<nat>)

  datatype Column = Column(
    name: Text, table: Option<Text>, sampleRate: Option<real>, sizeBytes: Option<nat>,
    storageClass: Option<Text>, mass: Option<Bytemass>)

  datatype Error =
    | SampleRate(rate: real)
    | TableName(table: Text)
    | Overflow(field: Text)
    | Duplicate(column: Text, blob: Text)

  /** What a fold keeps of one file. */
  datatype FileFacts = FileFacts(sizeBytes: Option<nat>, storageClass: Option<Text>, weight: real)

  /** One record, checked and weighted: what `add_column` adds. */
  datatype Entry = Entry(
    column: Text, table: Text, path: Text, blob: Text,
    bytes: real, uncompressed: Option<real>, values: real, storage: Option<Text>, facts: FileFacts)

  datatype Prepared = Skip | Bad(error: Error) | Good(entry: Entry)

  function SampleWeight(rate: Option<real>): Result<real, Error> {
    if rate.None? then Ok(1.0)
    else if 0.0 < rate.value <= 1.0 then Ok(1.0 / rate.value)
    else Err(SampleRate(rate.value))
  }

  /** The table a measurement names: its own, or the local table of a bare path. */
  function ResolveTable(column: Column, blob: Text): Result<Option<Text>, Error> {
    if column.table.None? && Names.BlobUri(blob).None? then Ok(None)
    else
      var table := if column.table.Some? then column.table.value else Names.LocalTable(Names.BlobUri(blob).value);
      if Names.ParseTable(table).None? then Err(TableName(table)) else Ok(Some(table))
  }

  predicate ObjectStorage(service: Text) {
    service == "s3" || service == "s3a"
  }

  /** S3 omits the class of a STANDARD object. */
  function ClassOr(storage: Option<Text>): Text {
    if storage.Some? then storage.value else "STANDARD"
  }

  /** The class a blob is priced in, when it is S3 object storage. */
  function PricedClass(blob: Text, storage: Option<Text>): Option<Text> {
    var parts := Names.ParseBlob(blob);
    if parts.None? || !ObjectStorage(parts.value.0) then None else Some(ClassOr(storage))
  }

  /** A record with its measurements scaled by the file's weight; an absent one counts nothing. */
  function Weighted(column: Column, table: Text, path: Text, blob: Text, weight: real): Entry {
    var mass := if column.mass.Some? then column.mass.value else Bytemass(None, None, None);
    Entry(
      column.name, table, path, blob,
      weight * OrZero(mass.compressedBytes) as real,
      if mass.uncompressedBytes.Some? then Some(weight * mass.uncompressedBytes.value as real) else None,
      weight * OrZero(mass.valueCount) as real,
      PricedClass(blob, column.storageClass),
      FileFacts(column.sizeBytes, column.storageClass, weight))
  }

  /** What one record comes to, before the accumulator is looked at. */
  function Prepare(column: Column): Prepared {
    var ids := Names.ParseColumn(column.name);
    if ids.None? || |ids.value| != 3 then Skip
    else
      var blob := Names.Blob(ids.value[0], ids.value[1]);
      var table := ResolveTable(column, blob);
      if table.Err? then Bad(table.error)
      else if table.value.None? then Skip
      else
        var weight := SampleWeight(column.sampleRate);
        if weight.Err? then Bad(weight.error)
        else
          Good(Weighted(column, table.value.value, ids.value[2], blob, weight.value))
  }

  lemma {:induction false} WeightIsAtLeastOne(rate: Option<real>)
    requires SampleWeight(rate).Ok?
    ensures SampleWeight(rate).value >= 1.0
  {
    if rate.Some? {
      ReciprocalIsAtLeastOne(rate.value);
    }
  }

  lemma {:induction false} ReciprocalIsAtLeastOne(x: real)
    requires 0.0 < x <= 1.0
    ensures 1.0 / x >= 1.0
  {
    assert 1.0 / x * x == 1.0;
  }

  lemma {:induction false} NonNegativeProduct(a: real, n: nat)
    requires a >= 0.0
    ensures a * n as real >= 0.0
  {
  }

  predicate IsNonNegative(e: Entry) {
    && e.bytes >= 0.0 && e.values >= 0.0 && e.facts.weight >= 0.0
    && (e.uncompressed.Some? ==> e.uncompressed.value >= 0.0)
  }

  lemma {:induction false} WeightedIsNonNegative(column: Column, table: Text, path: Text, blob: Text, weight: real)
    requires weight >= 0.0
    ensures IsNonNegative(Weighted(column, table, path, blob, weight))
  {
    var mass := if column.mass.Some? then column.mass.value else Bytemass(None, None, None);
    NonNegativeProduct(weight, OrZero(mass.compressedBytes));
    NonNegativeProduct(weight, OrZero(mass.valueCount));
    NonNegativeProduct(weight, OrZero(mass.uncompressedBytes));
  }

  lemma {:induction false} PreparedIsWeighted(column: Column)
    requires Prepare(column).Good?
    ensures SampleWeight(column.sampleRate).Ok?
    ensures
      var e := Prepare(column).entry;
      e == Weighted(column, e.table, e.path, e.blob, SampleWeight(column.sampleRate).value)
  {
  }

  lemma {:induction false} PreparedIsNonNegative(column: Column)
    requires Prepare(column).Good?
    ensures IsNonNegative(Prepare(column).entry)
  {
    PreparedIsWeighted(column);
    WeightIsAtLeastOne(column.sampleRate);
    var e := Prepare(column).entry;
    WeightedIsNonNegative(column, e.table, e.path, e.blob, SampleWeight(column.sampleRate).value);
  }

  // ----- the accumulator -----

  datatype MeasuredFile = MeasuredFile(bytes: real, weight: real)

  datatype Uncompressed = Uncompressed(bytes: real, incomplete: bool) {
    function Add(more: Option<real>): Uncompressed {
      match more
      case Some(value) => Uncompressed(bytes + value, incomplete)
      case None => Uncompressed(bytes, true)
    }
  }

  datatype ColumnBytes = ColumnBytes(
    compressedBytes: real, uncompressed: Uncompressed, valueCount: real,
    blobs: map<Text, MeasuredFile>, classBytes: map<Text, real>)

  datatype TableBytes = TableBytes(
    columns: map<Text, ColumnBytes>, blobs: map<Text, FileFacts>, classBytes: map<Text, real>)

  type Tables = map<Text, TableBytes>

  const NO_COLUMN := ColumnBytes(0.0, Uncompressed(0.0, false), 0.0, map[], map[])
  const NO_TABLE := TableBytes(map[], map[], map[])

  function Get<V>(m: map<Text, V>, k: Text, default: V): V {
    if k in m then m[k] else default
  }

  function AddClass(m: map<Text, real>, storage: Option<Text>, bytes: real): map<Text, real> {
    if storage.None? then m else m[storage.value := Get(m, storage.value, 0.0) + bytes]
  }

  function OrInsert<V>(m: map<Text, V>, k: Text, v: V): map<Text, V> {
    if k in m then m else m[k := v]
  }

  function InsertColumn(c: ColumnBytes, e: Entry): ColumnBytes {
    ColumnBytes(
      c.compressedBytes + e.bytes,
      c.uncompressed.Add(e.uncompressed),
      c.valueCount + e.values,
      c.blobs[e.blob := MeasuredFile(Get(c.blobs, e.blob, MeasuredFile(0.0, 0.0)).bytes + e.bytes, e.facts.weight)],
      AddClass(c.classBytes, e.storage, e.bytes))
  }

  function InsertTable(t: TableBytes, e: Entry): TableBytes {
    TableBytes(
      t.columns[e.path := InsertColumn(Get(t.columns, e.path, NO_COLUMN), e)],
      OrInsert(t.blobs, e.blob, e.facts),
      AddClass(t.classBytes, e.storage, e.bytes))
  }

  function Insert(tables: Tables, e: Entry): Tables {
    tables[e.table := InsertTable(Get(tables, e.table, NO_TABLE), e)]
  }

  /** Whether the accumulator already measured this column in this file. */
  predicate Measured(tables: Tables, e: Entry) {
    e.blob in Get(Get(tables, e.table, NO_TABLE).columns, e.path, NO_COLUMN).blobs
  }

  /** Every file a column measured is a file of its table. */
  ghost predicate Filed(tables: Tables) {
    forall t, p, b ::
      t in tables && p in tables[t].columns && b in tables[t].columns[p].blobs ==> b in tables[t].blobs
  }

  lemma {:induction false} InsertKeepsFiled(tables: Tables, e: Entry)
    requires Filed(tables)
    ensures Filed(Insert(tables, e))
  {
    var after := Insert(tables, e);
    forall t, p, b | t in after && p in after[t].columns && b in after[t].columns[p].blobs
      ensures b in after[t].blobs
    {
      if t != e.table {
        assert b in tables[t].blobs;
      } else if p in Get(tables, t, NO_TABLE).columns && b in tables[t].columns[p].blobs {
        assert b in tables[t].blobs;
      }
    }
  }

  /** Making sure a measured record's table, column and file are there changes nothing: they are. */
  lemma {:induction false} MeasuredIsThere(tables: Tables, e: Entry)
    requires Filed(tables) && Measured(tables, e)
    ensures e.table in tables && e.path in tables[e.table].columns && e.blob in tables[e.table].blobs
    ensures
      var t := tables[e.table];
      var touched := t.(blobs := OrInsert(t.blobs, e.blob, e.facts), columns := t.columns[e.path := t.columns[e.path]]);
      tables[e.table := touched] == tables
  {
    var t := tables[e.table];
    assert t.columns[e.path := t.columns[e.path]] == t.columns;
    assert tables[e.table := t] == tables;
  }

  class ColumnSummary {
    var tables: Tables

    ghost predicate Valid()
      reads this
    {
      Filed(tables)
    }

    constructor ()
      ensures Valid() && tables == map[]
    {
      tables := map[];
    }

    /** Add one checked record to its table and column, or refuse it and change nothing. */
    method AddEntry(e: Entry) returns (r: Result<(), Error>)
      requires Valid()
      modifies this
      ensures Valid()
      ensures r == if Measured(old(tables), e) then Err(Duplicate(e.column, e.blob)) else Ok(())
      ensures tables == if r.Ok? then Insert(old(tables), e) else old(tables)
    {
      InsertKeepsFiled(tables, e);
      var table := Get(tables, e.table, NO_TABLE);
      table := table.(blobs := OrInsert(table.blobs, e.blob, e.facts));
      var total := Get(table.columns, e.path, NO_COLUMN);
      if e.blob in total.blobs {
        MeasuredIsThere(tables, e);
        tables := tables[e.table := table.(columns := table.columns[e.path := total])];
        return Err(Duplicate(e.column, e.blob));
      }
      total := total.(
        compressedBytes := total.compressedBytes + e.bytes,
        uncompressed := total.uncompressed.Add(e.uncompressed),
        valueCount := total.valueCount + e.values);
      var file := Get(total.blobs, e.blob, MeasuredFile(0.0, 0.0));
      file := MeasuredFile(file.bytes + e.bytes, e.facts.weight);
      total := total.(
        blobs := total.blobs[e.blob := file],
        classBytes := AddClass(total.classBytes, e.storage, e.bytes));
      table := table.(classBytes := AddClass(table.classBytes, e.storage, e.bytes));
      tables := tables[e.table := table.(columns := table.columns[e.path := total])];
      return Ok(());
    }

    /** Fold one measured column. A failure of any kind leaves the accumulator as it was. */
    method AddColumn(column: Column) returns (r: Result<(), Error>)
      requires Valid()
      modifies this
      ensures Valid()
      ensures match Prepare(column)
        case Skip => r == Ok(()) && tables == old(tables)
        case Bad(error) => r == Err(error)
        case Good(e) =>
          if Measured(old(tables), e) then r == Err(Duplicate(e.column, e.blob))
          else r == Ok(()) && tables == Insert(old(tables), e)
      ensures r.Err? ==> tables == old(tables)
    {
      var prepared := Prepare(column);
      if prepared.Skip? {
        return Ok(());
      } else if prepared.Bad? {
        return Err(prepared.error);
      } else {
        r := AddEntry(prepared.entry);
      }
    }
  }

  // ----- the fold over a stream -----

  /** What one checked record does to the fold of those before it. */
  function Accepted(front: Result<Tables, Error>, e: Entry): Result<Tables, Error> {
    if front.Err? then front
    else if Measured(front.value, e) then Err(Duplicate(e.column, e.blob))
    else Ok(Insert(front.value, e))
  }

  /** The accumulator after a stream, or the first error. */
  function Fold(columns: seq<Column>): Result<Tables, Error> {
    if columns == [] then Ok(map[])
    else
      var front := Fold(columns[..|columns| - 1]);
      if front.Err? then front
      else match Prepare(columns[|columns| - 1])
        case Skip => front
        case Bad(error) => Err(error)
        case Good(e) => Accepted(front, e)
  }

  /** The records a stream contributes. */
  function Entries(columns: seq<Column>): seq<Entry> {
    if columns == [] then []
    else
      var last := Prepare(columns[|columns| - 1]);
      if last.Good? then Entries(columns[..|columns| - 1]) + [last.entry] else Entries(columns[..|columns| - 1])
  }

  function InsertAll(tables: Tables, es: seq<Entry>): Tables
    decreases |es|
  {
    if es == [] then tables else InsertAll(Insert(tables, es[0]), es[1..])
  }

  predicate SameKey(a: Entry, b: Entry) {
    a.table == b.table && a.path == b.path && a.blob == b.blob
  }

  predicate Distinct(es: seq<Entry>) {
    forall i, j :: 0 <= i < j < |es| ==> !SameKey(es[i], es[j])
  }

  /** All columns of one file of a table carry the same size, class and rate, as the producer stamps them. */
  predicate Consistent(es: seq<Entry>) {
    forall a, b :: a in es && b in es && a.table == b.table && a.blob == b.blob ==> a.facts == b.facts
  }

  lemma {:induction false} InsertAllSnoc(tables: Tables, es: seq<Entry>, e: Entry)
    ensures InsertAll(tables, es + [e]) == Insert(InsertAll(tables, es), e)
    decreases |es|
  {
    if es == [] {
      assert [e][1..] == [];
      EmptyUnit([e]);
    } else {
      InsertAllSnoc(Insert(tables, es[0]), es[1..], e);
      assert (es + [e])[0] == es[0] && (es + [e])[1..] == es[1..] + [e];
    }
  }

  lemma {:induction false} MeasuredAfter(tables: Tables, x: Entry, e: Entry)
    ensures Measured(Insert(tables, x), e) <==> Measured(tables, e) || SameKey(x, e)
  {
  }

  lemma {:induction false} MeasuredIff(es: seq<Entry>, e: Entry)
    ensures Measured(InsertAll(map[], es), e) <==> exists i :: 0 <= i < |es| && SameKey(es[i], e)
  {
    if es != [] {
      var front, last := es[..|es| - 1], es[|es| - 1];
      assert es == front + [last];
      MeasuredIff(front, e);
      InsertAllSnoc(map[], front, last);
      MeasuredAfter(InsertAll(map[], front), last, e);
      assert forall i :: 0 <= i < |front| ==> es[i] == front[i];
    }
  }

  lemma {:induction false} DistinctSnoc(es: seq<Entry>, e: Entry)
    ensures Distinct(es + [e]) <==> Distinct(es) && forall i :: 0 <= i < |es| ==> !SameKey(es[i], e)
  {
    var all := es + [e];
    assert forall i :: 0 <= i < |es| ==> all[i] == es[i];
    assert all[|es|] == e;
  }

  predicate NoBad(columns: seq<Column>) {
    forall i :: 0 <= i < |columns| ==> !Prepare(columns[i]).Bad?
  }

  /** The fold is the plain accumulation of records with distinct keys, and fails on others. */
  predicate FoldIs(r: Result<Tables, Error>, es: seq<Entry>) {
    && (r.Ok? <==> Distinct(es))
    && (r.Ok? ==> r.value == InsertAll(map[], es))
    && (r.Err? ==> r.error.Duplicate?)
  }

  lemma {:induction false} AcceptedIs(front: Result<Tables, Error>, es: seq<Entry>, e: Entry)
    requires FoldIs(front, es)
    ensures FoldIs(Accepted(front, e), es + [e])
  {
    MeasuredIff(es, e);
    DistinctSnoc(es, e);
    InsertAllSnoc(map[], es, e);
  }

  /** Among records that are otherwise valid, the fold fails with `Duplicate` exactly when two of them measure the
      same column of the same table in the same file; otherwise it is the plain accumulation. */
  lemma {:induction false} FoldSucceedsIff(columns: seq<Column>)
    requires NoBad(columns)
    ensures FoldIs(Fold(columns), Entries(columns))
  {
    if columns != [] {
      var front, last := columns[..|columns| - 1], columns[|columns| - 1];
      assert forall i :: 0 <= i < |front| ==> front[i] == columns[i];
      FoldSucceedsIff(front);
      if Prepare(last).Good? {
        AcceptedIs(Fold(front), Entries(front), Prepare(last).entry);
      }
    }
  }

  lemma {:induction false} FoldOkHasNoBad(columns: seq<Column>)
    requires Fold(columns).Ok?
    ensures NoBad(columns)
  {
    if columns != [] {
      FoldOkHasNoBad(columns[..|columns| - 1]);
      assert forall i :: 0 <= i < |columns| - 1 ==> columns[..|columns| - 1][i] == columns[i];
    }
  }

  // ----- order independence -----

  lemma {:induction false} AddClassCommutes(
    m: map<Text, real>, a: Option<Text>, x: real, b: Option<Text>, y: real)
    ensures AddClass(AddClass(m, a, x), b, y) == AddClass(AddClass(m, b, y), a, x)
  {
    if a.Some? && b.Some? && a.value != b.value {
      var p, q := AddClass(AddClass(m, a, x), b, y), AddClass(AddClass(m, b, y), a, x);
      assert p.Keys == q.Keys;
    }
  }

  lemma {:induction false} OrInsertCommutes<V>(m: map<Text, V>, a: Text, x: V, b: Text, y: V)
    requires a == b ==> x == y
    ensures OrInsert(OrInsert(m, a, x), b, y) == OrInsert(OrInsert(m, b, y), a, x)
  {
    if a != b {
      assert m[a := x][b := y] == m[b := y][a := x];
    }
  }

  lemma {:induction false} InsertColumnCommutes(c: ColumnBytes, a: Entry, b: Entry)
    requires a.blob != b.blob
    ensures InsertColumn(InsertColumn(c, a), b) == InsertColumn(InsertColumn(c, b), a)
  {
    AddClassCommutes(c.classBytes, a.storage, a.bytes, b.storage, b.bytes);
    var p, q := InsertColumn(InsertColumn(c, a), b), InsertColumn(InsertColumn(c, b), a);
    assert p.blobs == q.blobs;
  }

  lemma {:induction false} InsertTableCommutes(t: TableBytes, a: Entry, b: Entry)
    requires !(a.path == b.path && a.blob == b.blob)
    requires a.blob == b.blob ==> a.facts == b.facts
    ensures InsertTable(InsertTable(t, a), b) == InsertTable(InsertTable(t, b), a)
  {
    AddClassCommutes(t.classBytes, a.storage, a.bytes, b.storage, b.bytes);
    OrInsertCommutes(t.blobs, a.blob, a.facts, b.blob, b.facts);
    var p, q := InsertTable(InsertTable(t, a), b), InsertTable(InsertTable(t, b), a);
    if a.path == b.path {
      InsertColumnCommutes(Get(t.columns, a.path, NO_COLUMN), a, b);
    }
    assert p.columns == q.columns;
  }

  /** Two records of different columns or files can be folded in either order. */
  lemma {:induction false} InsertCommutes(tables: Tables, a: Entry, b: Entry)
    requires !SameKey(a, b)
    requires a.table == b.table && a.blob == b.blob ==> a.facts == b.facts
    ensures Insert(Insert(tables, a), b) == Insert(Insert(tables, b), a)
  {
    if a.table == b.table {
      InsertTableCommutes(Get(tables, a.table, NO_TABLE), a, b);
    }
    assert Insert(Insert(tables, a), b) == Insert(Insert(tables, b), a);
  }

  lemma {:induction false} HeadsOf<T>(a: seq<T>, x: T, b: seq<T>)
    requires a != []
    ensures (a + [x] + b)[0] == a[0] && (a + [x] + b)[1..] == a[1..] + [x] + b
    ensures (a + b)[0] == a[0] && (a + b)[1..] == a[1..] + b
  {
  }

  lemma {:induction false} CommuteThen(tables: Tables, a: Entry, b: Entry, es: seq<Entry>)
    requires !SameKey(a, b)
    requires a.table == b.table && a.blob == b.blob ==> a.facts == b.facts
    ensures InsertAll(Insert(Insert(tables, a), b), es) == InsertAll(Insert(Insert(tables, b), a), es)
  {
    InsertCommutes(tables, a, b);
  }

  lemma {:induction false} MoveToFront(tables: Tables, a: seq<Entry>, x: Entry, b: seq<Entry>)
    requires forall y :: y in a ==> !SameKey(y, x) && (y.table == x.table && y.blob == x.blob ==> y.facts == x.facts)
    ensures InsertAll(tables, a + [x] + b) == InsertAll(Insert(tables, x), a + b)
    decreases |a|
  {
    if a == [] {
      EmptyUnit(b);
      assert (a + [x] + b)[0] == x && (a + [x] + b)[1..] == b;
    } else {
      HeadsOf(a, x, b);
      MoveToFront(Insert(tables, a[0]), a[1..], x, b);
      CommuteThen(tables, a[0], x, a[1..] + b);
    }
  }

  lemma {:induction false} FindIn<T>(s: seq<T>, x: T) returns (k: nat)
    requires x in s
    ensures k < |s| && s[k] == x && s == s[..k] + [x] + s[k + 1..]
  {
    k :| 0 <= k < |s| && s[k] == x;
  }

  lemma {:induction false} DistinctWithout(es: seq<Entry>, k: nat)
    requires Distinct(es) && k < |es|
    ensures Distinct(es[..k] + es[k + 1..])
    ensures forall y :: y in es[..k] ==> !SameKey(y, es[k])
  {
    var rest := es[..k] + es[k + 1..];
    forall i, j | 0 <= i < j < |rest| ensures !SameKey(rest[i], rest[j]) {
      var p, q := if i < k then i else i + 1, if j < k then j else j + 1;
      assert rest[i] == es[p] && rest[j] == es[q] && p < q;
    }
  }

  lemma {:induction false} DistinctTail(es: seq<Entry>)
    requires Distinct(es) && es != []
    ensures Distinct(es[1..])
  {
  }

  lemma {:induction false} BringForward(tables: Tables, b: seq<Entry>, k: nat)
    requires Distinct(b) && Consistent(b) && k < |b|
    ensures InsertAll(tables, b) == InsertAll(Insert(tables, b[k]), b[..k] + b[k + 1..])
    ensures Distinct(b[..k] + b[k + 1..]) && Consistent(b[..k] + b[k + 1..])
  {
    DistinctWithout(b, k);
    assert b == b[..k] + [b[k]] + b[k + 1..];
    assert forall y :: y in b[..k] ==> y in b;
    assert forall y :: y in b[..k] + b[k + 1..] ==> y in b;
    MoveToFront(tables, b[..k], b[k], b[k + 1..]);
  }

  /** Any order of the same records accumulates to the same tables. */
  lemma {:induction false} InsertAllPermutes(tables: Tables, a: seq<Entry>, b: seq<Entry>)
    requires multiset(a) == multiset(b) && Distinct(a) && Distinct(b) && Consistent(b)
    ensures InsertAll(tables, a) == InsertAll(tables, b)
    decreases |a|
  {
    assert |a| == |multiset(a)| && |b| == |multiset(b)|;
    if a != [] {
      Sorting.MemberOfPermutation(a, b, a[0]);
      var k := FindIn(b, a[0]);
      BringForward(tables, b, k);
      DistinctTail(a);
      Sorting.RestsPermute(a, 0, b, k);
      EmptyUnit(a[1..]);
      InsertAllPermutes(Insert(tables, a[0]), a[1..], b[..k] + b[k + 1..]);
    }
  }

  lemma {:induction false} DistinctPermutes(a: seq<Entry>, b: seq<Entry>)
    requires multiset(a) == multiset(b) && Distinct(a)
    ensures Distinct(b)
  {
    forall i, j | 0 <= i < j < |b| ensures !SameKey(b[i], b[j]) {
      if SameKey(b[i], b[j]) {
        SameKeyTwice(a, b, i, j);
      }
    }
  }

  lemma {:induction false} SameKeyTwice(a: seq<Entry>, b: seq<Entry>, i: nat, j: nat)
    requires multiset(a) == multiset(b) && i < j < |b| && SameKey(b[i], b[j])
    ensures !Distinct(a)
  {
    Sorting.MemberOfPermutation(b, a, b[i]);
    var p := FindIn(a, b[i]);
    Sorting.RestsPermute(a, p, b, i);
    var restA, restB := a[..p] + a[p + 1..], b[..i] + b[i + 1..];
    assert b[j] == restB[j - 1];
    Sorting.MemberOfPermutation(restB, restA, b[j]);
    var q := FindIn(restA, b[j]);
    var q' := if q < p then q else q + 1;
    assert a[q'] == b[j];
  }

  lemma {:induction false} EntriesConcat(a: seq<Column>, b: seq<Column>)
    ensures Entries(a + b) == Entries(a) + Entries(b)
  {
    if b == [] {
      EmptyUnit(a);
      EmptyUnit(Entries(a));
    } else {
      var n := |a + b| - 1;
      EntriesConcat(a, b[..|b| - 1]);
      assert (a + b)[..n] == a + b[..|b| - 1] && (a + b)[n] == b[|b| - 1];
    }
  }

  lemma {:induction false} EntriesPermute(a: seq<Column>, b: seq<Column>)
    requires multiset(a) == multiset(b)
    ensures multiset(Entries(a)) == multiset(Entries(b))
    decreases |a|
  {
    assert |a| == |multiset(a)| && |b| == |multiset(b)|;
    if a != [] {
      Sorting.MemberOfPermutation(a, b, a[0]);
      var k := FindIn(b, a[0]);
      Sorting.RestsPermute(a, 0, b, k);
      assert a[..0] + a[1..] == a[1..];
      EntriesPermute(a[1..], b[..k] + b[k + 1..]);
      assert a == [a[0]] + a[1..];
      EntriesConcat([a[0]], a[1..]);
      EntriesConcat(b[..k], b[k + 1..]);
      EntriesConcat(b[..k] + [b[k]], b[k + 1..]);
      EntriesConcat(b[..k], [b[k]]);
    }
  }

  /** Order independence: any permutation of a stream that folds gives the same tables, so the same rows. */
  lemma {:induction false} FoldPermutes(a: seq<Column>, b: seq<Column>)
    requires multiset(a) == multiset(b) && Fold(a).Ok? && Consistent(Entries(a))
    ensures Fold(b) == Fold(a)
  {
    FoldOkHasNoBad(a);
    FoldSucceedsIff(a);
    forall i | 0 <= i < |b| ensures !Prepare(b[i]).Bad? {
      Sorting.MemberOfPermutation(b, a, b[i]);
    }
    FoldSucceedsIff(b);
    EntriesPermute(a, b);
    DistinctPermutes(Entries(a), Entries(b));
    forall x ensures x in Entries(a) <==> x in Entries(b) {
      Sorting.MemberOfPermutation(Entries(a), Entries(b), x);
    }
    InsertAllPermutes(map[], Entries(a), Entries(b));
  }

  /** An otherwise valid stream that holds a duplicate fails, as a duplicate, in every order. */
  lemma {:induction false} FailurePermutes(a: seq<Column>, b: seq<Column>)
    requires multiset(a) == multiset(b) && NoBad(a)
    ensures NoBad(b)
    ensures Fold(a).Err? <==> Fold(b).Err?
    ensures Fold(a).Err? ==> Fold(a).error.Duplicate? && Fold(b).error.Duplicate?
  {
    forall i | 0 <= i < |b| ensures !Prepare(b[i]).Bad? {
      Sorting.MemberOfPermutation(b, a, b[i]);
    }
    FoldSucceedsIff(a);
    FoldSucceedsIff(b);
    EntriesPermute(a, b);
    if Distinct(Entries(a)) {
      DistinctPermutes(Entries(a), Entries(b));
    }
    if Distinct(Entries(b)) {
      DistinctPermutes(Entries(b), Entries(a));
    }
  }

  // ----- every total is the weighted sum of the records behind it -----

  function ColumnAt(tables: Tables, table: Text, path: Text): ColumnBytes {
    Get(Get(tables, table, NO_TABLE).columns, path, NO_COLUMN)
  }

  predicate Of(e: Entry, table: Text, path: Text) {
    e.table == table && e.path == path
  }

  datatype Measure = Compressed | UncompressedBytes | Values | InClass(name: Text) | FileWeight

  function Amount(e: Entry, m: Measure): real {
    match m
    case Compressed => e.bytes
    case UncompressedBytes => if e.uncompressed.Some? then e.uncompressed.value else 0.0
    case Values => e.values
    case InClass(name) => if e.storage == Some(name) then e.bytes else 0.0
    case FileWeight => e.facts.weight
  }

  /** The reference: add up the matching records. */
  function SumOf(es: seq<Entry>, table: Text, path: Text, m: Measure): real {
    if es == [] then 0.0
    else
      var last := es[|es| - 1];
      SumOf(es[..|es| - 1], table, path, m) + if Of(last, table, path) then Amount(last, m) else 0.0
  }

  lemma {:induction false} ColumnAtInsert(tables: Tables, e: Entry, table: Text, path: Text)
    ensures ColumnAt(Insert(tables, e), table, path) ==
            if Of(e, table, path) then InsertColumn(ColumnAt(tables, table, path), e) else ColumnAt(tables, table, path)
  {
  }

  lemma {:induction false} GetAddClass(m: map<Text, real>, storage: Option<Text>, bytes: real, name: Text)
    ensures Get(AddClass(m, storage, bytes), name, 0.0) ==
            Get(m, name, 0.0) + if storage == Some(name) then bytes else 0.0
    ensures name in AddClass(m, storage, bytes) <==> name in m || storage == Some(name)
  {
  }

  lemma {:induction false} ColumnAtSnoc(front: seq<Entry>, last: Entry, table: Text, path: Text)
    ensures
      var c := ColumnAt(InsertAll(map[], front), table, path);
      ColumnAt(InsertAll(map[], front + [last]), table, path) ==
        if Of(last, table, path) then InsertColumn(c, last) else c
  {
    InsertAllSnoc(map[], front, last);
    ColumnAtInsert(InsertAll(map[], front), last, table, path);
  }

  /** A column's totals are the weighted sums over the records that measured it. */
  lemma {:induction false} ColumnIsWeightedSum(es: seq<Entry>, table: Text, path: Text)
    ensures
      var c := ColumnAt(InsertAll(map[], es), table, path);
      && c.compressedBytes == SumOf(es, table, path, Compressed)
      && c.valueCount == SumOf(es, table, path, Values)
      && c.uncompressed.bytes == SumOf(es, table, path, UncompressedBytes)
  {
    if es != [] {
      var front, last := es[..|es| - 1], es[|es| - 1];
      assert es == front + [last];
      ColumnIsWeightedSum(front, table, path);
      ColumnAtSnoc(front, last, table, path);
    }
  }

  /** Its bytes in a storage class are the sum over the records of that class, and the class appears exactly when
      such a record does. */
  lemma {:induction false} ClassIsWeightedSum(es: seq<Entry>, table: Text, path: Text, name: Text)
    ensures
      var c := ColumnAt(InsertAll(map[], es), table, path);
      && Get(c.classBytes, name, 0.0) == SumOf(es, table, path, InClass(name))
      && (name in c.classBytes <==> exists e :: e in es && Of(e, table, path) && e.storage == Some(name))
  {
    if es != [] {
      var front, last := es[..|es| - 1], es[|es| - 1];
      assert es == front + [last];
      ClassIsWeightedSum(front, table, path, name);
      ColumnAtSnoc(front, last, table, path);
      GetAddClass(ColumnAt(InsertAll(map[], front), table, path).classBytes, last.storage, last.bytes, name);
      assert last in es && forall e :: e in front ==> e in es;
    }
  }

  /** What all a table's columns hold in a class: the weighted bytes of every record of the table in it. */
  function TableSum(es: seq<Entry>, table: Text, name: Text): real {
    if es == [] then 0.0
    else
      var last := es[|es| - 1];
      TableSum(es[..|es| - 1], table, name)
      + if last.table == table && last.storage == Some(name) then last.bytes else 0.0
  }

  lemma {:induction false} TableClassInsert(tables: Tables, e: Entry, table: Text, name: Text)
    ensures Get(Get(Insert(tables, e), table, NO_TABLE).classBytes, name, 0.0) ==
            Get(Get(tables, table, NO_TABLE).classBytes, name, 0.0)
            + if e.table == table && e.storage == Some(name) then e.bytes else 0.0
  {
    GetAddClass(Get(tables, e.table, NO_TABLE).classBytes, e.storage, e.bytes, name);
  }

  /** A table's bytes in a class are the weighted sum over exactly its records in that class. */
  lemma {:induction false} TableClassIsWeightedSum(es: seq<Entry>, table: Text, name: Text)
    ensures Get(Get(InsertAll(map[], es), table, NO_TABLE).classBytes, name, 0.0) == TableSum(es, table, name)
  {
    if es != [] {
      var front, last := es[..|es| - 1], es[|es| - 1];
      assert es == front + [last];
      TableClassIsWeightedSum(front, table, name);
      InsertAllSnoc(map[], front, last);
      TableClassInsert(InsertAll(map[], front), last, table, name);
    }
  }

  /** What the first record of a file of the table says of it. */
  function FirstFacts(es: seq<Entry>, table: Text, blob: Text): Option<FileFacts> {
    if es == [] then None
    else
      var front, last := FirstFacts(es[..|es| - 1], table, blob), es[|es| - 1];
      if front.None? && last.table == table && last.blob == blob then Some(last.facts) else front
  }

  /** A table's files are those its records were measured in, each with the facts its first record gives. */
  lemma {:induction false} TableFiles(es: seq<Entry>, table: Text, blob: Text)
    ensures
      var blobs := Get(InsertAll(map[], es), table, NO_TABLE).blobs;
      (if blob in blobs then Some(blobs[blob]) else None) == FirstFacts(es, table, blob)
  {
    if es != [] {
      var front, last := es[..|es| - 1], es[|es| - 1];
      assert es == front + [last];
      TableFiles(front, table, blob);
      InsertAllSnoc(map[], front, last);
    }
  }

  /** A table has a column exactly when some record measures it. */
  lemma {:induction false} TableHasColumn(es: seq<Entry>, table: Text, path: Text)
    ensures
      var tables := InsertAll(map[], es);
      (table in tables && path in tables[table].columns) <==> exists e :: e in es && Of(e, table, path)
  {
    if es != [] {
      var front, last := es[..|es| - 1], es[|es| - 1];
      assert es == front + [last];
      TableHasColumn(front, table, path);
      InsertAllSnoc(map[], front, last);
      assert last in es;
    }
  }

  /** Its files are the files of those records, and its uncompressed total is complete exactly when each of them
      reported one. */
  lemma {:induction false} ColumnFiles(es: seq<Entry>, table: Text, path: Text, blob: Text)
    ensures
      var c := ColumnAt(InsertAll(map[], es), table, path);
      && (c.uncompressed.incomplete <==> exists e :: e in es && Of(e, table, path) && e.uncompressed.None?)
      && (blob in c.blobs <==> exists e :: e in es && Of(e, table, path) && e.blob == blob)
  {
    if es != [] {
      var front, last := es[..|es| - 1], es[|es| - 1];
      assert es == front + [last];
      ColumnFiles(front, table, path, blob);
      ColumnAtSnoc(front, last, table, path);
      assert last in es && forall e :: e in front ==> e in es;
    }
  }

  function Weights(blobs: map<Text, MeasuredFile>): map<Text, real> {
    map b | b in blobs :: blobs[b].weight
  }

  lemma {:induction false} WeightOfNewFile(c: ColumnBytes, e: Entry)
    requires e.blob !in c.blobs
    ensures Total(Weights(InsertColumn(c, e).blobs)) == Total(Weights(c.blobs)) + e.facts.weight
  {
    TotalUpdate(Weights(c.blobs), e.blob, e.facts.weight);
    assert Weights(InsertColumn(c, e).blobs) == Weights(c.blobs)[e.blob := e.facts.weight];
  }

  lemma {:induction false} NotYetMeasured(es: seq<Entry>, e: Entry)
    requires forall i :: 0 <= i < |es| ==> !SameKey(es[i], e)
    ensures e.blob !in ColumnAt(InsertAll(map[], es), e.table, e.path).blobs
  {
    MeasuredIff(es, e);
  }

  /** The weights of its files are the weights of its records: no file of a column is measured twice. */
  lemma {:induction false} FilesAreWeighted(es: seq<Entry>, table: Text, path: Text)
    requires Distinct(es)
    ensures Total(Weights(ColumnAt(InsertAll(map[], es), table, path).blobs)) == SumOf(es, table, path, FileWeight)
  {
    if es == [] {
      assert Weights(NO_COLUMN.blobs) == map[];
    } else {
      var front, last := es[..|es| - 1], es[|es| - 1];
      assert es == front + [last];
      DistinctSnoc(front, last);
      FilesAreWeighted(front, table, path);
      ColumnAtSnoc(front, last, table, path);
      if Of(last, table, path) {
        NotYetMeasured(front, last);
        WeightOfNewFile(ColumnAt(InsertAll(map[], front), table, path), last);
      }
    }
  }

  // ----- conservation of bytes -----

  ghost function FileBytes(c: ColumnBytes): map<Text, real> {
    map b | b in c.blobs :: c.blobs[b].bytes
  }

  /** What each column of a table holds in one storage class. */
  ghost function ClassColumns(t: TableBytes, name: Text): map<Text, real> {
    map p | p in t.columns :: Get(t.columns[p].classBytes, name, 0.0)
  }

  ghost predicate ColumnBalanced(c: ColumnBytes) {
    c.compressedBytes == Total(FileBytes(c))
  }

  ghost predicate TableBalanced(t: TableBytes) {
    && (forall p :: p in t.columns ==> ColumnBalanced(t.columns[p]))
    && (forall name :: Get(t.classBytes, name, 0.0) == Total(ClassColumns(t, name)))
  }

  ghost predicate Balanced(tables: Tables) {
    forall t :: t in tables ==> TableBalanced(tables[t])
  }

  lemma {:induction false} InsertColumnBalanced(c: ColumnBytes, e: Entry)
    requires ColumnBalanced(c)
    ensures ColumnBalanced(InsertColumn(c, e))
  {
    var before := if e.blob in c.blobs then c.blobs[e.blob].bytes else 0.0;
    TotalUpdate(FileBytes(c), e.blob, before + e.bytes);
    assert FileBytes(InsertColumn(c, e)) == FileBytes(c)[e.blob := before + e.bytes];
  }

  lemma {:induction false} InsertTableClass(t: TableBytes, e: Entry, name: Text)
    ensures Get(InsertTable(t, e).classBytes, name, 0.0) ==
            Get(t.classBytes, name, 0.0) + if e.storage == Some(name) then e.bytes else 0.0
  {
    GetAddClass(t.classBytes, e.storage, e.bytes, name);
  }

  lemma {:induction false} InsertTableColumn(t: TableBytes, e: Entry, name: Text)
    ensures
      var before, more := Get(t.columns, e.path, NO_COLUMN), if e.storage == Some(name) then e.bytes else 0.0;
      ClassColumns(InsertTable(t, e), name) ==
        ClassColumns(t, name)[e.path := Get(before.classBytes, name, 0.0) + more]
  {
    GetAddClass(Get(t.columns, e.path, NO_COLUMN).classBytes, e.storage, e.bytes, name);
  }

  /** One part grown by as much as the whole leaves them balanced. */
  lemma {:induction false} TotalGrows(parts: map<Text, real>, key: Text, more: real)
    ensures Total(parts[key := Get(parts, key, 0.0) + more]) == Total(parts) + more
  {
    TotalUpdate(parts, key, Get(parts, key, 0.0) + more);
  }

  lemma {:induction false} ClassColumnAt(t: TableBytes, path: Text, name: Text)
    ensures Get(ClassColumns(t, name), path, 0.0) == Get(Get(t.columns, path, NO_COLUMN).classBytes, name, 0.0)
  {
  }

  lemma {:induction false} ClassStaysBalanced(t: TableBytes, e: Entry, name: Text)
    requires Get(t.classBytes, name, 0.0) == Total(ClassColumns(t, name))
    ensures Get(InsertTable(t, e).classBytes, name, 0.0) == Total(ClassColumns(InsertTable(t, e), name))
  {
    InsertTableClass(t, e, name);
    InsertTableColumn(t, e, name);
    ClassColumnAt(t, e.path, name);
    TotalGrows(ClassColumns(t, name), e.path, if e.storage == Some(name) then e.bytes else 0.0);
  }

  lemma {:induction false} InsertTableBalanced(t: TableBytes, e: Entry)
    requires TableBalanced(t)
    ensures TableBalanced(InsertTable(t, e))
  {
    assert ColumnBalanced(NO_COLUMN) by {
      assert FileBytes(NO_COLUMN) == map[];
    }
    InsertColumnBalanced(Get(t.columns, e.path, NO_COLUMN), e);
    forall name ensures Get(InsertTable(t, e).classBytes, name, 0.0) == Total(ClassColumns(InsertTable(t, e), name)) {
      ClassStaysBalanced(t, e, name);
    }
  }

  /** In every reachable accumulator a column's bytes are the sum over its files, and a table's bytes in each class
      are the sum over its columns. */
  lemma {:induction false} EveryFoldBalances(es: seq<Entry>)
    ensures Balanced(InsertAll(map[], es))
  {
    if es != [] {
      var front, last := es[..|es| - 1], es[|es| - 1];
      assert es == front + [last];
      EveryFoldBalances(front);
      InsertAllSnoc(map[], front, last);
      var tables := InsertAll(map[], front);
      assert TableBalanced(NO_TABLE) by {
        forall name ensures ClassColumns(NO_TABLE, name) == map[] {
        }
      }
      InsertTableBalanced(Get(tables, last.table, NO_TABLE), last);
    }
  }
}
