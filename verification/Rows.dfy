/** The rows a summary returns: one per table column, rounded to whole bytes, with its share of the table's cost. */
module Rows {
  import opened Text
  import opened Sums
  import opened Mass
  import opened Storage
  import opened Records
  import Names

  datatype Row = Row(
    table: Text, column: Text, compressedBytes: nat, uncompressedBytes: Option<nat>, valueCount: nat,
    bytesPerValue: real, compressionRatio: Option<real>, fileCount: nat,
    storageClasses: seq<Text>, storageCosts: seq<Tier>)

  /** `round`, half away from zero, then the cast to `u64`, which stops at zero below. */
  function Round(value: real, field: Text): Result<nat, Error> {
    var rounded := if value >= 0.0 then (value + 0.5).Floor else -((0.5 - value).Floor);
    if rounded >= 0x1_0000_0000_0000_0000 then Err(Overflow(field))
    else Ok(if rounded < 0 then 0 else rounded)
  }

  /** One column's row, or the first of its totals that does not fit. */
  function RowOf(name: Text, path: Text, c: ColumnBytes, fileCount: real, charged: seq<Tier>): Result<Row, Error> {
    var compressed := Round(c.compressedBytes, "compressed_bytes");
    if compressed.Err? then Err(compressed.error) else
    var values := Round(c.valueCount, "value_count");
    if values.Err? then Err(values.error) else
    var uncompressed := Round(c.uncompressed.bytes, "uncompressed_bytes");
    if !c.uncompressed.incomplete && uncompressed.Err? then Err(uncompressed.error) else
    var files := Round(fileCount, "file_count");
    if files.Err? then Err(files.error) else
    var known := if c.uncompressed.incomplete then None else Some(uncompressed.value);
    Ok(Row(
      name, path, compressed.value, known, values.value,
      if values.value > 0 then compressed.value as real / values.value as real else 0.0,
      if known.Some? && compressed.value > 0 then Some(known.value as real / compressed.value as real) else None,
      files.value, SortedKeys(c.classBytes.Keys), charged))
  }

  // ----- gathering the parts in key order -----

  type Parts = map<Text, Result<seq<Row>, Error>>

  /** The parts of the named keys, one after the other, or the first failure. */
  function Gather(parts: Parts, names: seq<Text>): Result<seq<Row>, Error>
    requires forall n :: n in names ==> n in parts
  {
    if names == [] then Ok([])
    else
      var before, part := Gather(parts, names[..|names| - 1]), parts[names[|names| - 1]];
      if before.Err? then before else if part.Err? then part else Ok(before.value + part.value)
  }

  lemma {:induction false} GatherStop(parts: Parts, names: seq<Text>, k: nat)
    requires forall n :: n in names ==> n in parts
    requires k <= |names| && Gather(parts, names[..k]).Err?
    ensures Gather(parts, names) == Gather(parts, names[..k])
  {
    if k < |names| {
      var front := names[..|names| - 1];
      assert front[..k] == names[..k];
      GatherStop(parts, front, k);
    } else {
      WholePrefix(names);
    }
  }

  lemma {:induction false} GatherStep(parts: Parts, front: seq<Text>, last: Text)
    requires last in parts && forall n :: n in front ==> n in parts
    ensures
      Gather(parts, front + [last]) ==
        var before := Gather(parts, front);
        if before.Err? then before else if parts[last].Err? then parts[last] else Ok(before.value + parts[last].value)
  {
    assert (front + [last])[..|front|] == front;
  }

  // ----- the rows of a table, and of every table -----

  function OneRow(row: Result<Row, Error>): Result<seq<Row>, Error> {
    match row
    case Ok(value) => Ok([value])
    case Err(error) => Err(error)
  }

  function Charged(t: TableBytes, path: Text, costs: map<Text, seq<Tier>>): seq<Tier>
    requires path in t.columns
  {
    var c := t.columns[path].classBytes;
    ColumnCostsAlong(c, t.classBytes, costs, SortedKeys(c.Keys))
  }

  function ColumnRowOf(name: Text, path: Text, t: TableBytes, costs: map<Text, seq<Tier>>): Result<Row, Error>
    requires path in t.columns
  {
    RowOf(name, path, t.columns[path], Total(Weights(t.columns[path].blobs)), Charged(t, path, costs))
  }

  function ColumnParts(name: Text, t: TableBytes, costs: map<Text, seq<Tier>>): Parts {
    map path | path in t.columns :: OneRow(ColumnRowOf(name, path, t, costs))
  }

  function RowsOfTable(prices: PriceList, name: Text, t: TableBytes): Result<seq<Row>, Error> {
    Gather(ColumnParts(name, t, ClassCosts(prices, t.blobs)), SortedKeys(t.columns.Keys))
  }

  function TableParts(prices: PriceList, tables: Tables): Parts {
    map name | name in tables :: RowsOfTable(prices, name, tables[name])
  }

  /** The rows, by table and then by column, or the first overflow. */
  function RowsOf(prices: PriceList, tables: Tables): Result<seq<Row>, Error> {
    Gather(TableParts(prices, tables), SortedKeys(tables.Keys))
  }

  function Summarized(columns: seq<Column>): Result<seq<Row>, Error> {
    var tables := Fold(columns);
    if tables.Err? then Err(tables.error) else RowsOf(S3_PRICES, tables.value)
  }

  /** The rows of a summary do not depend on the order of its stream. */
  lemma {:induction false} SummaryPermutes(a: seq<Column>, b: seq<Column>)
    requires multiset(a) == multiset(b) && Fold(a).Ok? && Consistent(Entries(a))
    ensures Summarized(a) == Summarized(b)
  {
    FoldPermutes(a, b);
  }

  // ----- the loops -----

  /** The estimated number of files behind a column, in the order of the keys. */
  method CountFiles(blobs: map<Text, MeasuredFile>, keys: seq<Text>) returns (count: real)
    requires forall k :: k in keys ==> k in blobs
    ensures count == SumAlong(Weights(blobs), keys)
  {
    count := 0.0;
    for k := 0 to |keys|
      invariant count == SumAlong(Weights(blobs), keys[..k])
    {
      Prefix(keys, k);
      count := count + blobs[keys[k]].weight;
    }
    WholePrefix(keys);
  }

  method ColumnRow(name: Text, path: Text, t: TableBytes, costs: map<Text, seq<Tier>>)
    returns (r: Result<Row, Error>)
    requires path in t.columns
    ensures r == ColumnRowOf(name, path, t, costs)
  {
    var c := t.columns[path];
    var files := CountFiles(c.blobs, SortedKeys(c.blobs.Keys));
    SumAlongIsTotal(Weights(c.blobs), SortedKeys(c.blobs.Keys));
    var charged := ColumnCosts(c.classBytes, t.classBytes, costs, SortedKeys(c.classBytes.Keys));
    r := RowOf(name, path, c, files, charged);
  }

  method BuildColumnRows(name: Text, t: TableBytes, costs: map<Text, seq<Tier>>, paths: seq<Text>)
    returns (r: Result<seq<Row>, Error>)
    requires forall p :: p in paths ==> p in t.columns
    ensures r == Gather(ColumnParts(name, t, costs), paths)
  {
    ghost var parts := ColumnParts(name, t, costs);
    var rows: seq<Row> := [];
    for k := 0 to |paths|
      invariant Gather(parts, paths[..k]) == Ok(rows)
    {
      Prefix(paths, k);
      GatherStep(parts, paths[..k], paths[k]);
      var row := ColumnRow(name, paths[k], t, costs);
      if row.Err? {
        GatherStop(parts, paths, k + 1);
        return Err(row.error);
      }
      rows := rows + [row.value];
    }
    WholePrefix(paths);
    return Ok(rows);
  }

  method BuildTableRows(prices: PriceList, name: Text, t: TableBytes) returns (r: Result<seq<Row>, Error>)
    ensures r == RowsOfTable(prices, name, t)
  {
    var costs := TableClassCosts(prices, t.blobs);
    r := BuildColumnRows(name, t, costs, SortedKeys(t.columns.Keys));
  }

  /** The rows of every table, in the order of the names. */
  method BuildRows(prices: PriceList, tables: Tables, names: seq<Text>) returns (r: Result<seq<Row>, Error>)
    requires forall n :: n in names ==> n in tables
    ensures r == Gather(TableParts(prices, tables), names)
  {
    ghost var parts := TableParts(prices, tables);
    var rows: seq<Row> := [];
    for k := 0 to |names|
      invariant Gather(parts, names[..k]) == Ok(rows)
    {
      Prefix(names, k);
      GatherStep(parts, names[..k], names[k]);
      var more := BuildTableRows(prices, names[k], tables[names[k]]);
      if more.Err? {
        GatherStop(parts, names, k + 1);
        return more;
      }
      rows := rows + more.value;
    }
    WholePrefix(names);
    return Ok(rows);
  }

  lemma {:induction false} FoldStop(columns: seq<Column>, k: nat)
    requires k <= |columns| && Fold(columns[..k]).Err?
    ensures Fold(columns) == Fold(columns[..k])
  {
    if k < |columns| {
      var front := columns[..|columns| - 1];
      assert front[..k] == columns[..k];
      FoldStop(front, k);
    } else {
      WholePrefix(columns);
    }
  }

  /** The whole command: fold the stream as it arrives, then price and round the rows. */
  method Summarize(columns: seq<Column>) returns (r: Result<seq<Row>, Error>)
    ensures r == Summarized(columns)
  {
    var summary := new ColumnSummary();
    for k := 0 to |columns|
      invariant summary.Valid() && Fold(columns[..k]) == Ok(summary.tables)
    {
      Prefix(columns, k);
      var added := summary.AddColumn(columns[k]);
      if added.Err? {
        FoldStop(columns, k + 1);
        return Err(added.error);
      }
    }
    WholePrefix(columns);
    r := BuildRows(S3_PRICES, summary.tables, SortedKeys(summary.tables.Keys));
  }

  // ----- the rows carry the whole cost -----

  /** What the rows of one table are charged for one class and tier. */
  ghost function RowCharges(rows: seq<Row>, table: Text, name: Text, access: Option<Text>): real {
    if rows == [] then 0.0
    else
      var last := rows[|rows| - 1];
      RowCharges(rows[..|rows| - 1], table, name, access)
      + if last.table == table then CostAt(last.storageCosts, name, access) else 0.0
  }

  lemma {:induction false} RowChargesConcat(a: seq<Row>, b: seq<Row>, table: Text, name: Text, access: Option<Text>)
    ensures RowCharges(a + b, table, name, access) ==
            RowCharges(a, table, name, access) + RowCharges(b, table, name, access)
  {
    if b == [] {
      EmptyUnit(a);
    } else {
      var n := |a + b| - 1;
      assert (a + b)[..n] == a + b[..|b| - 1] && (a + b)[n] == b[|b| - 1];
      RowChargesConcat(a, b[..|b| - 1], table, name, access);
    }
  }

  /** What each part charges. */
  ghost function PartCharges(parts: Parts, table: Text, name: Text, access: Option<Text>): map<Text, real> {
    map n | n in parts :: if parts[n].Ok? then RowCharges(parts[n].value, table, name, access) else 0.0
  }

  lemma {:induction false} GatherCharges(
    parts: Parts, names: seq<Text>, table: Text, name: Text, access: Option<Text>)
    requires forall n :: n in names ==> n in parts
    requires Gather(parts, names).Ok?
    ensures RowCharges(Gather(parts, names).value, table, name, access) ==
            SumAlong(PartCharges(parts, table, name, access), names)
  {
    if names != [] {
      var front, last := names[..|names| - 1], names[|names| - 1];
      GatherCharges(parts, front, table, name, access);
      RowChargesConcat(Gather(parts, front).value, parts[last].value, table, name, access);
    }
  }

  lemma {:induction false} GatherOk(parts: Parts, names: seq<Text>, n: Text)
    requires forall n :: n in names ==> n in parts
    requires Gather(parts, names).Ok? && n in names
    ensures parts[n].Ok?
  {
    var front, last := names[..|names| - 1], names[|names| - 1];
    assert names == front + [last];
    if n != last {
      GatherOk(parts, front, n);
    }
  }

  /** What each column of a table is charged for one class and tier. */
  ghost function Charges(
    t: TableBytes, costs: map<Text, seq<Tier>>, name: Text, access: Option<Text>): map<Text, real>
  {
    map p | p in t.columns :: CostAt(Charged(t, p, costs), name, access)
  }

  /** Conservation of cost: over a balanced table's columns the shares of every tier of a class with positive bytes
      add up exactly to the table's cost for that tier. */
  lemma {:induction false} SharesAddUp(
    t: TableBytes, costs: map<Text, seq<Tier>>, name: Text, access: Option<Text>)
    requires TableBalanced(t) && Labelled(costs) && name in costs && Get(t.classBytes, name, 0.0) > 0.0
    ensures Total(Charges(t, costs, name, access)) == CostAt(costs[name], name, access)
  {
    var total, cost := t.classBytes[name], CostAt(costs[name], name, access);
    var bytes, charges := ClassColumns(t, name), Charges(t, costs, name, access);
    assert Total(bytes) == total;
    forall p | p in charges ensures charges[p] == Scaled(bytes[p], cost / total) {
      var c := t.columns[p].classBytes;
      ColumnCharge(c, t.classBytes, costs, SortedKeys(c.Keys), name, access);
      ShareOfCost(bytes[p], total, cost);
    }
    TotalScaled(bytes, charges, cost / total);
    ShareOfCost(total, total, cost);
  }

  lemma {:induction false} RowOfFields(name: Text, path: Text, c: ColumnBytes, fileCount: real, charged: seq<Tier>)
    requires RowOf(name, path, c, fileCount, charged).Ok?
    ensures
      var row := RowOf(name, path, c, fileCount, charged).value;
      row.table == name && row.column == path && row.storageCosts == charged
      && row.storageClasses == SortedKeys(c.classBytes.Keys)
  {
  }

  lemma {:induction false} ColumnRowFields(name: Text, path: Text, t: TableBytes, costs: map<Text, seq<Tier>>)
    requires path in t.columns && ColumnRowOf(name, path, t, costs).Ok?
    ensures
      var row := ColumnRowOf(name, path, t, costs).value;
      row.table == name && row.column == path && row.storageCosts == Charged(t, path, costs)
  {
    RowOfFields(name, path, t.columns[path], Total(Weights(t.columns[path].blobs)), Charged(t, path, costs));
  }

  lemma {:induction false} ColumnPartCharge(
    of: Text, t: TableBytes, costs: map<Text, seq<Tier>>, path: Text, table: Text, name: Text, access: Option<Text>)
    requires path in t.columns && ColumnParts(of, t, costs)[path].Ok?
    ensures RowCharges(ColumnParts(of, t, costs)[path].value, table, name, access) ==
            if of == table then CostAt(Charged(t, path, costs), name, access) else 0.0
  {
    ColumnRowFields(of, path, t, costs);
    var row := ColumnRowOf(of, path, t, costs).value;
    assert [row][..0] == [];
  }

  lemma {:induction false} AllPartsOk(parts: Parts)
    requires Gather(parts, SortedKeys(parts.Keys)).Ok?
    ensures forall p :: p in parts ==> parts[p].Ok?
  {
    forall p | p in parts ensures parts[p].Ok? {
      GatherOk(parts, SortedKeys(parts.Keys), p);
    }
  }

  lemma {:induction false} ExpectedCharges(
    parts: Parts, expected: map<Text, real>, table: Text, name: Text, access: Option<Text>)
    requires parts.Keys == expected.Keys
    requires forall p :: p in parts ==> parts[p].Ok? && RowCharges(parts[p].value, table, name, access) == expected[p]
    ensures PartCharges(parts, table, name, access) == expected
  {
  }

  lemma {:induction false} GatherChargesTotal(parts: Parts, table: Text, name: Text, access: Option<Text>)
    requires Gather(parts, SortedKeys(parts.Keys)).Ok?
    ensures RowCharges(Gather(parts, SortedKeys(parts.Keys)).value, table, name, access) ==
            Total(PartCharges(parts, table, name, access))
  {
    GatherCharges(parts, SortedKeys(parts.Keys), table, name, access);
    SumAlongIsTotal(PartCharges(parts, table, name, access), SortedKeys(parts.Keys));
  }

  /** When every part charges what is expected of it, so do all of them together. */
  lemma {:induction false} GatherTotals(
    parts: Parts, expected: map<Text, real>, table: Text, name: Text, access: Option<Text>)
    requires parts.Keys == expected.Keys && Gather(parts, SortedKeys(parts.Keys)).Ok?
    requires forall p :: p in parts && parts[p].Ok? ==> RowCharges(parts[p].value, table, name, access) == expected[p]
    ensures RowCharges(Gather(parts, SortedKeys(parts.Keys)).value, table, name, access) == Total(expected)
  {
    GatherChargesTotal(parts, table, name, access);
    AllPartsOk(parts);
    ExpectedCharges(parts, expected, table, name, access);
  }

  lemma {:induction false} TotalOfZeros(m: map<Text, real>)
    requires forall k :: k in m ==> m[k] == 0.0
    ensures Total(m) == 0.0
  {
    TotalScaled(m, m, 0.0);
  }

  lemma {:induction false} TotalOfOne(m: map<Text, real>, k: Text)
    requires k in m && forall x :: x in m && x != k ==> m[x] == 0.0
    ensures Total(m) == m[k]
  {
    TotalWithout(m, k);
    TotalOfZeros(m - {k});
  }

  lemma {:induction false} GatherNothing(parts: Parts, table: Text, name: Text, access: Option<Text>)
    requires Gather(parts, SortedKeys(parts.Keys)).Ok?
    requires forall p :: p in parts && parts[p].Ok? ==> RowCharges(parts[p].value, table, name, access) == 0.0
    ensures RowCharges(Gather(parts, SortedKeys(parts.Keys)).value, table, name, access) == 0.0
  {
    var expected := map p | p in parts :: 0.0;
    GatherTotals(parts, expected, table, name, access);
    TotalOfZeros(expected);
  }

  lemma {:induction false} GatherOne(parts: Parts, table: Text, whole: real, name: Text, access: Option<Text>)
    requires table in parts && Gather(parts, SortedKeys(parts.Keys)).Ok?
    requires forall p :: p in parts && parts[p].Ok? ==>
      RowCharges(parts[p].value, table, name, access) == if p == table then whole else 0.0
    ensures RowCharges(Gather(parts, SortedKeys(parts.Keys)).value, table, name, access) == whole
  {
    var expected := map p | p in parts :: if p == table then whole else 0.0;
    GatherTotals(parts, expected, table, name, access);
    TotalOfOne(expected, table);
  }

  lemma {:induction false} RowsOfTableCharges(
    prices: PriceList, of: Text, t: TableBytes, table: Text, name: Text, access: Option<Text>)
    requires RowsOfTable(prices, of, t).Ok?
    ensures RowCharges(RowsOfTable(prices, of, t).value, table, name, access) ==
            if of == table then Total(Charges(t, ClassCosts(prices, t.blobs), name, access)) else 0.0
  {
    ColumnsCharge(of, t, ClassCosts(prices, t.blobs), table, name, access);
  }

  lemma {:induction false} ColumnsCharge(
    of: Text, t: TableBytes, costs: map<Text, seq<Tier>>, table: Text, name: Text, access: Option<Text>)
    requires Gather(ColumnParts(of, t, costs), SortedKeys(t.columns.Keys)).Ok?
    ensures RowCharges(Gather(ColumnParts(of, t, costs), SortedKeys(t.columns.Keys)).value, table, name, access) ==
            if of == table then Total(Charges(t, costs, name, access)) else 0.0
  {
    var parts := ColumnParts(of, t, costs);
    assert parts.Keys == t.columns.Keys;
    forall p | p in parts && parts[p].Ok?
      ensures RowCharges(parts[p].value, table, name, access) ==
              if of == table then CostAt(Charged(t, p, costs), name, access) else 0.0
    {
      ColumnPartCharge(of, t, costs, p, table, name, access);
    }
    if of == table {
      GatherTotals(parts, Charges(t, costs, name, access), table, name, access);
    } else {
      GatherNothing(parts, table, name, access);
    }
  }

  lemma {:induction false} RowsOfCharges(
    prices: PriceList, tables: Tables, table: Text, name: Text, access: Option<Text>)
    requires RowsOf(prices, tables).Ok? && table in tables
    ensures RowCharges(RowsOf(prices, tables).value, table, name, access) ==
            Total(Charges(tables[table], ClassCosts(prices, tables[table].blobs), name, access))
  {
    var parts := TableParts(prices, tables);
    var whole := Total(Charges(tables[table], ClassCosts(prices, tables[table].blobs), name, access));
    forall n | n in parts && parts[n].Ok?
      ensures RowCharges(parts[n].value, table, name, access) == if n == table then whole else 0.0
    {
      RowsOfTableCharges(prices, n, tables[n], table, name, access);
    }
    assert parts.Keys == tables.Keys;
    GatherOne(parts, table, whole, name, access);
  }

  lemma {:induction false} CostsAreLabelled(prices: PriceList, blobs: map<Text, FileFacts>)
    ensures Labelled(ClassCosts(prices, blobs))
  {
    forall name, k | name in ClassCosts(prices, blobs) && 0 <= k < |ClassCosts(prices, blobs)[name]|
      ensures ClassCosts(prices, blobs)[name][k].storageClass == name
    {
      ClassCostsIff(prices, blobs, name);
    }
  }

  /** Conservation over the rows a summary returns: for each priced, complete class in which a table has bytes, and
      each access tier, the rows of the table add up exactly to the table's cost. */
  lemma {:induction false} RowsCarryTheCost(
    prices: PriceList, es: seq<Entry>, table: Text, name: Text, access: Option<Text>)
    requires table in InsertAll(map[], es) && RowsOf(prices, InsertAll(map[], es)).Ok?
    requires name in ClassCosts(prices, InsertAll(map[], es)[table].blobs)
    requires Get(InsertAll(map[], es)[table].classBytes, name, 0.0) > 0.0
    ensures RowCharges(RowsOf(prices, InsertAll(map[], es)).value, table, name, access) ==
            CostAt(ClassCosts(prices, InsertAll(map[], es)[table].blobs)[name], name, access)
  {
    var tables := InsertAll(map[], es);
    EveryFoldBalances(es);
    CostsAreLabelled(prices, tables[table].blobs);
    RowsOfCharges(prices, tables, table, name, access);
    SharesAddUp(tables[table], ClassCosts(prices, tables[table].blobs), name, access);
  }

  // ----- the rows are sorted, one per column -----

  predicate RowBefore(a: Row, b: Row) {
    if a.table == b.table then Le(a.column, b.column) && a.column != b.column else Le(a.table, b.table)
  }

  ghost predicate RowsAscend(rows: seq<Row>) {
    forall i, j {:trigger RowBefore(rows[i], rows[j])} :: 0 <= i < j < |rows| ==> RowBefore(rows[i], rows[j])
  }

  predicate IsRow(rows: seq<Row>, table: Text, column: Text) {
    exists r :: r in rows && r.table == table && r.column == column
  }

  lemma {:induction false} IsRowConcat(a: seq<Row>, b: seq<Row>, table: Text, column: Text)
    ensures IsRow(a + b, table, column) <==> IsRow(a, table, column) || IsRow(b, table, column)
  {
    if IsRow(a, table, column) {
      var r :| r in a && r.table == table && r.column == column;
      assert r in a + b;
    }
    if IsRow(b, table, column) {
      var r :| r in b && r.table == table && r.column == column;
      assert r in a + b;
    }
  }

  lemma {:induction false} RowsAscendConcat(a: seq<Row>, b: seq<Row>)
    requires RowsAscend(a) && RowsAscend(b)
    requires forall x, y :: x in a && y in b ==> RowBefore(x, y)
    ensures RowsAscend(a + b)
  {
    var rows := a + b;
    forall i, j | 0 <= i < j < |rows| ensures RowBefore(rows[i], rows[j]) {
      if j < |a| {
        assert RowBefore(a[i], a[j]);
      } else if i >= |a| {
        assert RowBefore(b[i - |a|], b[j - |a|]);
      } else {
        assert a[i] in a && b[j - |a|] in b;
      }
    }
  }

  lemma {:induction false} GatheredRows(parts: Parts, names: seq<Text>, table: Text, column: Text)
    requires forall n :: n in names ==> n in parts
    requires Gather(parts, names).Ok?
    ensures IsRow(Gather(parts, names).value, table, column) <==>
            exists n :: n in names && parts[n].Ok? && IsRow(parts[n].value, table, column)
  {
    if names != [] {
      var front, last := names[..|names| - 1], names[|names| - 1];
      assert names == front + [last];
      GatheredRows(parts, front, table, column);
      IsRowConcat(Gather(parts, front).value, parts[last].value, table, column);
      assert last in names;
    }
  }

  predicate Follows(earlier: Result<seq<Row>, Error>, later: Result<seq<Row>, Error>) {
    earlier.Ok? && later.Ok? ==> forall a, b :: a in earlier.value && b in later.value ==> RowBefore(a, b)
  }

  /** Parts that ascend, and follow each other in key order, ascend together. */
  lemma {:induction false} GatherAscends(parts: Parts, names: seq<Text>)
    requires forall n :: n in names ==> n in parts
    requires Gather(parts, names).Ok?
    requires forall n :: n in names && parts[n].Ok? ==> RowsAscend(parts[n].value)
    requires forall i, j | 0 <= i < j < |names| :: Follows(parts[names[i]], parts[names[j]])
    ensures RowsAscend(Gather(parts, names).value)
    ensures forall a :: a in Gather(parts, names).value ==>
      exists i :: 0 <= i < |names| && parts[names[i]].Ok? && a in parts[names[i]].value
  {
    if names != [] {
      var n := |names| - 1;
      var front, last := names[..n], names[n];
      assert names == front + [last];
      GatherAscends(parts, front);
      var before, now := Gather(parts, front).value, parts[last].value;
      forall a, b | a in before && b in now ensures RowBefore(a, b) {
        var i :| 0 <= i < n && parts[front[i]].Ok? && a in parts[front[i]].value;
        assert Follows(parts[names[i]], parts[names[n]]);
      }
      RowsAscendConcat(before, now);
      forall a | a in before + now
        ensures exists i :: 0 <= i < |names| && parts[names[i]].Ok? && a in parts[names[i]].value
      {
        if a in before {
          var i :| 0 <= i < n && parts[front[i]].Ok? && a in parts[front[i]].value;
          assert names[i] == front[i];
        } else {
          assert a in parts[names[n]].value;
        }
      }
    }
  }

  lemma {:induction false} ColumnPartRow(name: Text, t: TableBytes, costs: map<Text, seq<Tier>>, path: Text)
    requires path in t.columns && ColumnParts(name, t, costs)[path].Ok?
    ensures |ColumnParts(name, t, costs)[path].value| == 1
    ensures
      var row := ColumnParts(name, t, costs)[path].value[0];
      row.table == name && row.column == path
  {
    ColumnRowFields(name, path, t, costs);
  }

  /** Whether a part holds the one row of a column. */
  predicate IsColumnPart(part: Result<seq<Row>, Error>, table: Text, column: Text) {
    part.Ok? ==> |part.value| == 1 && part.value[0].table == table && part.value[0].column == column
  }

  lemma {:induction false} ColumnPartsFollow(
    earlier: Result<seq<Row>, Error>, later: Result<seq<Row>, Error>, table: Text, a: Text, b: Text)
    requires IsColumnPart(earlier, table, a) && IsColumnPart(later, table, b) && Le(a, b) && a != b
    ensures Follows(earlier, later)
  {
  }

  /** Single rows, each in its own column of one table, gather to the table's columns in order. */
  lemma {:induction false} SingleRowsGather(parts: Parts, name: Text)
    requires Gather(parts, SortedKeys(parts.Keys)).Ok?
    requires forall p :: p in parts ==> IsColumnPart(parts[p], name, p)
    ensures RowsAscend(Gather(parts, SortedKeys(parts.Keys)).value)
  {
    var keys := SortedKeys(parts.Keys);
    SortedKeysAscend(parts.Keys);
    forall i, j | 0 <= i < j < |keys| ensures Follows(parts[keys[i]], parts[keys[j]]) {
      assert Le(keys[i], keys[j]);
      ColumnPartsFollow(parts[keys[i]], parts[keys[j]], name, keys[i], keys[j]);
    }
    GatherAscends(parts, keys);
  }

  lemma {:induction false} ColumnPartIs(
    part: Result<seq<Row>, Error>, name: Text, path: Text, table: Text, column: Text)
    requires part.Ok? && IsColumnPart(part, name, path)
    ensures IsRow(part.value, table, column) <==> table == name && column == path
  {
    assert part.value[0] in part.value;
  }

  lemma {:induction false} SingleRowsAre(parts: Parts, name: Text, table: Text, column: Text)
    requires Gather(parts, SortedKeys(parts.Keys)).Ok?
    requires forall p :: p in parts ==> IsColumnPart(parts[p], name, p)
    ensures IsRow(Gather(parts, SortedKeys(parts.Keys)).value, table, column) <==> table == name && column in parts
  {
    var keys := SortedKeys(parts.Keys);
    GatheredRows(parts, keys, table, column);
    if column in parts {
      GatherOk(parts, keys, column);
      ColumnPartIs(parts[column], name, column, table, column);
    }
    forall p | p in keys && parts[p].Ok? && IsRow(parts[p].value, table, column) ensures table == name && column == p {
      ColumnPartIs(parts[p], name, p, table, column);
    }
  }

  /** Whether a part holds one table's columns, in order. */
  ghost predicate IsTablePart(part: Result<seq<Row>, Error>, name: Text, columns: set<Text>) {
    part.Ok? ==>
      RowsAscend(part.value)
      && forall table, column :: IsRow(part.value, table, column) <==> table == name && column in columns
  }

  lemma {:induction false} TablePartsFollow(
    earlier: Result<seq<Row>, Error>, later: Result<seq<Row>, Error>,
    a: Text, before: set<Text>, b: Text, after: set<Text>)
    requires IsTablePart(earlier, a, before) && IsTablePart(later, b, after) && Le(a, b) && a != b
    ensures Follows(earlier, later)
  {
    if earlier.Ok? && later.Ok? {
      forall x, y | x in earlier.value && y in later.value ensures RowBefore(x, y) {
        assert IsRow(earlier.value, x.table, x.column) && IsRow(later.value, y.table, y.column);
      }
    }
  }

  /** Ascending tables gather to ascending rows. */
  lemma {:induction false} TablesGather(parts: Parts, columns: map<Text, set<Text>>)
    requires parts.Keys == columns.Keys && Gather(parts, SortedKeys(parts.Keys)).Ok?
    requires forall n :: n in parts ==> IsTablePart(parts[n], n, columns[n])
    ensures RowsAscend(Gather(parts, SortedKeys(parts.Keys)).value)
  {
    var keys := SortedKeys(parts.Keys);
    SortedKeysAscend(parts.Keys);
    forall i, j | 0 <= i < j < |keys| ensures Follows(parts[keys[i]], parts[keys[j]]) {
      assert Le(keys[i], keys[j]);
      TablePartsFollow(
        parts[keys[i]], parts[keys[j]], keys[i], columns[keys[i]], keys[j], columns[keys[j]]);
    }
    GatherAscends(parts, keys);
  }

  lemma {:induction false} TablesAre(parts: Parts, columns: map<Text, set<Text>>, table: Text, column: Text)
    requires parts.Keys == columns.Keys && Gather(parts, SortedKeys(parts.Keys)).Ok?
    requires forall n :: n in parts ==> IsTablePart(parts[n], n, columns[n])
    ensures IsRow(Gather(parts, SortedKeys(parts.Keys)).value, table, column) <==>
            table in columns && column in columns[table]
  {
    var keys := SortedKeys(parts.Keys);
    GatheredRows(parts, keys, table, column);
    if table in columns {
      GatherOk(parts, keys, table);
    }
  }

  /** The rows of one table: its columns, in order. */
  lemma {:induction false} RowsOfTableAre(prices: PriceList, name: Text, t: TableBytes)
    ensures IsTablePart(RowsOfTable(prices, name, t), name, t.columns.Keys)
  {
    var costs := ClassCosts(prices, t.blobs);
    var parts := ColumnParts(name, t, costs);
    assert parts.Keys == t.columns.Keys;
    forall p | p in parts ensures IsColumnPart(parts[p], name, p) {
      if parts[p].Ok? {
        ColumnPartRow(name, t, costs, p);
      }
    }
    if RowsOfTable(prices, name, t).Ok? {
      SingleRowsGather(parts, name);
      forall table, column
        ensures IsRow(RowsOfTable(prices, name, t).value, table, column) <==>
                table == name && column in t.columns.Keys
      {
        SingleRowsAre(parts, name, table, column);
      }
    }
  }

  ghost function ColumnsOf(tables: Tables): map<Text, set<Text>> {
    map n | n in tables :: tables[n].columns.Keys
  }

  lemma {:induction false} PartOfTable(prices: PriceList, tables: Tables, n: Text)
    requires n in tables
    ensures TableParts(prices, tables)[n] == RowsOfTable(prices, n, tables[n])
  {
  }

  lemma {:induction false} TablePartAre(prices: PriceList, tables: Tables, n: Text)
    requires n in tables
    ensures IsTablePart(TableParts(prices, tables)[n], n, tables[n].columns.Keys)
  {
    PartOfTable(prices, tables, n);
    RowsOfTableAre(prices, n, tables[n]);
  }

  lemma {:induction false} TablePartsAre(prices: PriceList, tables: Tables, parts: Parts, columns: map<Text, set<Text>>)
    requires parts == TableParts(prices, tables) && columns == ColumnsOf(tables)
    ensures parts.Keys == tables.Keys == columns.Keys
    ensures forall n :: n in parts ==> IsTablePart(parts[n], n, columns[n])
  {
    assert parts.Keys == tables.Keys == columns.Keys;
    forall n | n in parts ensures IsTablePart(parts[n], n, columns[n]) {
      TablePartAre(prices, tables, n);
    }
  }

  lemma {:induction false} RowsOfAre(prices: PriceList, tables: Tables)
    requires RowsOf(prices, tables).Ok?
    ensures RowsAscend(RowsOf(prices, tables).value)
    ensures forall table, column :: IsRow(RowsOf(prices, tables).value, table, column) <==>
      table in tables && column in tables[table].columns
  {
    var parts, columns := TableParts(prices, tables), ColumnsOf(tables);
    TablePartsAre(prices, tables, parts, columns);
    TablesGather(parts, columns);
    forall table, column
      ensures IsRow(RowsOf(prices, tables).value, table, column) <==>
              table in tables && column in tables[table].columns
    {
      TablesAre(parts, columns, table, column);
    }
  }

  /** A summary has one row for each column of each table that some record measures, sorted by table and then by
      column. */
  lemma {:induction false} SummaryIsSorted(columns: seq<Column>)
    requires Summarized(columns).Ok?
    ensures RowsAscend(Summarized(columns).value)
    ensures forall table, path :: IsRow(Summarized(columns).value, table, path) <==> IsMeasured(columns, table, path)
  {
    RowsOfAre(S3_PRICES, Fold(columns).value);
    Folded(columns);
    forall table, path
      ensures IsRow(Summarized(columns).value, table, path) <==> IsMeasured(columns, table, path)
    {
      TableHasColumn(Entries(columns), table, path);
      HasEntryIff(columns, table, path);
    }
  }

  // ----- a row's totals -----

  /** Rounded to the nearest whole number, a half up. */
  predicate Near(n: nat, x: real) {
    x - 0.5 < n as real <= x + 0.5
  }

  lemma {:induction false} RoundIsNear(x: real, field: Text)
    requires x >= 0.0 && Round(x, field).Ok?
    ensures Near(Round(x, field).value, x)
  {
  }

  /** What a row says of the totals it was made from. */
  predicate Tells(row: Row, c: ColumnBytes, fileCount: real) {
    && Near(row.compressedBytes, c.compressedBytes) && Near(row.valueCount, c.valueCount)
    && Near(row.fileCount, fileCount)
    && (row.uncompressedBytes.Some? <==> !c.uncompressed.incomplete)
    && (row.uncompressedBytes.Some? ==> Near(row.uncompressedBytes.value, c.uncompressed.bytes))
  }

  /** The two quotients of a row: they give their numerators back, and a row without values or without bytes has
      none. */
  predicate Divided(row: Row) {
    && row.bytesPerValue * row.valueCount as real == (if row.valueCount > 0 then row.compressedBytes as real else 0.0)
    && (row.valueCount == 0 ==> row.bytesPerValue == 0.0)
    && (row.compressionRatio.Some? <==> row.uncompressedBytes.Some? && row.compressedBytes > 0)
    && (row.compressionRatio.Some? ==>
          row.compressionRatio.value * row.compressedBytes as real == row.uncompressedBytes.value as real)
  }

  lemma {:induction false} RowOfTells(name: Text, path: Text, c: ColumnBytes, fileCount: real, charged: seq<Tier>)
    requires RowOf(name, path, c, fileCount, charged).Ok?
    requires c.compressedBytes >= 0.0 && c.valueCount >= 0.0 && c.uncompressed.bytes >= 0.0 && fileCount >= 0.0
    ensures Tells(RowOf(name, path, c, fileCount, charged).value, c, fileCount)
  {
    RoundIsNear(c.compressedBytes, "compressed_bytes");
    RoundIsNear(c.valueCount, "value_count");
    RoundIsNear(fileCount, "file_count");
    if !c.uncompressed.incomplete {
      RoundIsNear(c.uncompressed.bytes, "uncompressed_bytes");
    }
  }

  lemma {:induction false} RowOfDivides(name: Text, path: Text, c: ColumnBytes, fileCount: real, charged: seq<Tier>)
    requires RowOf(name, path, c, fileCount, charged).Ok?
    ensures Divided(RowOf(name, path, c, fileCount, charged).value)
  {
    var row := RowOf(name, path, c, fileCount, charged).value;
    DividesBack(row.compressedBytes, row.valueCount);
    DividesBack(OrZero(row.uncompressedBytes), row.compressedBytes);
  }

  lemma {:induction false} DividesBack(a: nat, b: nat)
    ensures b > 0 ==> (a as real / b as real) * b as real == a as real
  {
  }

  lemma {:induction false} GatherMember(parts: Parts, names: seq<Text>, row: Row) returns (n: Text)
    requires forall n :: n in names ==> n in parts
    requires Gather(parts, names).Ok? && row in Gather(parts, names).value
    ensures n in names && parts[n].Ok? && row in parts[n].value
  {
    var front, last := names[..|names| - 1], names[|names| - 1];
    assert names == front + [last];
    if row in parts[last].value {
      n := last;
    } else {
      n := GatherMember(parts, front, row);
    }
  }

  lemma {:induction false} PartHoldsRow(name: Text, t: TableBytes, costs: map<Text, seq<Tier>>, p: Text, row: Row)
    requires p in t.columns && ColumnParts(name, t, costs)[p].Ok? && row in ColumnParts(name, t, costs)[p].value
    ensures row.table == name && row.column == p && ColumnRowOf(name, p, t, costs) == Ok(row)
  {
    ColumnRowFields(name, p, t, costs);
  }

  lemma {:induction false} ColumnOfRow(name: Text, t: TableBytes, costs: map<Text, seq<Tier>>, row: Row)
    requires Gather(ColumnParts(name, t, costs), SortedKeys(t.columns.Keys)).Ok?
    requires row in Gather(ColumnParts(name, t, costs), SortedKeys(t.columns.Keys)).value
    ensures row.table == name && row.column in t.columns && ColumnRowOf(name, row.column, t, costs) == Ok(row)
  {
    var p := GatherMember(ColumnParts(name, t, costs), SortedKeys(t.columns.Keys), row);
    PartHoldsRow(name, t, costs, p, row);
  }

  lemma {:induction false} RowOfTableIs(prices: PriceList, name: Text, t: TableBytes, row: Row)
    requires RowsOfTable(prices, name, t).Ok? && row in RowsOfTable(prices, name, t).value
    ensures row.table == name && row.column in t.columns
    ensures ColumnRowOf(name, row.column, t, ClassCosts(prices, t.blobs)) == Ok(row)
  {
    ColumnOfRow(name, t, ClassCosts(prices, t.blobs), row);
  }

  lemma {:induction false} RowComesFrom(prices: PriceList, tables: Tables, row: Row)
    requires RowsOf(prices, tables).Ok? && row in RowsOf(prices, tables).value
    ensures row.table in tables && row.column in tables[row.table].columns
    ensures
      var t := tables[row.table];
      ColumnRowOf(row.table, row.column, t, ClassCosts(prices, t.blobs)) == Ok(row)
  {
    var n := GatherMember(TableParts(prices, tables), SortedKeys(tables.Keys), row);
    PartOfTable(prices, tables, n);
    RowOfTableIs(prices, n, tables[n], row);
  }

  predicate NonNegative(es: seq<Entry>) {
    forall e :: e in es ==> IsNonNegative(e)
  }

  lemma {:induction false} SumIsNonNegative(es: seq<Entry>, table: Text, path: Text)
    requires NonNegative(es)
    ensures SumOf(es, table, path, Compressed) >= 0.0
    ensures SumOf(es, table, path, Values) >= 0.0
    ensures SumOf(es, table, path, UncompressedBytes) >= 0.0
    ensures SumOf(es, table, path, FileWeight) >= 0.0
  {
    if es != [] {
      var front, last := es[..|es| - 1], es[|es| - 1];
      assert es == front + [last];
      SumIsNonNegative(front, table, path);
      assert last in es;
    }
  }

  lemma {:induction false} EntriesAreNonNegative(columns: seq<Column>)
    ensures NonNegative(Entries(columns))
  {
    if columns != [] {
      EntriesAreNonNegative(columns[..|columns| - 1]);
      var last := columns[|columns| - 1];
      if Prepare(last).Good? {
        PreparedIsNonNegative(last);
      }
    }
  }

  lemma {:induction false} Folded(columns: seq<Column>)
    requires Fold(columns).Ok?
    ensures NoBad(columns) && Distinct(Entries(columns)) && Fold(columns).value == InsertAll(map[], Entries(columns))
  {
    FoldOkHasNoBad(columns);
    FoldSucceedsIff(columns);
  }

  lemma {:induction false} RowOfFold(columns: seq<Column>, row: Row)
    requires Summarized(columns).Ok? && row in Summarized(columns).value
    ensures Fold(columns) == Ok(InsertAll(map[], Entries(columns)))
    ensures row.table in Fold(columns).value && row.column in Fold(columns).value[row.table].columns
    ensures
      var t := Fold(columns).value[row.table];
      ColumnRowOf(row.table, row.column, t, ClassCosts(S3_PRICES, t.blobs)) == Ok(row)
      && t.columns[row.column] == ColumnAt(Fold(columns).value, row.table, row.column)
  {
    FoldOkHasNoBad(columns);
    FoldSucceedsIff(columns);
    RowComesFrom(S3_PRICES, Fold(columns).value, row);
  }

  lemma {:induction false} ColumnRowClasses(name: Text, path: Text, t: TableBytes, costs: map<Text, seq<Tier>>)
    requires path in t.columns && ColumnRowOf(name, path, t, costs).Ok?
    ensures ColumnRowOf(name, path, t, costs).value.storageClasses == SortedKeys(t.columns[path].classBytes.Keys)
  {
    RowOfFields(name, path, t.columns[path], Total(Weights(t.columns[path].blobs)), Charged(t, path, costs));
  }

  /** A row names, in order, exactly the storage classes that records of its column report. */
  lemma {:induction false} RowClasses(columns: seq<Column>, row: Row, name: Text)
    requires Summarized(columns).Ok? && row in Summarized(columns).value
    ensures Ascending(row.storageClasses)
    ensures name in row.storageClasses <==> HasClass(columns, row.table, row.column, name)
  {
    RowOfFold(columns, row);
    Folded(columns);
    var t := Fold(columns).value[row.table];
    ColumnRowClasses(row.table, row.column, t, ClassCosts(S3_PRICES, t.blobs));
    SortedKeysAscend(t.columns[row.column].classBytes.Keys);
    ClassIsWeightedSum(Entries(columns), row.table, row.column, name);
    HasClassIff(columns, row.table, row.column, name);
  }

  /** What a row says of the entries it was made from. */
  ghost predicate TellsOf(row: Row, es: seq<Entry>) {
    && Near(row.compressedBytes, SumOf(es, row.table, row.column, Compressed))
    && Near(row.valueCount, SumOf(es, row.table, row.column, Values))
    && Near(row.fileCount, SumOf(es, row.table, row.column, FileWeight))
    && (row.uncompressedBytes.Some? <==> forall e :: e in es && Of(e, row.table, row.column) ==> e.uncompressed.Some?)
    && (row.uncompressedBytes.Some? ==>
          Near(row.uncompressedBytes.value, SumOf(es, row.table, row.column, UncompressedBytes)))
  }

  lemma {:induction false} EntriesTell(es: seq<Entry>, table: Text, path: Text, charged: seq<Tier>)
    requires NonNegative(es) && Distinct(es)
    requires
      var c := ColumnAt(InsertAll(map[], es), table, path);
      RowOf(table, path, c, Total(Weights(c.blobs)), charged).Ok?
    ensures
      var c := ColumnAt(InsertAll(map[], es), table, path);
      TellsOf(RowOf(table, path, c, Total(Weights(c.blobs)), charged).value, es)
  {
    var c := ColumnAt(InsertAll(map[], es), table, path);
    ColumnIsWeightedSum(es, table, path);
    ColumnFiles(es, table, path, []);
    FilesAreWeighted(es, table, path);
    SumIsNonNegative(es, table, path);
    RowOfTells(table, path, c, Total(Weights(c.blobs)), charged);
    RowOfFields(table, path, c, Total(Weights(c.blobs)), charged);
  }

  lemma {:induction false} RowTells(columns: seq<Column>, row: Row)
    requires Summarized(columns).Ok? && row in Summarized(columns).value
    ensures TellsOf(row, Entries(columns))
  {
    RowOfFold(columns, row);
    Folded(columns);
    EntriesAreNonNegative(columns);
    var t := Fold(columns).value[row.table];
    EntriesTell(Entries(columns), row.table, row.column, Charged(t, row.column, ClassCosts(S3_PRICES, t.blobs)));
  }

  lemma {:induction false} RowDivides(columns: seq<Column>, row: Row)
    requires Summarized(columns).Ok? && row in Summarized(columns).value
    ensures Divided(row)
  {
    RowOfFold(columns, row);
    var t := Fold(columns).value[row.table];
    var c, costs := t.columns[row.column], ClassCosts(S3_PRICES, t.blobs);
    RowOfDivides(row.table, row.column, c, Total(Weights(c.blobs)), Charged(t, row.column, costs));
  }

  /** A row of a summary, from its stream: the bytes and values that the records of its column report, each over its
      record's rate, rounded to the nearest; an uncompressed size exactly when each of them reports one; a file count
      of one over the rate for each; exactly their storage classes; and the quotients of those figures. */
  lemma {:induction false} RowTotals(columns: seq<Column>, row: Row)
    requires Summarized(columns).Ok? && row in Summarized(columns).value
    ensures Near(row.compressedBytes, Estimate(columns, row.table, row.column, Compressed))
    ensures Near(row.valueCount, Estimate(columns, row.table, row.column, Values))
    ensures Near(row.fileCount, Estimate(columns, row.table, row.column, FileWeight))
    ensures row.uncompressedBytes.Some? <==> Complete(columns, row.table, row.column)
    ensures row.uncompressedBytes.Some? ==>
      Near(row.uncompressedBytes.value, Estimate(columns, row.table, row.column, UncompressedBytes))
    ensures forall name :: name in row.storageClasses <==> HasClass(columns, row.table, row.column, name)
    ensures Divided(row)
  {
    var table, path := row.table, row.column;
    Folded(columns);
    RowTells(columns, row);
    RowDivides(columns, row);
    EstimateIs(columns, table, path, Compressed);
    EstimateIs(columns, table, path, Values);
    EstimateIs(columns, table, path, FileWeight);
    EstimateIs(columns, table, path, UncompressedBytes);
    CompleteIff(columns, table, path);
    forall name ensures name in row.storageClasses <==> HasClass(columns, table, path, name) {
      RowClasses(columns, row, name);
    }
  }

  /** What a summary's tables cost in each class. */
  function TableCosts(columns: seq<Column>, table: Text): map<Text, seq<Tier>> {
    if Fold(columns).Err? then map[] else ClassCosts(S3_PRICES, Get(Fold(columns).value, table, NO_TABLE).blobs)
  }

  /** A row's cost in a costed class is the table's, in proportion to the bytes that records report there, each over
      its record's rate: those of its column over those of its table. */
  lemma {:induction false} RowShares(columns: seq<Column>, row: Row, name: Text, access: Option<Text>)
    requires Summarized(columns).Ok? && row in Summarized(columns).value
    requires name in TableCosts(columns, row.table) && TableEstimate(columns, row.table, name) > 0.0
    ensures
      var cost := CostAt(TableCosts(columns, row.table)[name], name, access);
      CostAt(row.storageCosts, name, access) ==
        Scaled(cost, Estimate(columns, row.table, row.column, InClass(name)) / TableEstimate(columns, row.table, name))
  {
    Folded(columns);
    EstimateIs(columns, row.table, row.column, InClass(name));
    TableEstimateIs(columns, row.table, name);
    EntryShares(columns, row, name, access);
  }

  lemma {:induction false} EntryShares(columns: seq<Column>, row: Row, name: Text, access: Option<Text>)
    requires Summarized(columns).Ok? && row in Summarized(columns).value
    requires name in TableCosts(columns, row.table) && TableSum(Entries(columns), row.table, name) > 0.0
    ensures
      var es, cost := Entries(columns), CostAt(TableCosts(columns, row.table)[name], name, access);
      CostAt(row.storageCosts, name, access) ==
        Scaled(cost, SumOf(es, row.table, row.column, InClass(name)) / TableSum(es, row.table, name))
  {
    RowOfFold(columns, row);
    var es, t := Entries(columns), Fold(columns).value[row.table];
    var costs := ClassCosts(S3_PRICES, t.blobs);
    ColumnRowFields(row.table, row.column, t, costs);
    TableClassIsWeightedSum(es, row.table, name);
    ClassIsWeightedSum(es, row.table, row.column, name);
    CostsAreLabelled(S3_PRICES, t.blobs);
    var c := t.columns[row.column].classBytes;
    ColumnCharge(c, t.classBytes, costs, SortedKeys(c.Keys), name, access);
    NothingOf(TableSum(es, row.table, name), CostAt(costs[name], name, access));
  }

  lemma {:induction false} NothingOf(total: real, cost: real)
    requires total > 0.0
    ensures Scaled(cost, 0.0 / total) == 0.0
  {
  }

  lemma {:induction false} PriceOfCost(prices: PriceList, blobs: map<Text, FileFacts>, name: Text, of: Tier)
    requires name in ClassCosts(prices, blobs) && of in ClassCosts(prices, blobs)[name]
    ensures name in prices && (of.accessTier, of.dollars) in prices[name]
  {
    ClassCostsIff(prices, blobs, name);
    var tiers := ClassCosts(prices, blobs)[name];
    var k :| 0 <= k < |tiers| && tiers[k] == of;
    assert (of.accessTier, of.dollars) == prices[name][k];
  }

  lemma {:induction false} ChargedPrice(prices: PriceList, t: TableBytes, path: Text, tier: Tier)
    requires path in t.columns && tier in Charged(t, path, ClassCosts(prices, t.blobs))
    ensures tier.storageClass in t.columns[path].classBytes && tier.storageClass in prices
    ensures (tier.accessTier, tier.dollars) in prices[tier.storageClass]
  {
    var c, costs := t.columns[path].classBytes, ClassCosts(prices, t.blobs);
    CostsAreLabelled(prices, t.blobs);
    var of := ChargedTier(c, t.classBytes, costs, SortedKeys(c.Keys), tier);
    PriceOfCost(prices, t.blobs, tier.storageClass, of);
  }

  /** Every tier of a row is one of a class it names, at a list price of that class. */
  lemma {:induction false} RowPrices(columns: seq<Column>, row: Row, tier: Tier)
    requires Summarized(columns).Ok? && row in Summarized(columns).value && tier in row.storageCosts
    ensures tier.storageClass in row.storageClasses && tier.storageClass in S3_PRICES
    ensures (tier.accessTier, tier.dollars) in S3_PRICES[tier.storageClass]
  {
    RowOfFold(columns, row);
    var t := Fold(columns).value[row.table];
    ColumnRowFields(row.table, row.column, t, ClassCosts(S3_PRICES, t.blobs));
    ColumnRowClasses(row.table, row.column, t, ClassCosts(S3_PRICES, t.blobs));
    ChargedPrice(S3_PRICES, t, row.column, tier);
  }

  // ----- exactly which streams have a summary -----

  /** Rounds to less than two to the 64. */
  predicate Fits(x: real) {
    x < 18446744073709551615.5
  }

  lemma {:induction false} RoundOkIff(x: real, field: Text)
    ensures Round(x, field).Ok? <==> Fits(x)
    ensures Round(x, field).Err? ==> Round(x, field).error.Overflow?
  {
  }

  predicate ColumnFits(c: ColumnBytes, fileCount: real) {
    && Fits(c.compressedBytes) && Fits(c.valueCount) && Fits(fileCount)
    && (c.uncompressed.incomplete || Fits(c.uncompressed.bytes))
  }

  lemma {:induction false} RowOfOkIff(name: Text, path: Text, c: ColumnBytes, fileCount: real, charged: seq<Tier>)
    ensures RowOf(name, path, c, fileCount, charged).Ok? <==> ColumnFits(c, fileCount)
    ensures RowOf(name, path, c, fileCount, charged).Err? ==>
      RowOf(name, path, c, fileCount, charged).error.Overflow?
  {
    RoundOkIff(c.compressedBytes, "compressed_bytes");
    RoundOkIff(c.valueCount, "value_count");
    RoundOkIff(c.uncompressed.bytes, "uncompressed_bytes");
    RoundOkIff(fileCount, "file_count");
  }

  lemma {:induction false} GatherOkIff(parts: Parts, names: seq<Text>)
    requires forall n :: n in names ==> n in parts
    requires forall n :: n in names && parts[n].Err? ==> parts[n].error.Overflow?
    ensures Gather(parts, names).Ok? <==> forall n :: n in names ==> parts[n].Ok?
    ensures Gather(parts, names).Err? ==> Gather(parts, names).error.Overflow?
  {
    if names != [] {
      var front, last := names[..|names| - 1], names[|names| - 1];
      assert names == front + [last];
      GatherOkIff(parts, front);
      assert last in names;
    }
  }

  ghost predicate TableFits(t: TableBytes) {
    forall p :: p in t.columns ==> ColumnFits(t.columns[p], Total(Weights(t.columns[p].blobs)))
  }

  lemma {:induction false} RowsOfTableOkIff(prices: PriceList, name: Text, t: TableBytes)
    ensures RowsOfTable(prices, name, t).Ok? <==> TableFits(t)
    ensures RowsOfTable(prices, name, t).Err? ==> RowsOfTable(prices, name, t).error.Overflow?
  {
    var costs := ClassCosts(prices, t.blobs);
    var parts := ColumnParts(name, t, costs);
    forall p | p in t.columns
      ensures parts[p].Ok? <==> ColumnFits(t.columns[p], Total(Weights(t.columns[p].blobs)))
      ensures parts[p].Err? ==> parts[p].error.Overflow?
    {
      RowOfOkIff(name, p, t.columns[p], Total(Weights(t.columns[p].blobs)), Charged(t, p, costs));
    }
    GatherOkIff(parts, SortedKeys(t.columns.Keys));
  }

  lemma {:induction false} RowsOfOkIff(prices: PriceList, tables: Tables)
    ensures RowsOf(prices, tables).Ok? <==> forall n :: n in tables ==> TableFits(tables[n])
    ensures RowsOf(prices, tables).Err? ==> RowsOf(prices, tables).error.Overflow?
  {
    var parts := TableParts(prices, tables);
    forall n | n in tables
      ensures parts[n].Ok? <==> TableFits(tables[n])
      ensures parts[n].Err? ==> parts[n].error.Overflow?
    {
      RowsOfTableOkIff(prices, n, tables[n]);
    }
    GatherOkIff(parts, SortedKeys(tables.Keys));
  }

  /** The estimates of one column fit in 64 bits. */
  ghost predicate EstimatesFit(columns: seq<Column>, table: Text, path: Text) {
    && Fits(Estimate(columns, table, path, Compressed)) && Fits(Estimate(columns, table, path, Values))
    && Fits(Estimate(columns, table, path, FileWeight))
    && (Complete(columns, table, path) ==> Fits(Estimate(columns, table, path, UncompressedBytes)))
  }

  ghost predicate AllFit(columns: seq<Column>) {
    forall table, path :: IsMeasured(columns, table, path) ==> EstimatesFit(columns, table, path)
  }

  predicate Has(tables: Tables, table: Text, path: Text) {
    table in tables && path in tables[table].columns
  }

  ghost predicate FitsAt(tables: Tables, table: Text, path: Text) {
    var c := ColumnAt(tables, table, path);
    ColumnFits(c, Total(Weights(c.blobs)))
  }

  lemma {:induction false} TableFitsIff(tables: Tables, table: Text)
    requires table in tables
    ensures TableFits(tables[table]) <==> forall path :: Has(tables, table, path) ==> FitsAt(tables, table, path)
  {
    var t := tables[table];
    forall p | p in t.columns
      ensures Has(tables, table, p)
      ensures FitsAt(tables, table, p) <==> ColumnFits(t.columns[p], Total(Weights(t.columns[p].blobs)))
    {
    }
  }

  lemma {:induction false} FitsAtIff(columns: seq<Column>, table: Text, path: Text)
    requires NoBad(columns) && Distinct(Entries(columns))
    ensures Has(InsertAll(map[], Entries(columns)), table, path) <==> IsMeasured(columns, table, path)
    ensures FitsAt(InsertAll(map[], Entries(columns)), table, path) <==> EstimatesFit(columns, table, path)
  {
    var es := Entries(columns);
    ColumnIsWeightedSum(es, table, path);
    ColumnFiles(es, table, path, []);
    FilesAreWeighted(es, table, path);
    EstimateIs(columns, table, path, Compressed);
    EstimateIs(columns, table, path, Values);
    EstimateIs(columns, table, path, FileWeight);
    EstimateIs(columns, table, path, UncompressedBytes);
    CompleteIff(columns, table, path);
    TableHasColumn(es, table, path);
    HasEntryIff(columns, table, path);
  }

  ghost predicate TablesFit(tables: Tables) {
    forall n, p :: Has(tables, n, p) ==> FitsAt(tables, n, p)
  }

  lemma {:induction false} TablesFitIff(tables: Tables)
    ensures (forall n :: n in tables ==> TableFits(tables[n])) <==> TablesFit(tables)
  {
    forall n | n in tables
      ensures TableFits(tables[n]) <==> forall p :: Has(tables, n, p) ==> FitsAt(tables, n, p)
    {
      TableFitsIff(tables, n);
    }
    if n, p :| Has(tables, n, p) && !FitsAt(tables, n, p) {
      assert n in tables;
    }
  }

  lemma {:induction false} AllFitIff(columns: seq<Column>)
    requires NoBad(columns) && Distinct(Entries(columns))
    ensures TablesFit(InsertAll(map[], Entries(columns))) <==> AllFit(columns)
  {
    var tables := InsertAll(map[], Entries(columns));
    forall n, p
      ensures (Has(tables, n, p) ==> FitsAt(tables, n, p)) <==>
              (IsMeasured(columns, n, p) ==> EstimatesFit(columns, n, p))
    {
      FitsAtIff(columns, n, p);
    }
  }

  /** A stream has a summary exactly when no record of it is refused, none repeats another, and every estimate fits in
      64 bits; a stream at fault only in the last way fails with an overflow. */
  lemma {:induction false} SummaryIff(columns: seq<Column>)
    ensures Summarized(columns).Ok? <==> !AnyRefused(columns) && !Repeated(columns) && AllFit(columns)
    ensures !AnyRefused(columns) && !Repeated(columns) && !AllFit(columns) ==>
      Summarized(columns).Err? && Summarized(columns).error.Overflow?
  {
    FoldsIff(columns);
    if Fold(columns).Ok? {
      Folded(columns);
      RowsOfOkIff(S3_PRICES, Fold(columns).value);
      TablesFitIff(Fold(columns).value);
      AllFitIff(columns);
    }
  }

  /** The first record at fault decides the error: a table that is no table's name, a rate outside `(0, 1]`, or a
      measurement that repeats an earlier one. */
  lemma {:induction false} SummaryFails(columns: seq<Column>, k: nat)
    requires k < |columns| && !AnyRefused(columns[..k]) && !Repeated(columns[..k])
    requires Refused(columns[k]) || RepeatsOne(columns[..k], columns[k])
    ensures PlaceOf(columns[k]).Some?
    ensures
      var c, at := columns[k], PlaceOf(columns[k]).value;
      Summarized(columns) == Err(
        if !TableHolds(c) then TableName(TableOf(c, at))
        else if !RateHolds(c) then SampleRate(RateOf(c))
        else Duplicate(c.name, Names.Blob(at.service, at.locator)))
  {
    FirstFault(columns, k);
    FoldStop(columns, k + 1);
  }

  // ----- a row's cost range -----

  /** The monthly cost as a range: classes add, a class's access tiers range. */
  function CostRange(row: Row): Option<(real, real)> {
    if row.storageClasses == [] then None else RangeAlong(row.storageCosts, row.storageClasses)
  }

  /** A row has a range exactly when it names a class and every class it names has a price; the range is then the
      least and the greatest sum over the choices of one access tier per class. */
  lemma {:induction false} CostRangeIsTight(row: Row)
    ensures CostRange(row).Some? <==>
      row.storageClasses != [] && exists picked :: Choice(row.storageCosts, row.storageClasses, picked)
    ensures CostRange(row).Some? ==> forall picked :: Choice(row.storageCosts, row.storageClasses, picked) ==>
      CostRange(row).value.0 <= Sum(picked) <= CostRange(row).value.1
    ensures CostRange(row).Some? ==> exists low, high ::
      Choice(row.storageCosts, row.storageClasses, low) && Choice(row.storageCosts, row.storageClasses, high)
      && (Sum(low), Sum(high)) == CostRange(row).value
  {
    var tiers, names := row.storageCosts, row.storageClasses;
    forall picked | Choice(tiers, names, picked)
      ensures RangeAlong(tiers, names).Some?
      ensures RangeAlong(tiers, names).value.0 <= Sum(picked) <= RangeAlong(tiers, names).value.1
    {
      RangeBounds(tiers, names, picked);
    }
    if RangeAlong(tiers, names).Some? {
      var low, high := RangeAttained(tiers, names);
    }
  }
}
