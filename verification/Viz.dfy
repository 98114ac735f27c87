/** The report behind `viz`: a summary's rows grouped by table, their totals folded up to schemas and catalogs. Byte
    totals saturate at every level; a cost or an uncompressed size is unknown as soon as one row below omits it. */
module Viz {
  import opened Text
  import opened Utf8
  import Names
  import Rows
  import Sorting

  const MAX: nat := 0xffff_ffff_ffff_ffff

  datatype Key = Key(catalog: Text, schema: Text, table: Text)

  type Row = Rows.Row

  function KeyOf(row: Row): Option<Key> {
    var ids := Names.ParseTable(row.table);
    if ids.None? || |ids.value| != 3 then None else Some(Key(ids.value[0], ids.value[1], ids.value[2]))
  }

  // ----- the accumulators -----

  function Saturate(n: nat): nat {
    if n < MAX then n else MAX
  }

  datatype Uncompressed = Uncompressed(bytes: real, incomplete: bool) {
    function Add(more: Option<real>): Uncompressed {
      match more
      case Some(value) => Uncompressed(bytes + value, incomplete)
      case None => Uncompressed(bytes, true)
    }

    function Known(): Option<real> {
      if incomplete then None else Some(bytes)
    }
  }

  type Range = (real, real)

  datatype Costs = Costs(first: real, last: real, priced: bool, any: bool) {
    function Add(cost: Option<Range>): Costs {
      match cost
      case Some(range) => Costs(first + range.0, last + range.1, priced, true)
      case None => Costs(first, last, false, any)
    }

    function Total(): Option<Range> {
      if priced && any then Some((first, last)) else None
    }
  }

  /** What a table, a schema and a catalog all add up. */
  datatype Sums = Sums(compressedBytes: nat, uncompressed: Uncompressed, cost: Costs) {
    function Add(bytes: nat, more: Option<real>, range: Option<Range>): Sums {
      Sums(Saturate(compressedBytes + bytes), uncompressed.Add(more), cost.Add(range))
    }
  }

  const EMPTY := Sums(0, Uncompressed(0.0, false), Costs(0.0, 0.0, true, false))

  datatype ColumnNode = ColumnNode(
    column: Text, compressedBytes: nat, valueCount: nat, bytesPerValue: real, compressionRatio: Option<real>,
    cost: Option<Range>)

  datatype TableRows = TableRows(sums: Sums, fileCount: nat, classes: set<Text>, columns: seq<ColumnNode>)

  const NO_ROWS := TableRows(EMPTY, 0, {}, [])

  datatype TableNode = TableNode(
    name: Text, displayName: Text, compressedBytes: nat, compressionRatio: Option<real>, cost: Option<Range>,
    storageClasses: seq<Text>, columns: seq<ColumnNode>, fileCount: nat)

  datatype SchemaRows = SchemaRows(sums: Sums, tables: seq<TableNode>)

  datatype CatalogRows = CatalogRows(sums: Sums, schemas: map<Text, SchemaRows>)

  const NO_SCHEMA := SchemaRows(EMPTY, [])
  const NO_CATALOG := CatalogRows(EMPTY, map[])

  datatype SchemaNode = SchemaNode(
    name: Text, displayName: Text, compressedBytes: nat, compressionRatio: Option<real>, cost: Option<Range>,
    uncompressedBytes: Option<real>, tables: seq<TableNode>)

  datatype CatalogNode = CatalogNode(
    name: Text, displayName: Text, compressedBytes: nat, compressionRatio: Option<real>, cost: Option<Range>,
    uncompressedBytes: Option<real>, schemas: seq<SchemaNode>)

  function Ratio(uncompressed: Option<real>, compressed: nat): Option<real> {
    if uncompressed.None? || compressed == 0 then None else Some(uncompressed.value / compressed as real)
  }

  // ----- rows to tables -----

  function ColumnNodeOf(row: Row): ColumnNode {
    ColumnNode(
      row.column, row.compressedBytes, row.valueCount, row.bytesPerValue, row.compressionRatio, Rows.CostRange(row))
  }

  function UncompressedOf(row: Row): Option<real> {
    if row.uncompressedBytes.Some? then Some(row.uncompressedBytes.value as real) else None
  }

  function Max(a: nat, b: nat): nat {
    if a < b then b else a
  }

  function AddRow(t: TableRows, row: Row): TableRows {
    TableRows(
      t.sums.Add(row.compressedBytes, UncompressedOf(row), Rows.CostRange(row)),
      Max(t.fileCount, row.fileCount),
      t.classes + (set c | c in row.storageClasses),
      t.columns + [ColumnNodeOf(row)])
  }

  function At<K, V>(m: map<K, V>, k: K, default: V): V {
    if k in m then m[k] else default
  }

  type Tables = map<Key, TableRows>

  function Placed(tables: Tables, key: Option<Key>, row: Row): Tables {
    if key.None? then tables else tables[key.value := AddRow(At(tables, key.value, NO_ROWS), row)]
  }

  function TablesOf(rows: seq<Row>): Tables {
    if rows == [] then map[]
    else Placed(TablesOf(rows[..|rows| - 1]), KeyOf(rows[|rows| - 1]), rows[|rows| - 1])
  }

  method GroupRows(rows: seq<Row>) returns (tables: Tables)
    ensures tables == TablesOf(rows)
  {
    tables := map[];
    for k := 0 to |rows|
      invariant tables == TablesOf(rows[..k])
    {
      Prefix(rows, k);
      var key := KeyOf(rows[k]);
      if key.Some? {
        var table := At(tables, key.value, NO_ROWS);
        table := AddRow(table, rows[k]);
        tables := tables[key.value := table];
      }
    }
    WholePrefix(rows);
  }

  // ----- tables to schemas and catalogs -----

  predicate ColumnLe(a: ColumnNode, b: ColumnNode) {
    Le(a.column, b.column)
  }

  function TableNodeOf(key: Key, t: TableRows): TableNode {
    TableNode(
      Names.Table(key.catalog, key.schema, key.table), key.table, t.sums.compressedBytes,
      Ratio(t.sums.uncompressed.Known(), t.sums.compressedBytes), t.sums.cost.Total(), SortedKeys(t.classes),
      Sorting.StableSort(ColumnLe, t.columns), t.fileCount)
  }

  type Catalogs = map<Text, CatalogRows>

  function AddTable(m: Catalogs, key: Key, node: TableNode, uncompressed: Option<real>): Catalogs {
    var catalog := At(m, key.catalog, NO_CATALOG);
    var schema := At(catalog.schemas, key.schema, NO_SCHEMA);
    m[key.catalog := CatalogRows(
      catalog.sums.Add(node.compressedBytes, uncompressed, node.cost),
      catalog.schemas[key.schema := SchemaRows(
        schema.sums.Add(node.compressedBytes, uncompressed, node.cost), schema.tables + [node])])]
  }

  function CatalogsOf(tables: Tables, keys: seq<Key>): Catalogs
    requires forall k :: k in keys ==> k in tables
  {
    if keys == [] then map[]
    else
      var key := keys[|keys| - 1];
      AddTable(
        CatalogsOf(tables, keys[..|keys| - 1]), key, TableNodeOf(key, tables[key]),
        tables[key].sums.uncompressed.Known())
  }

  method GroupTables(tables: Tables, keys: seq<Key>) returns (catalogs: Catalogs)
    requires forall k :: k in keys ==> k in tables
    ensures catalogs == CatalogsOf(tables, keys)
  {
    catalogs := map[];
    for k := 0 to |keys|
      invariant catalogs == CatalogsOf(tables, keys[..k])
    {
      Prefix(keys, k);
      var key, table := keys[k], tables[keys[k]];
      var uncompressed := table.sums.uncompressed.Known();
      var node := TableNodeOf(key, table);
      catalogs := AddTable(catalogs, key, node, uncompressed);
    }
    WholePrefix(keys);
  }

  // ----- the order of the keys -----

  /** A tuple's order: by catalog, then schema, then table. */
  predicate KeyLe(a: Key, b: Key) {
    if a.catalog != b.catalog then Le(a.catalog, b.catalog)
    else if a.schema != b.schema then Le(a.schema, b.schema)
    else Le(a.table, b.table)
  }

  function CatalogNames(s: set<Key>): set<Text> {
    set k | k in s :: k.catalog
  }

  function SchemaNames(s: set<Key>, catalog: Text): set<Text> {
    set k | k in s && k.catalog == catalog :: k.schema
  }

  function TableNames(s: set<Key>, catalog: Text, schema: Text): set<Text> {
    set k | k in s && k.catalog == catalog && k.schema == schema :: k.table
  }

  lemma {:induction false} SomeCatalog(s: set<Key>)
    requires s != {}
    ensures CatalogNames(s) != {}
  {
    var k :| k in s;
    assert k.catalog in CatalogNames(s);
  }

  lemma {:induction false} SomeSchema(s: set<Key>, catalog: Text)
    requires catalog in CatalogNames(s)
    ensures SchemaNames(s, catalog) != {}
  {
    var k :| k in s && k.catalog == catalog;
    assert k.schema in SchemaNames(s, catalog);
  }

  lemma {:induction false} SomeTable(s: set<Key>, catalog: Text, schema: Text)
    requires schema in SchemaNames(s, catalog)
    ensures TableNames(s, catalog, schema) != {}
  {
    var k :| k in s && k.catalog == catalog && k.schema == schema;
    assert k.table in TableNames(s, catalog, schema);
  }

  function LeastKey(s: set<Key>): (key: Key)
    requires s != {}
    ensures key in s
    ensures forall k :: k in s ==> KeyLe(key, k)
  {
    SomeCatalog(s);
    var catalog := Least(CatalogNames(s));
    SomeSchema(s, catalog);
    var schema := Least(SchemaNames(s, catalog));
    SomeTable(s, catalog, schema);
    var table := Least(TableNames(s, catalog, schema));
    LeastIsLeast(s, catalog, schema, table);
    Key(catalog, schema, table)
  }

  lemma {:induction false} LeastIsLeast(s: set<Key>, catalog: Text, schema: Text, table: Text)
    requires IsLeast(CatalogNames(s), catalog) && IsLeast(SchemaNames(s, catalog), schema)
    requires IsLeast(TableNames(s, catalog, schema), table)
    ensures Key(catalog, schema, table) in s
    ensures forall k :: k in s ==> KeyLe(Key(catalog, schema, table), k)
  {
    forall k | k in s ensures KeyLe(Key(catalog, schema, table), k) {
      assert k.catalog in CatalogNames(s);
      if k.catalog == catalog {
        assert k.schema in SchemaNames(s, catalog);
        if k.schema == schema {
          assert k.table in TableNames(s, catalog, schema);
        }
      }
    }
  }

  predicate Ordered(keys: seq<Key>) {
    forall i, j :: 0 <= i < j < |keys| ==> keys[i] != keys[j] && KeyLe(keys[i], keys[j])
  }

  /** The order a map keyed by tuples iterates in. */
  function SortedTables(s: set<Key>): (keys: seq<Key>)
    ensures forall k :: k in keys <==> k in s
    ensures Ordered(keys)
    decreases |s|
  {
    if s == {} then []
    else
      var key := LeastKey(s);
      OrderedCons(key, SortedTables(s - {key}));
      [key] + SortedTables(s - {key})
  }

  lemma {:induction false} OrderedCons(key: Key, rest: seq<Key>)
    requires Ordered(rest)
    ensures (forall k :: k in rest ==> k != key && KeyLe(key, k)) ==> Ordered([key] + rest)
  {
    if forall k :: k in rest ==> k != key && KeyLe(key, k) {
      var all := [key] + rest;
      forall i, j | 0 <= i < j < |all| ensures all[i] != all[j] && KeyLe(all[i], all[j]) {
        assert rest[j - 1] in rest;
      }
    }
  }

  // ----- the report -----

  function SchemaNodeOf(catalog: Text, schema: Text, rows: SchemaRows): SchemaNode {
    var known := rows.sums.uncompressed.Known();
    SchemaNode(
      Names.Schema(catalog, schema), schema, rows.sums.compressedBytes, Ratio(known, rows.sums.compressedBytes),
      rows.sums.cost.Total(), known, rows.tables)
  }

  function SchemaNodes(catalog: Text, schemas: map<Text, SchemaRows>, names: seq<Text>): (nodes: seq<SchemaNode>)
    requires forall n :: n in names ==> n in schemas
    ensures |nodes| == |names|
    ensures forall k :: 0 <= k < |names| ==> nodes[k] == SchemaNodeOf(catalog, names[k], schemas[names[k]])
  {
    seq(|names|, k requires 0 <= k < |names| => SchemaNodeOf(catalog, names[k], schemas[names[k]]))
  }

  function CatalogNodeOf(catalog: Text, rows: CatalogRows): CatalogNode {
    var known := rows.sums.uncompressed.Known();
    CatalogNode(
      Names.Catalog(catalog), catalog, rows.sums.compressedBytes, Ratio(known, rows.sums.compressedBytes),
      rows.sums.cost.Total(), known, SchemaNodes(catalog, rows.schemas, SortedKeys(rows.schemas.Keys)))
  }

  function CatalogNodes(catalogs: Catalogs, names: seq<Text>): (nodes: seq<CatalogNode>)
    requires forall n :: n in names ==> n in catalogs
    ensures |nodes| == |names|
    ensures forall k :: 0 <= k < |names| ==> nodes[k] == CatalogNodeOf(names[k], catalogs[names[k]])
  {
    seq(|names|, k requires 0 <= k < |names| => CatalogNodeOf(names[k], catalogs[names[k]]))
  }

  function Report(rows: seq<Row>): seq<CatalogNode> {
    var tables := TablesOf(rows);
    var catalogs := CatalogsOf(tables, SortedTables(tables.Keys));
    CatalogNodes(catalogs, SortedKeys(catalogs.Keys))
  }

  method BuildSchemas(catalog: Text, schemas: map<Text, SchemaRows>, names: seq<Text>)
    returns (nodes: seq<SchemaNode>)
    requires forall n :: n in names ==> n in schemas
    ensures nodes == SchemaNodes(catalog, schemas, names)
  {
    nodes := [];
    for k := 0 to |names|
      invariant |nodes| == k
      invariant forall j :: 0 <= j < k ==> nodes[j] == SchemaNodeOf(catalog, names[j], schemas[names[j]])
    {
      nodes := nodes + [SchemaNodeOf(catalog, names[k], schemas[names[k]])];
    }
  }

  method BuildCatalog(catalog: Text, rows: CatalogRows) returns (node: CatalogNode)
    ensures node == CatalogNodeOf(catalog, rows)
  {
    var known := rows.sums.uncompressed.Known();
    var schemas := BuildSchemas(catalog, rows.schemas, SortedKeys(rows.schemas.Keys));
    node := CatalogNode(
      Names.Catalog(catalog), catalog, rows.sums.compressedBytes, Ratio(known, rows.sums.compressedBytes),
      rows.sums.cost.Total(), known, schemas);
  }

  lemma {:induction false} OneMore<T>(front: seq<T>, last: T, all: seq<T>)
    requires |all| == |front| + 1 && all[|front|] == last
    requires forall i :: 0 <= i < |front| ==> all[i] == front[i]
    ensures all == front + [last]
  {
  }

  lemma {:induction false} CatalogNodesStep(catalogs: Catalogs, names: seq<Text>, k: nat)
    requires forall n :: n in names ==> n in catalogs
    requires k < |names|
    ensures CatalogNodes(catalogs, names[..k + 1]) ==
            CatalogNodes(catalogs, names[..k]) + [CatalogNodeOf(names[k], catalogs[names[k]])]
  {
    var front, all := CatalogNodes(catalogs, names[..k]), CatalogNodes(catalogs, names[..k + 1]);
    forall i | 0 <= i < k ensures all[i] == front[i] {
      assert names[..k][i] == names[..k + 1][i];
    }
    OneMore(front, CatalogNodeOf(names[k], catalogs[names[k]]), all);
  }

  method BuildCatalogs(catalogs: Catalogs, names: seq<Text>) returns (nodes: seq<CatalogNode>)
    requires forall n :: n in names ==> n in catalogs
    ensures nodes == CatalogNodes(catalogs, names)
  {
    nodes := [];
    for k := 0 to |names|
      invariant nodes == CatalogNodes(catalogs, names[..k])
    {
      CatalogNodesStep(catalogs, names, k);
      var node := BuildCatalog(names[k], catalogs[names[k]]);
      nodes := nodes + [node];
    }
    WholePrefix(names);
  }

  /** Group the rows by table and fold the totals up the hierarchy. */
  method Fold(rows: seq<Row>) returns (report: seq<CatalogNode>)
    ensures report == Report(rows)
  {
    var tables := GroupRows(rows);
    var catalogs := GroupTables(tables, SortedTables(tables.Keys));
    report := BuildCatalogs(catalogs, SortedKeys(catalogs.Keys));
  }

  // ----- the exact sums -----

  /** What some rows come to: how many, their exact bytes, and what is known of the rest. */
  datatype Weight = Weight(rows: nat, bytes: nat, uncompressed: Option<real>, cost: Option<Range>)

  const ZERO := Weight(0, 0, Some(0.0), Some((0.0, 0.0)))

  function Plus(a: Weight, b: Weight): Weight {
    Weight(
      a.rows + b.rows, a.bytes + b.bytes,
      if a.uncompressed.None? || b.uncompressed.None? then None
      else Some(a.uncompressed.value + b.uncompressed.value),
      if a.cost.None? || b.cost.None? then None
      else Some((a.cost.value.0 + b.cost.value.0, a.cost.value.1 + b.cost.value.1)))
  }

  function RowWeight(row: Row): Weight {
    Weight(
      1, row.compressedBytes,
      if row.uncompressedBytes.None? then None else Some(row.uncompressedBytes.value as real), Rows.CostRange(row))
  }

  /** The sum of the rows whose table is picked. */
  function Below(rows: seq<Row>, pick: Key -> bool): Weight {
    if rows == [] then ZERO
    else
      var front, key := Below(rows[..|rows| - 1], pick), KeyOf(rows[|rows| - 1]);
      if key.Some? && pick(key.value) then Plus(front, RowWeight(rows[|rows| - 1])) else front
  }

  function Is(key: Key): Key -> bool {
    (k: Key) => k == key
  }

  function InSchema(catalog: Text, schema: Text): Key -> bool {
    (k: Key) => k.catalog == catalog && k.schema == schema
  }

  function InCatalog(catalog: Text): Key -> bool {
    (k: Key) => k.catalog == catalog
  }

  /** A node's totals against the exact ones: bytes saturate, and an unknown cost or size absorbs. The ratio is the
      uncompressed size over the bytes shown, known when that size is and the bytes are not zero. */
  predicate Shows(bytes: nat, ratio: Option<real>, cost: Option<Range>, w: Weight) {
    && w.rows > 0 && cost == w.cost
    && bytes == (if w.bytes < 0xffff_ffff_ffff_ffff then w.bytes else 0xffff_ffff_ffff_ffff)
    && (ratio.Some? <==> w.uncompressed.Some? && w.bytes > 0)
    && (ratio.Some? ==> ratio.value * bytes as real == w.uncompressed.value)
  }

  /** What the accumulator of some rows holds. */
  predicate Holds(s: Sums, w: Weight) {
    && s.compressedBytes == Saturate(w.bytes)
    && s.uncompressed.Known() == w.uncompressed
    && (s.cost.priced <==> w.cost.Some?)
    && (s.cost.priced ==> w.cost.value == (s.cost.first, s.cost.last) && (s.cost.any <==> w.rows > 0))
  }

  lemma {:induction false} HoldsShows(s: Sums, w: Weight)
    requires Holds(s, w) && w.rows > 0
    ensures Shows(
      s.compressedBytes, Ratio(s.uncompressed.Known(), s.compressedBytes), s.cost.Total(), w)
  {
    if w.uncompressed.Some? && w.bytes > 0 {
      assert w.uncompressed.value / s.compressedBytes as real * s.compressedBytes as real == w.uncompressed.value;
    }
  }

  /** Saturating sums of saturated parts are saturated exact sums. */
  lemma {:induction false} AddHolds(
    s: Sums, w: Weight, bytes: nat, uncompressed: Option<real>, cost: Option<Range>, more: Weight)
    requires Holds(s, w) && more.rows > 0 && Saturate(bytes) == Saturate(more.bytes)
    requires uncompressed == more.uncompressed && cost == more.cost
    ensures Holds(s.Add(bytes, uncompressed, cost), Plus(w, more))
  {
  }

  lemma {:induction false} EmptyHolds()
    ensures Holds(EMPTY, ZERO)
  {
  }

  // ----- a table's totals -----

  lemma {:induction false} BelowStep(rows: seq<Row>, pick: Key -> bool)
    requires rows != []
    ensures
      var front, last := Below(rows[..|rows| - 1], pick), rows[|rows| - 1];
      Below(rows, pick) ==
        if KeyOf(last).Some? && pick(KeyOf(last).value) then Plus(front, RowWeight(last)) else front
  {
  }

  lemma {:induction false} PlacedAt(tables: Tables, at: Option<Key>, row: Row, key: Key)
    ensures key in Placed(tables, at, row) <==> key in tables || at == Some(key)
    ensures key in Placed(tables, at, row) ==>
      Placed(tables, at, row)[key] == if at == Some(key) then AddRow(At(tables, key, NO_ROWS), row) else tables[key]
  {
  }

  /** A table holds exactly the rows that name it. */
  lemma {:induction false} TableHolds(rows: seq<Row>, key: Key)
    ensures key in TablesOf(rows) <==> Below(rows, Is(key)).rows > 0
    ensures Below(rows, Is(key)).rows == 0 ==> Below(rows, Is(key)) == ZERO
    ensures key in TablesOf(rows) ==> Holds(TablesOf(rows)[key].sums, Below(rows, Is(key)))
  {
    if rows != [] {
      var front, last := rows[..|rows| - 1], rows[|rows| - 1];
      TableHolds(front, key);
      BelowStep(rows, Is(key));
      PlacedAt(TablesOf(front), KeyOf(last), last, key);
      if KeyOf(last) == Some(key) {
        var before := At(TablesOf(front), key, NO_ROWS);
        EmptyHolds();
        AddHolds(
          before.sums, Below(front, Is(key)), last.compressedBytes, UncompressedOf(last), Rows.CostRange(last),
          RowWeight(last));
      }
    }
  }

  /** The column nodes of the rows that name a table, in stream order. */
  function ColumnsBelow(rows: seq<Row>, key: Key): seq<ColumnNode> {
    if rows == [] then []
    else
      var front, last := ColumnsBelow(rows[..|rows| - 1], key), rows[|rows| - 1];
      if KeyOf(last) != Some(key) then front
      else
        front + [ColumnNode(
          column := last.column, compressedBytes := last.compressedBytes, valueCount := last.valueCount,
          bytesPerValue := last.bytesPerValue, compressionRatio := last.compressionRatio, cost := Rows.CostRange(last))]
  }

  lemma {:induction false} TableColumns(rows: seq<Row>, key: Key)
    ensures key in TablesOf(rows) ==> TablesOf(rows)[key].columns == ColumnsBelow(rows, key)
    ensures key !in TablesOf(rows) ==> ColumnsBelow(rows, key) == []
  {
    if rows != [] {
      var front, last := rows[..|rows| - 1], rows[|rows| - 1];
      TableColumns(front, key);
      PlacedAt(TablesOf(front), KeyOf(last), last, key);
    }
  }

  predicate RowIn(r: Row, key: Key) {
    KeyOf(r) == Some(key)
  }

  /** The greatest file count of the rows that name a table, or zero. */
  predicate IsFileCount(rows: seq<Row>, key: Key, n: nat) {
    && (forall r :: r in rows && RowIn(r, key) ==> r.fileCount <= n)
    && (n == 0 || exists r :: r in rows && RowIn(r, key) && r.fileCount == n)
  }

  /** The storage classes those rows name. */
  ghost predicate AreClasses(rows: seq<Row>, key: Key, classes: set<Text>) {
    forall c :: c in classes <==> exists r :: r in rows && RowIn(r, key) && c in r.storageClasses
  }

  lemma {:induction false} FactsSnoc(rows: seq<Row>, last: Row, key: Key, n: nat, classes: set<Text>)
    requires IsFileCount(rows, key, n) && AreClasses(rows, key, classes)
    ensures !RowIn(last, key) ==> IsFileCount(rows + [last], key, n) && AreClasses(rows + [last], key, classes)
    ensures RowIn(last, key) ==> IsFileCount(rows + [last], key, Max(n, last.fileCount))
    ensures RowIn(last, key) ==> AreClasses(rows + [last], key, classes + (set c | c in last.storageClasses))
  {
    var all := rows + [last];
    assert last in all && forall r :: r in rows ==> r in all;
    if RowIn(last, key) {
      var more := classes + (set c | c in last.storageClasses);
      forall c ensures c in more <==> exists r :: r in all && RowIn(r, key) && c in r.storageClasses {
        if c in classes {
          var r :| r in rows && RowIn(r, key) && c in r.storageClasses;
          assert r in all;
        }
      }
    }
  }

  /** A table's file count is the greatest of its rows', and its classes are every class a row of its names. */
  lemma {:induction false} TableFacts(rows: seq<Row>, key: Key)
    ensures
      var t := At(TablesOf(rows), key, NO_ROWS);
      IsFileCount(rows, key, t.fileCount) && AreClasses(rows, key, t.classes)
  {
    if rows != [] {
      var front, last := rows[..|rows| - 1], rows[|rows| - 1];
      assert rows == front + [last];
      TableFacts(front, key);
      var t := At(TablesOf(front), key, NO_ROWS);
      PlacedAt(TablesOf(front), KeyOf(last), last, key);
      FactsSnoc(front, last, key, t.fileCount, t.classes);
    }
  }

  // ----- sums over tables -----

  /** The sum of the tables picked from a list. */
  function Group(keys: seq<Key>, at: Key -> Weight, pick: Key -> bool): Weight {
    if keys == [] then ZERO
    else
      var front, last := Group(keys[..|keys| - 1], at, pick), keys[|keys| - 1];
      if pick(last) then Plus(front, at(last)) else front
  }

  predicate DistinctKeys(keys: seq<Key>) {
    forall i, j :: 0 <= i < j < |keys| ==> keys[i] != keys[j]
  }

  lemma {:induction false} GroupLocal(keys: seq<Key>, f: Key -> Weight, g: Key -> Weight, pick: Key -> bool)
    requires forall k :: k in keys ==> f(k) == g(k)
    ensures Group(keys, f, pick) == Group(keys, g, pick)
  {
    if keys != [] {
      GroupLocal(keys[..|keys| - 1], f, g, pick);
    }
  }

  lemma {:induction false} GroupOfNothing(keys: seq<Key>, f: Key -> Weight, pick: Key -> bool)
    requires forall k :: k in keys ==> f(k) == ZERO
    ensures Group(keys, f, pick) == ZERO
  {
    if keys != [] {
      var front, last := keys[..|keys| - 1], keys[|keys| - 1];
      assert keys == front + [last];
      GroupOfNothing(front, f, pick);
      assert f(last) == ZERO;
    }
  }

  lemma {:induction false} PlusMoves(a: Weight, b: Weight, c: Weight)
    ensures Plus(a, Plus(b, c)) == Plus(Plus(a, b), c)
    ensures Plus(Plus(a, c), b) == Plus(Plus(a, b), c)
  {
  }

  /** Adding to one table adds to every sum that picks it. */
  lemma {:induction false} GroupBump(
    keys: seq<Key>, f: Key -> Weight, g: Key -> Weight, pick: Key -> bool, key: Key, w: Weight)
    requires DistinctKeys(keys) && key in keys
    requires forall k :: k in keys ==> g(k) == if k == key then Plus(f(k), w) else f(k)
    ensures Group(keys, g, pick) == if pick(key) then Plus(Group(keys, f, pick), w) else Group(keys, f, pick)
  {
    var front, last := keys[..|keys| - 1], keys[|keys| - 1];
    assert keys == front + [last];
    if last == key {
      assert key !in front;
      GroupLocal(front, f, g, pick);
      PlusMoves(Group(front, f, pick), f(last), w);
    } else {
      GroupBump(front, f, g, pick, key, w);
      PlusMoves(Group(front, f, pick), f(last), w);
    }
  }

  function BelowKey(rows: seq<Row>): Key -> Weight {
    key => Below(rows, Is(key))
  }

  predicate Covers(keys: seq<Key>, rows: seq<Row>) {
    forall k :: 0 <= k < |rows| && KeyOf(rows[k]).Some? ==> KeyOf(rows[k]).value in keys
  }

  /** Summing the picked tables is summing the rows of the picked tables. */
  lemma {:induction false} GroupIsBelow(rows: seq<Row>, keys: seq<Key>, pick: Key -> bool)
    requires DistinctKeys(keys) && Covers(keys, rows)
    ensures Group(keys, BelowKey(rows), pick) == Below(rows, pick)
  {
    if rows == [] {
      GroupOfNothing(keys, BelowKey(rows), pick);
    } else {
      var front, last := rows[..|rows| - 1], rows[|rows| - 1];
      assert forall k :: 0 <= k < |front| ==> front[k] == rows[k];
      GroupIsBelow(front, keys, pick);
      BelowStep(rows, pick);
      forall k | k in keys
        ensures BelowKey(rows)(k) ==
                if KeyOf(last) == Some(k) then Plus(BelowKey(front)(k), RowWeight(last)) else BelowKey(front)(k)
      {
        BelowStep(rows, Is(k));
      }
      if KeyOf(last).Some? {
        GroupBump(keys, BelowKey(front), BelowKey(rows), pick, KeyOf(last).value, RowWeight(last));
      } else {
        GroupLocal(keys, BelowKey(front), BelowKey(rows), pick);
      }
    }
  }

  // ----- schemas and catalogs -----

  /** Every listed table holds what it weighs, and weighs something. */
  predicate Weighed(tables: Tables, keys: seq<Key>, at: Key -> Weight) {
    forall k :: k in keys ==> k in tables && at(k).rows > 0 && Holds(tables[k].sums, at(k))
  }

  lemma {:induction false} GroupStep(keys: seq<Key>, at: Key -> Weight, pick: Key -> bool)
    requires keys != []
    ensures
      var front, last := Group(keys[..|keys| - 1], at, pick), keys[|keys| - 1];
      Group(keys, at, pick) == if pick(last) then Plus(front, at(last)) else front
  {
  }

  lemma {:induction false} AddTableCatalog(m: Catalogs, key: Key, node: TableNode, known: Option<real>, catalog: Text)
    ensures
      var n := AddTable(m, key, node, known);
      (catalog in n <==> catalog in m || catalog == key.catalog)
      && (catalog in n ==>
            n[catalog].sums ==
              if catalog == key.catalog
              then At(m, catalog, NO_CATALOG).sums.Add(node.compressedBytes, known, node.cost)
              else m[catalog].sums)
  {
  }

  function SchemaAt(m: Catalogs, catalog: Text, schema: Text): Option<SchemaRows> {
    if catalog in m && schema in m[catalog].schemas then Some(m[catalog].schemas[schema]) else None
  }

  function OrNew(schema: Option<SchemaRows>): SchemaRows {
    if schema.Some? then schema.value else NO_SCHEMA
  }

  lemma {:induction false} AddTableSchema(
    m: Catalogs, key: Key, node: TableNode, known: Option<real>, catalog: Text, schema: Text)
    ensures
      var before, after := SchemaAt(m, catalog, schema), SchemaAt(AddTable(m, key, node, known), catalog, schema);
      after ==
        if catalog == key.catalog && schema == key.schema
        then Some(SchemaRows(
          OrNew(before).sums.Add(node.compressedBytes, known, node.cost), OrNew(before).tables + [node]))
        else before
  {
  }

  lemma {:induction false} NodeShows(key: Key, t: TableRows, w: Weight)
    requires Holds(t.sums, w) && w.rows > 0
    ensures
      var node := TableNodeOf(key, t);
      Shows(node.compressedBytes, node.compressionRatio, node.cost, w) && node.displayName == key.table
      && node.compressedBytes == t.sums.compressedBytes && t.sums.uncompressed.Known() == w.uncompressed
  {
    HoldsShows(t.sums, w);
  }

  lemma {:induction false} SaturateTwice(n: nat)
    ensures Saturate(Saturate(n)) == Saturate(n)
  {
  }

  lemma {:induction false} CatalogHolds(tables: Tables, keys: seq<Key>, at: Key -> Weight, catalog: Text)
    requires Weighed(tables, keys, at)
    ensures
      var m, w := CatalogsOf(tables, keys), Group(keys, at, InCatalog(catalog));
      (catalog in m <==> w.rows > 0) && (w.rows == 0 ==> w == ZERO) && (catalog in m ==> Holds(m[catalog].sums, w))
  {
    if keys != [] {
      var front, key := keys[..|keys| - 1], keys[|keys| - 1];
      assert keys == front + [key];
      CatalogHolds(tables, front, at, catalog);
      var node, known := TableNodeOf(key, tables[key]), tables[key].sums.uncompressed.Known();
      AddTableCatalog(CatalogsOf(tables, front), key, node, known, catalog);
      GroupStep(keys, at, InCatalog(catalog));
      if key.catalog == catalog {
        NodeShows(key, tables[key], at(key));
        SaturateTwice(at(key).bytes);
        EmptyHolds();
        AddHolds(
          At(CatalogsOf(tables, front), catalog, NO_CATALOG).sums, Group(front, at, InCatalog(catalog)),
          node.compressedBytes, known, node.cost, at(key));
      }
    }
  }

  lemma {:induction false} SchemaHolds(tables: Tables, keys: seq<Key>, at: Key -> Weight, catalog: Text, schema: Text)
    requires Weighed(tables, keys, at)
    ensures
      var s, w := SchemaAt(CatalogsOf(tables, keys), catalog, schema), Group(keys, at, InSchema(catalog, schema));
      (s.Some? <==> w.rows > 0) && (w.rows == 0 ==> w == ZERO) && (s.Some? ==> Holds(s.value.sums, w))
  {
    if keys != [] {
      var front, key := keys[..|keys| - 1], keys[|keys| - 1];
      assert keys == front + [key];
      SchemaHolds(tables, front, at, catalog, schema);
      var node, known := TableNodeOf(key, tables[key]), tables[key].sums.uncompressed.Known();
      AddTableSchema(CatalogsOf(tables, front), key, node, known, catalog, schema);
      GroupStep(keys, at, InSchema(catalog, schema));
      if key.catalog == catalog && key.schema == schema {
        NodeShows(key, tables[key], at(key));
        SaturateTwice(at(key).bytes);
        EmptyHolds();
        AddHolds(
          OrNew(SchemaAt(CatalogsOf(tables, front), catalog, schema)).sums,
          Group(front, at, InSchema(catalog, schema)), node.compressedBytes, known, node.cost, at(key));
      }
    }
  }

  /** The listed tables of one schema. */
  function KeysIn(keys: seq<Key>, catalog: Text, schema: Text): seq<Key> {
    if keys == [] then []
    else
      var front, last := KeysIn(keys[..|keys| - 1], catalog, schema), keys[|keys| - 1];
      if last.catalog == catalog && last.schema == schema then front + [last] else front
  }

  function TableNodes(tables: Tables, keys: seq<Key>): (nodes: seq<TableNode>)
    requires forall k :: k in keys ==> k in tables
    ensures |nodes| == |keys|
    ensures forall k :: 0 <= k < |keys| ==> nodes[k] == TableNodeOf(keys[k], tables[keys[k]])
  {
    seq(|keys|, k requires 0 <= k < |keys| => TableNodeOf(keys[k], tables[keys[k]]))
  }

  lemma {:induction false} KeysInHold(keys: seq<Key>, catalog: Text, schema: Text, key: Key)
    ensures key in KeysIn(keys, catalog, schema) <==>
            key in keys && key.catalog == catalog && key.schema == schema
  {
    if keys != [] {
      var front, last := keys[..|keys| - 1], keys[|keys| - 1];
      assert keys == front + [last];
      KeysInHold(front, catalog, schema, key);
    }
  }

  lemma {:induction false} KeysInAll(keys: seq<Key>, catalog: Text, schema: Text)
    ensures forall k :: k in KeysIn(keys, catalog, schema) ==> k in keys
  {
    forall k | k in KeysIn(keys, catalog, schema) ensures k in keys {
      KeysInHold(keys, catalog, schema, k);
    }
  }

  lemma {:induction false} TableNodesSnoc(tables: Tables, keys: seq<Key>, key: Key)
    requires key in tables && forall k :: k in keys ==> k in tables
    ensures TableNodes(tables, keys + [key]) == TableNodes(tables, keys) + [TableNodeOf(key, tables[key])]
  {
  }

  /** The tables under a schema, in the order of the list. */
  lemma {:induction false} SchemaTables(tables: Tables, keys: seq<Key>, catalog: Text, schema: Text)
    requires forall k :: k in keys ==> k in tables
    ensures forall k :: k in KeysIn(keys, catalog, schema) ==> k in tables
    ensures OrNew(SchemaAt(CatalogsOf(tables, keys), catalog, schema)).tables ==
            TableNodes(tables, KeysIn(keys, catalog, schema))
  {
    KeysInAll(keys, catalog, schema);
    if keys != [] {
      var front, key := keys[..|keys| - 1], keys[|keys| - 1];
      assert keys == front + [key];
      SchemaTables(tables, front, catalog, schema);
      var before := CatalogsOf(tables, front);
      var node, known := TableNodeOf(key, tables[key]), tables[key].sums.uncompressed.Known();
      assert CatalogsOf(tables, keys) == AddTable(before, key, node, known);
      AddTableSchema(before, key, node, known, catalog, schema);
      TableNodesSnoc(tables, KeysIn(front, catalog, schema), key);
    }
  }

  // ----- the report against the exact sums -----

  lemma {:induction false} SomeRow(rows: seq<Row>, pick: Key -> bool)
    ensures Below(rows, pick).rows > 0 <==> exists r :: r in rows && KeyOf(r).Some? && pick(KeyOf(r).value)
  {
    if rows != [] {
      var front, last := rows[..|rows| - 1], rows[|rows| - 1];
      assert rows == front + [last];
      SomeRow(front, pick);
      BelowStep(rows, pick);
    }
  }

  function AllKeys(rows: seq<Row>): seq<Key> {
    SortedTables(TablesOf(rows).Keys)
  }

  function AllCatalogs(rows: seq<Row>): Catalogs {
    CatalogsOf(TablesOf(rows), AllKeys(rows))
  }

  lemma {:induction false} AllWeighed(rows: seq<Row>)
    ensures Weighed(TablesOf(rows), AllKeys(rows), BelowKey(rows))
    ensures DistinctKeys(AllKeys(rows)) && Covers(AllKeys(rows), rows)
  {
    var keys := AllKeys(rows);
    forall k | k in keys
      ensures BelowKey(rows)(k).rows > 0 && Holds(TablesOf(rows)[k].sums, BelowKey(rows)(k))
    {
      TableHolds(rows, k);
    }
    forall i | 0 <= i < |rows| && KeyOf(rows[i]).Some? ensures KeyOf(rows[i]).value in keys {
      var key := KeyOf(rows[i]).value;
      TableHolds(rows, key);
      SomeRow(rows, Is(key));
      assert rows[i] in rows;
    }
  }

  lemma {:induction false} CatalogOfRows(rows: seq<Row>, catalog: Text)
    ensures
      var m, w := AllCatalogs(rows), Below(rows, InCatalog(catalog));
      (catalog in m <==> w.rows > 0) && (catalog in m ==> Holds(m[catalog].sums, w))
  {
    AllWeighed(rows);
    CatalogHolds(TablesOf(rows), AllKeys(rows), BelowKey(rows), catalog);
    GroupIsBelow(rows, AllKeys(rows), InCatalog(catalog));
  }

  lemma {:induction false} SchemaOfRows(rows: seq<Row>, catalog: Text, schema: Text)
    ensures
      var s, w := SchemaAt(AllCatalogs(rows), catalog, schema), Below(rows, InSchema(catalog, schema));
      (s.Some? <==> w.rows > 0) && (s.Some? ==> Holds(s.value.sums, w))
  {
    AllWeighed(rows);
    SchemaHolds(TablesOf(rows), AllKeys(rows), BelowKey(rows), catalog, schema);
    GroupIsBelow(rows, AllKeys(rows), InSchema(catalog, schema));
  }

  lemma {:induction false} CatalogAt(rows: seq<Row>, i: nat)
    requires i < |Report(rows)|
    ensures
      var catalog := SortedKeys(AllCatalogs(rows).Keys)[i];
      catalog in AllCatalogs(rows) && Report(rows)[i] == CatalogNodeOf(catalog, AllCatalogs(rows)[catalog])
  {
  }

  lemma {:induction false} SchemaNodeAt(catalog: Text, rows: CatalogRows, j: nat)
    requires j < |CatalogNodeOf(catalog, rows).schemas|
    ensures
      var schema := SortedKeys(rows.schemas.Keys)[j];
      schema in rows.schemas
      && CatalogNodeOf(catalog, rows).schemas[j] == SchemaNodeOf(catalog, schema, rows.schemas[schema])
  {
  }

  /** A catalog's bytes are the saturated exact sum of the rows below it; its cost and its uncompressed size are known
      exactly when every row below knows them, and are then the sums. */
  lemma {:induction false} CatalogTotals(rows: seq<Row>, i: nat)
    requires i < |Report(rows)|
    ensures
      var node := Report(rows)[i];
      var w := Below(rows, InCatalog(node.displayName));
      Shows(node.compressedBytes, node.compressionRatio, node.cost, w) && node.uncompressedBytes == w.uncompressed
      && node.name == Names.Catalog(node.displayName)
  {
    CatalogAt(rows, i);
    var catalog := Report(rows)[i].displayName;
    CatalogOfRows(rows, catalog);
    HoldsShows(AllCatalogs(rows)[catalog].sums, Below(rows, InCatalog(catalog)));
  }

  /** The same of a schema. */
  lemma {:induction false} SchemaTotals(rows: seq<Row>, i: nat, j: nat)
    requires i < |Report(rows)| && j < |Report(rows)[i].schemas|
    ensures
      var catalog, node := Report(rows)[i].displayName, Report(rows)[i].schemas[j];
      var w := Below(rows, InSchema(catalog, node.displayName));
      Shows(node.compressedBytes, node.compressionRatio, node.cost, w) && node.uncompressedBytes == w.uncompressed
      && node.name == Names.Schema(catalog, node.displayName)
  {
    CatalogAt(rows, i);
    var catalog := Report(rows)[i].displayName;
    SchemaNodeAt(catalog, AllCatalogs(rows)[catalog], j);
    var schema := Report(rows)[i].schemas[j].displayName;
    SchemaOfRows(rows, catalog, schema);
    HoldsShows(AllCatalogs(rows)[catalog].schemas[schema].sums, Below(rows, InSchema(catalog, schema)));
  }

  // ----- every table in one place -----

  /** Whether a table stands at a place of the report. */
  predicate IsAt(report: seq<CatalogNode>, i: nat, j: nat, k: nat, key: Key) {
    && i < |report| && j < |report[i].schemas| && k < |report[i].schemas[j].tables|
    && report[i].displayName == key.catalog && report[i].schemas[j].displayName == key.schema
    && report[i].schemas[j].tables[k].displayName == key.table
  }

  lemma {:induction false} OrderedSnoc(keys: seq<Key>, last: Key)
    requires Ordered(keys) && forall k :: k in keys ==> k != last && KeyLe(k, last)
    ensures Ordered(keys + [last])
  {
    var all := keys + [last];
    forall i, j | 0 <= i < j < |all| ensures all[i] != all[j] && KeyLe(all[i], all[j]) {
      assert keys[i] in keys;
    }
  }

  lemma {:induction false} KeysInOrder(keys: seq<Key>, catalog: Text, schema: Text)
    requires Ordered(keys)
    ensures Ordered(KeysIn(keys, catalog, schema))
  {
    if keys != [] {
      var n := |keys| - 1;
      var front, last := keys[..n], keys[n];
      KeysInOrder(front, catalog, schema);
      KeysInAll(front, catalog, schema);
      var part := KeysIn(front, catalog, schema);
      forall k | k in part ensures k != last && KeyLe(k, last) {
        assert k in front;
        var j :| 0 <= j < n && front[j] == k;
        assert keys[j] == k && keys[j] != keys[n] && KeyLe(keys[j], keys[n]);
      }
      OrderedSnoc(part, last);
    }
  }

  /** The keys of a schema's tables, in the order of its nodes. */
  function KeysAt(rows: seq<Row>, catalog: Text, schema: Text): seq<Key> {
    KeysIn(AllKeys(rows), catalog, schema)
  }

  lemma {:induction false} TablesAt(rows: seq<Row>, i: nat, j: nat)
    requires i < |Report(rows)| && j < |Report(rows)[i].schemas|
    ensures
      var catalog, node := Report(rows)[i].displayName, Report(rows)[i].schemas[j];
      var keys := KeysAt(rows, catalog, node.displayName);
      |node.tables| == |keys|
      && forall k :: 0 <= k < |keys| ==>
        keys[k] in TablesOf(rows) && keys[k].catalog == catalog && keys[k].schema == node.displayName
        && node.tables[k] == TableNodeOf(keys[k], TablesOf(rows)[keys[k]])
  {
    CatalogAt(rows, i);
    var catalog := Report(rows)[i].displayName;
    SchemaNodeAt(catalog, AllCatalogs(rows)[catalog], j);
    var schema := Report(rows)[i].schemas[j].displayName;
    SchemaTables(TablesOf(rows), AllKeys(rows), catalog, schema);
    var keys := KeysAt(rows, catalog, schema);
    forall k | 0 <= k < |keys| ensures keys[k].catalog == catalog && keys[k].schema == schema {
      KeysInHold(AllKeys(rows), catalog, schema, keys[k]);
    }
  }

  /** A table's node: the saturated bytes and known totals of the rows that name it, and their columns in order. */
  lemma {:induction false} TableTotals(rows: seq<Row>, i: nat, j: nat, k: nat)
    requires i < |Report(rows)| && j < |Report(rows)[i].schemas| && k < |Report(rows)[i].schemas[j].tables|
    ensures
      var node := Report(rows)[i].schemas[j].tables[k];
      var key := Key(Report(rows)[i].displayName, Report(rows)[i].schemas[j].displayName, node.displayName);
      var w := Below(rows, Is(key));
      node.name == Names.Table(key.catalog, key.schema, key.table)
      && Shows(node.compressedBytes, node.compressionRatio, node.cost, w)
      && multiset(node.columns) == multiset(ColumnsBelow(rows, key))
      && forall a, b {:trigger node.columns[a], node.columns[b]} :: 0 <= a < b < |node.columns| ==>
        Le(node.columns[a].column, node.columns[b].column)
  {
    TablesAt(rows, i, j);
    var key := KeysAt(rows, Report(rows)[i].displayName, Report(rows)[i].schemas[j].displayName)[k];
    TableHolds(rows, key);
    TableColumns(rows, key);
    var t := TablesOf(rows)[key];
    NodeShows(key, t, Below(rows, Is(key)));
    ColumnsSort(t.columns);
    var columns := Report(rows)[i].schemas[j].tables[k].columns;
    forall a, b {:trigger columns[a], columns[b]} | 0 <= a < b < |columns|
      ensures Le(columns[a].column, columns[b].column)
    {
      assert ColumnLe(columns[a], columns[b]);
    }
  }

  lemma {:induction false} NodeFacts(key: Key, t: TableRows)
    ensures TableNodeOf(key, t).fileCount == t.fileCount
    ensures Ascending(TableNodeOf(key, t).storageClasses)
    ensures forall c :: c in TableNodeOf(key, t).storageClasses <==> c in t.classes
  {
    SortedKeysAscend(t.classes);
  }

  /** Whether a node shows the greatest file count of a table's rows and, in order, every class they name. */
  ghost predicate ShowsFacts(rows: seq<Row>, key: Key, node: TableNode) {
    && IsFileCount(rows, key, node.fileCount) && Ascending(node.storageClasses)
    && AreClasses(rows, key, set c | c in node.storageClasses)
  }

  lemma {:induction false} NodeShowsFacts(rows: seq<Row>, key: Key)
    requires key in TablesOf(rows)
    ensures ShowsFacts(rows, key, TableNodeOf(key, TablesOf(rows)[key]))
  {
    TableFacts(rows, key);
    var t := TablesOf(rows)[key];
    NodeFacts(key, t);
    assert (set c | c in TableNodeOf(key, t).storageClasses) == t.classes;
  }

  lemma {:induction false} NodeAt(rows: seq<Row>, key: Key, i: nat, j: nat, k: nat)
    requires IsAt(Report(rows), i, j, k, key)
    ensures key in TablesOf(rows)
    ensures Report(rows)[i].schemas[j].tables[k] == TableNodeOf(key, TablesOf(rows)[key])
  {
    TablesAt(rows, i, j);
    KeyAt(rows, key, i, j, k);
  }

  /** A table's node shows the greatest file count of its rows and, sorted, every class they name. */
  lemma {:induction false} TableFactsShown(rows: seq<Row>, key: Key, i: nat, j: nat, k: nat)
    requires IsAt(Report(rows), i, j, k, key)
    ensures ShowsFacts(rows, key, Report(rows)[i].schemas[j].tables[k])
  {
    NodeAt(rows, key, i, j, k);
    NodeShowsFacts(rows, key);
  }

  lemma {:induction false} ColumnsSort(columns: seq<ColumnNode>)
    ensures Sorting.SortedBy(ColumnLe, Sorting.StableSort(ColumnLe, columns))
  {
    forall a: ColumnNode, b: ColumnNode ensures ColumnLe(a, b) || ColumnLe(b, a) {
      LeTotal(a.column, b.column);
    }
    forall a: ColumnNode, b: ColumnNode, c: ColumnNode | ColumnLe(a, b) && ColumnLe(b, c) ensures ColumnLe(a, c) {
      LeTransitive(a.column, b.column, c.column);
    }
    Sorting.StableSortSorts(ColumnLe, columns);
  }

  lemma {:induction false} SameName(s: set<Text>, i: nat, j: nat)
    requires i < |SortedKeys(s)| && j < |SortedKeys(s)| && SortedKeys(s)[i] == SortedKeys(s)[j]
    ensures i == j
  {
  }

  lemma {:induction false} SameKey(keys: seq<Key>, i: nat, j: nat)
    requires Ordered(keys) && i < |keys| && j < |keys| && keys[i] == keys[j]
    ensures i == j
  {
  }

  lemma {:induction false} CatalogsAreUnique(rows: seq<Row>, i: nat, p: nat)
    requires i < |Report(rows)| && p < |Report(rows)| && Report(rows)[i].displayName == Report(rows)[p].displayName
    ensures i == p
  {
    CatalogAt(rows, i);
    CatalogAt(rows, p);
    SameName(AllCatalogs(rows).Keys, i, p);
  }

  lemma {:induction false} SchemasAreUnique(catalog: Text, rows: CatalogRows, j: nat, q: nat)
    requires
      var schemas := CatalogNodeOf(catalog, rows).schemas;
      j < |schemas| && q < |schemas| && schemas[j].displayName == schemas[q].displayName
    ensures j == q
  {
    SchemaNodeAt(catalog, rows, j);
    SchemaNodeAt(catalog, rows, q);
    SameName(rows.schemas.Keys, j, q);
  }

  lemma {:induction false} KeyAt(rows: seq<Row>, key: Key, i: nat, j: nat, k: nat)
    requires IsAt(Report(rows), i, j, k, key)
    ensures
      var keys := KeysAt(rows, key.catalog, key.schema);
      k < |keys| && keys[k] == key && key in TablesOf(rows)
  {
    TablesAt(rows, i, j);
  }

  /** Nothing stands in two places. */
  lemma {:induction false} PlacesAreUnique(
    rows: seq<Row>, key: Key, i: nat, j: nat, k: nat, p: nat, q: nat, r: nat)
    requires IsAt(Report(rows), i, j, k, key) && IsAt(Report(rows), p, q, r, key)
    ensures i == p && j == q && k == r
  {
    CatalogsAreUnique(rows, i, p);
    CatalogAt(rows, i);
    SchemasAreUnique(key.catalog, AllCatalogs(rows)[key.catalog], j, q);
    KeyAt(rows, key, i, j, k);
    KeyAt(rows, key, p, q, r);
    KeysInOrder(AllKeys(rows), key.catalog, key.schema);
    SameKey(KeysAt(rows, key.catalog, key.schema), k, r);
  }

  /** A schema's tables stand in name order. */
  lemma {:induction false} TablesAscend(rows: seq<Row>, i: nat, j: nat, k: nat, l: nat)
    requires i < |Report(rows)| && j < |Report(rows)[i].schemas| && k < l < |Report(rows)[i].schemas[j].tables|
    ensures
      var tables := Report(rows)[i].schemas[j].tables;
      Le(tables[k].displayName, tables[l].displayName)
  {
    TablesAt(rows, i, j);
    var catalog, schema := Report(rows)[i].displayName, Report(rows)[i].schemas[j].displayName;
    KeysInOrder(AllKeys(rows), catalog, schema);
    var keys := KeysAt(rows, catalog, schema);
    assert KeyLe(keys[k], keys[l]);
  }

  lemma {:induction false} PlaceOf(rows: seq<Row>, key: Key) returns (i: nat, j: nat, k: nat)
    requires key in TablesOf(rows)
    ensures IsAt(Report(rows), i, j, k, key)
  {
    TableHolds(rows, key);
    SomeRow(rows, Is(key));
    SomeRow(rows, InCatalog(key.catalog));
    SomeRow(rows, InSchema(key.catalog, key.schema));
    CatalogOfRows(rows, key.catalog);
    SchemaOfRows(rows, key.catalog, key.schema);
    i := IndexOf(SortedKeys(AllCatalogs(rows).Keys), key.catalog);
    CatalogAt(rows, i);
    var schemas := AllCatalogs(rows)[key.catalog].schemas;
    j := IndexOf(SortedKeys(schemas.Keys), key.schema);
    SchemaNodeAt(key.catalog, AllCatalogs(rows)[key.catalog], j);
    TablesAt(rows, i, j);
    KeysInHold(AllKeys(rows), key.catalog, key.schema, key);
    k := IndexOf(KeysAt(rows, key.catalog, key.schema), key);
  }

  lemma {:induction false} IndexOf<T>(s: seq<T>, x: T) returns (i: nat)
    requires x in s
    ensures i < |s| && s[i] == x
  {
    i :| 0 <= i < |s| && s[i] == x;
  }

  /** Every row whose table parses sits under exactly one table of the report, and every table of the report has a
      row. */
  lemma {:induction false} EachTableOnce(rows: seq<Row>, key: Key)
    ensures (exists r :: r in rows && KeyOf(r) == Some(key)) <==>
            exists i: nat, j: nat, k: nat :: IsAt(Report(rows), i, j, k, key)
    ensures forall i: nat, j: nat, k: nat, p: nat, q: nat, r: nat ::
      IsAt(Report(rows), i, j, k, key) && IsAt(Report(rows), p, q, r, key) ==> i == p && j == q && k == r
  {
    TableHolds(rows, key);
    SomeRow(rows, Is(key));
    if key in TablesOf(rows) {
      var i, j, k := PlaceOf(rows, key);
      assert IsAt(Report(rows), i, j, k, key);
    }
    if i: nat, j: nat, k: nat :| IsAt(Report(rows), i, j, k, key) {
      KeyAt(rows, key, i, j, k);
    }
    forall i: nat, j: nat, k: nat, p: nat, q: nat, r: nat |
      IsAt(Report(rows), i, j, k, key) && IsAt(Report(rows), p, q, r, key)
      ensures i == p && j == q && k == r
    {
      PlacesAreUnique(rows, key, i, j, k, p, q, r);
    }
  }

  /** A row that names a table, by its path or by its dotted form, sits below the catalog, the schema and the table of
      its name's three ids; a row that names none sits nowhere. */
  lemma {:induction false} RowIsPlaced(rows: seq<Row>, row: Row)
    requires row in rows
    ensures Names.ParseTable(row.table).None? ==> KeyOf(row).None?
    ensures forall c, s, t :: Names.ParseTable(row.table) == Some([c, s, t]) ==>
      KeyOf(row) == Some(Key(c, s, t)) && exists i: nat, j: nat, k: nat :: IsAt(Report(rows), i, j, k, Key(c, s, t))
  {
    forall c, s, t | Names.ParseTable(row.table) == Some([c, s, t])
      ensures KeyOf(row) == Some(Key(c, s, t))
      ensures exists i: nat, j: nat, k: nat :: IsAt(Report(rows), i, j, k, Key(c, s, t))
    {
      assert KeyOf(row) == Some(Key([c, s, t][0], [c, s, t][1], [c, s, t][2]));
      EachTableOnce(rows, Key(c, s, t));
    }
  }

  /** A row of the table `c.s.t`, under the name the builder gives it. */
  lemma {:induction false} TableRowIsPlaced(rows: seq<Row>, row: Row, c: Text, s: Text, t: Text)
    requires row in rows && Valid(c) && Valid(s) && Valid(t) && row.table == Names.Table(c, s, t)
    ensures exists i: nat, j: nat, k: nat :: IsAt(Report(rows), i, j, k, Key(c, s, t))
  {
    Names.TableParses(c, s, t);
    RowIsPlaced(rows, row);
  }

  /** Catalogs stand in name order, and so do the schemas of each. */
  lemma {:induction false} ReportAscends(rows: seq<Row>, i: nat, k: nat)
    ensures i < k < |Report(rows)| ==> Le(Report(rows)[i].displayName, Report(rows)[k].displayName)
    ensures i < |Report(rows)| ==> forall a, b {:trigger Report(rows)[i].schemas[a], Report(rows)[i].schemas[b]} ::
      0 <= a < b < |Report(rows)[i].schemas| ==>
        Le(Report(rows)[i].schemas[a].displayName, Report(rows)[i].schemas[b].displayName)
  {
    SortedKeysAscend(AllCatalogs(rows).Keys);
    if i < |Report(rows)| {
      CatalogAt(rows, i);
      if i < k < |Report(rows)| {
        CatalogAt(rows, k);
      }
      SchemasAscend(Report(rows)[i].displayName, AllCatalogs(rows)[Report(rows)[i].displayName]);
    }
  }

  lemma {:induction false} SchemasAscend(catalog: Text, rows: CatalogRows)
    ensures
      var schemas := CatalogNodeOf(catalog, rows).schemas;
      forall a, b {:trigger schemas[a], schemas[b]} :: 0 <= a < b < |schemas| ==>
        Le(schemas[a].displayName, schemas[b].displayName)
  {
    var schemas := CatalogNodeOf(catalog, rows).schemas;
    SortedKeysAscend(rows.schemas.Keys);
    forall a, b {:trigger schemas[a], schemas[b]} | 0 <= a < b < |schemas|
      ensures Le(schemas[a].displayName, schemas[b].displayName)
    {
      SchemaNodeAt(catalog, rows, a);
      SchemaNodeAt(catalog, rows, b);
    }
  }
}
