/** `diff`: compare two measurements column by column, full paths or dotted prefixes of a depth, with checked sums. */
module Diff {
  import opened Text
  import opened Mass
  import Names

  datatype Error = DepthZero | NotAColumn(name: Text) | Duplicate(name: Text) | Overflow

  const LIMIT: nat := 0x1_0000_0000_0000_0000

  /** What some rows add up to: whether there is one, its bytes, its values. */
  datatype Measure = Measure(seen: bool, bytes: nat, values: nat)

  const NOTHING := Measure(false, 0, 0)

  function Plus(a: Measure, b: Measure): Measure {
    Measure(a.seen || b.seen, a.bytes + b.bytes, a.values + b.values)
  }

  datatype ColumnDelta = ColumnDelta(
    column: Text, leftBytes: Option<nat>, rightBytes: Option<nat>, deltaBytes: int, changePercent: Option<real>,
    leftValues: nat, rightValues: nat, leftBytesPerValue: Option<real>, rightBytesPerValue: Option<real>)

  // ----- one row -----

  function ColumnPath(name: Text): Option<Text> {
    var ids := Names.ParseColumn(name);
    if ids.None? || |ids.value| != 3 then None else Some(ids.value[2])
  }

  function Take(pieces: seq<Text>, n: nat): seq<Text> {
    if n < |pieces| then pieces[..n] else pieces
  }

  /** The whole path, or its first `depth` dotted pieces. */
  function Roll(path: Text, depth: Option<nat>): Text {
    if depth.None? then path else Join(Take(Split(path, '.'), depth.value), '.')
  }

  function RowMeasure(row: Column): Measure {
    if row.mass.None? then Measure(true, 0, 0)
    else Measure(true, OrZero(row.mass.value.compressedBytes), OrZero(row.mass.value.valueCount))
  }

  // ----- the checked summary -----

  datatype Totals = Totals(names: set<Text>, bytes: map<Text, nat>, values: map<Text, nat>)

  function AddRow(t: Totals, row: Column, depth: Option<nat>): Result<Totals, Error> {
    var column := ColumnPath(row.name);
    if column.None? then Err(NotAColumn(row.name))
    else if row.name in t.names then Err(Error.Duplicate(row.name))
    else
      var path, m := Roll(column.value, depth), RowMeasure(row);
      var bytes := Get(t.bytes, path, 0) + m.bytes;
      var values := Get(t.values, path, 0) + m.values;
      if bytes >= LIMIT || values >= LIMIT then Err(Error.Overflow)
      else Ok(Totals(t.names + {row.name}, t.bytes[path := bytes], t.values[path := values]))
  }

  function Summary(rows: seq<Column>, depth: Option<nat>): Result<Totals, Error> {
    if rows == [] then Ok(Totals({}, map[], map[]))
    else
      var front := Summary(rows[..|rows| - 1], depth);
      if front.Err? then front else AddRow(front.value, rows[|rows| - 1], depth)
  }

  lemma {:induction false} SummaryStops(rows: seq<Column>, depth: Option<nat>, k: nat)
    requires k <= |rows| && Summary(rows[..k], depth).Err?
    ensures Summary(rows, depth) == Summary(rows[..k], depth)
  {
    if k < |rows| {
      var front := rows[..|rows| - 1];
      assert front[..k] == rows[..k];
      SummaryStops(front, depth, k);
    } else {
      WholePrefix(rows);
    }
  }

  lemma {:induction false} SummaryStep(rows: seq<Column>, depth: Option<nat>, k: nat)
    requires k < |rows| && Summary(rows[..k], depth).Ok?
    ensures Summary(rows[..k + 1], depth) == AddRow(Summary(rows[..k], depth).value, rows[k], depth)
  {
    Prefix(rows, k);
  }

  /** Add one row: its name must parse and be new, and both sums must fit. */
  method AddOne(t: Totals, row: Column, depth: Option<nat>) returns (r: Result<Totals, Error>)
    ensures r == AddRow(t, row, depth)
  {
    var names, bytes, values := t.names, t.bytes, t.values;
    var column := ColumnPath(row.name);
    if column.None? {
      return Err(NotAColumn(row.name));
    }
    if row.name in names {
      return Err(Error.Duplicate(row.name));
    }
    names := names + {row.name};
    var path := Roll(column.value, depth);
    var total := Get(bytes, path, 0) + RowMeasure(row).bytes;
    if total >= LIMIT {
      return Err(Error.Overflow);
    }
    bytes := bytes[path := total];
    total := Get(values, path, 0) + RowMeasure(row).values;
    if total >= LIMIT {
      return Err(Error.Overflow);
    }
    values := values[path := total];
    return Ok(Totals(names, bytes, values));
  }

  /** Sum bytes and values per rolled-up path. */
  method Summarize(rows: seq<Column>, depth: Option<nat>) returns (r: Result<Totals, Error>)
    ensures r == Summary(rows, depth)
  {
    var t := Totals({}, map[], map[]);
    for k := 0 to |rows|
      invariant Summary(rows[..k], depth) == Ok(t)
    {
      SummaryStep(rows, depth, k);
      r := AddOne(t, rows[k], depth);
      if r.Err? {
        SummaryStops(rows, depth, k + 1);
        return;
      }
      t := r.value;
    }
    WholePrefix(rows);
    return Ok(t);
  }

  // ----- the comparison -----

  function Ratio(bytes: Option<nat>, values: nat): Option<real> {
    if bytes.None? || values == 0 then None else Some(bytes.value as real / values as real)
  }

  function Percent(delta: int, left: Option<nat>): Option<real> {
    if left.None? || left.value == 0 then None else Some(delta as real * 100.0 / left.value as real)
  }

  function Known(m: Measure): Option<nat> {
    if m.seen then Some(m.bytes) else None
  }

  function Delta(column: Text, left: Measure, right: Measure): ColumnDelta {
    var delta := OrZero(Known(right)) - OrZero(Known(left));
    ColumnDelta(
      column, Known(left), Known(right), delta, Percent(delta, Known(left)), left.values, right.values,
      Ratio(Known(left), left.values), Ratio(Known(right), right.values))
  }

  function At(bytes: map<Text, nat>, values: map<Text, nat>, path: Text): Measure {
    Measure(path in bytes, Get(bytes, path, 0), Get(values, path, 0))
  }

  function Deltas(left: Totals, right: Totals, paths: seq<Text>): (deltas: seq<ColumnDelta>)
    ensures |deltas| == |paths|
    ensures forall k :: 0 <= k < |paths| ==>
      deltas[k] == Delta(paths[k], At(left.bytes, left.values, paths[k]), At(right.bytes, right.values, paths[k]))
  {
    seq(|paths|, k requires 0 <= k < |paths| =>
      Delta(paths[k], At(left.bytes, left.values, paths[k]), At(right.bytes, right.values, paths[k])))
  }

  function Compared(left: seq<Column>, right: seq<Column>, depth: Option<nat>): Result<seq<ColumnDelta>, Error> {
    if depth == Some(0) then Err(DepthZero) else
    var l := Summary(left, depth);
    if l.Err? then Err(l.error) else
    var r := Summary(right, depth);
    if r.Err? then Err(r.error) else
    Ok(Deltas(l.value, r.value, SortedKeys(l.value.bytes.Keys + r.value.bytes.Keys)))
  }

  method Compare(left: seq<Column>, right: seq<Column>, depth: Option<nat>)
    returns (r: Result<seq<ColumnDelta>, Error>)
    ensures r == Compared(left, right, depth)
  {
    if depth == Some(0) {
      return Err(DepthZero);
    }
    var l := Summarize(left, depth);
    if l.Err? {
      return Err(l.error);
    }
    var s := Summarize(right, depth);
    if s.Err? {
      return Err(s.error);
    }
    return Ok(Deltas(l.value, s.value, SortedKeys(l.value.bytes.Keys + s.value.bytes.Keys)));
  }

  lemma {:induction false} Quotient(x: real, n: real)
    requires n != 0.0
    ensures x / n * n == x
  {
  }

  /** What a delta's figures mean: the left total changed by the percentage is the right one, and the bytes per value
      times the values are the bytes. */
  lemma {:induction false} DeltaFigures(column: Text, left: Measure, right: Measure)
    ensures
      var d := Delta(column, left, right);
      (d.changePercent.Some? <==> d.leftBytes.Some? && d.leftBytes.value > 0)
      && (d.changePercent.Some? ==>
            d.leftBytes.value as real * (1.0 + d.changePercent.value / 100.0) == OrZero(d.rightBytes) as real)
      && (d.leftBytesPerValue.Some? <==> d.leftBytes.Some? && d.leftValues > 0)
      && (d.leftBytesPerValue.Some? ==> d.leftBytesPerValue.value * d.leftValues as real == d.leftBytes.value as real)
      && (d.rightBytesPerValue.Some? <==> d.rightBytes.Some? && d.rightValues > 0)
      && (d.rightBytesPerValue.Some? ==>
            d.rightBytesPerValue.value * d.rightValues as real == d.rightBytes.value as real)
  {
    if left.values > 0 {
      Quotient(left.bytes as real, left.values as real);
    }
    if right.values > 0 {
      Quotient(right.bytes as real, right.values as real);
    }
    if left.seen && left.bytes > 0 {
      var n, delta := left.bytes as real, Delta(column, left, right).deltaBytes as real;
      Quotient(delta * 100.0, n);
      assert n * (delta * 100.0 / n) == delta * 100.0;
    }
  }

  // ----- the exact sums, without limits -----

  predicate Named(rows: seq<Column>) {
    forall k :: 0 <= k < |rows| ==> ColumnPath(rows[k].name).Some?
  }

  predicate DistinctNames(rows: seq<Column>) {
    forall i, j :: 0 <= i < j < |rows| ==> rows[i].name != rows[j].name
  }

  function PathOf(row: Column): Text {
    var path := ColumnPath(row.name);
    if path.Some? then path.value else []
  }

  /** What the rows whose rolled-up path is `path` add up to. */
  function Exact(rows: seq<Column>, depth: Option<nat>, path: Text): Measure {
    if rows == [] then NOTHING
    else
      var front, last := Exact(rows[..|rows| - 1], depth, path), rows[|rows| - 1];
      if Roll(PathOf(last), depth) == path then Plus(front, RowMeasure(last)) else front
  }

  predicate Fits(m: Measure) {
    m.bytes < LIMIT && m.values < LIMIT
  }

  ghost predicate AllFit(rows: seq<Column>, depth: Option<nat>) {
    forall path :: Fits(Exact(rows, depth, path))
  }

  ghost predicate Tallies(t: Totals, rows: seq<Column>, depth: Option<nat>) {
    forall path :: At(t.bytes, t.values, path) == Exact(rows, depth, path)
  }

  ghost predicate Lists(names: set<Text>, rows: seq<Column>) {
    forall name :: name in names <==> exists k :: 0 <= k < |rows| && rows[k].name == name
  }

  lemma {:induction false} FrontOf(rows: seq<Column>)
    requires rows != []
    ensures
      var front, last := rows[..|rows| - 1], rows[|rows| - 1];
      (Named(rows) <==> Named(front) && ColumnPath(last.name).Some?)
      && (DistinctNames(rows) <==>
          DistinctNames(front) && forall k :: 0 <= k < |front| ==> front[k].name != last.name)
  {
    var n := |rows| - 1;
    var front, last := rows[..n], rows[n];
    assert forall k :: 0 <= k < n ==> front[k] == rows[k];
  }

  lemma {:induction false} AddRowIs(t: Totals, row: Column, depth: Option<nat>)
    ensures
      var path, m := Roll(PathOf(row), depth), RowMeasure(row);
      var sum := Plus(At(t.bytes, t.values, path), m);
      var r := AddRow(t, row, depth);
      (r.Ok? <==> ColumnPath(row.name).Some? && row.name !in t.names && Fits(sum))
      && (r.Ok? ==> r.value.names == t.names + {row.name}
                    && r.value.bytes == t.bytes[path := sum.bytes] && r.value.values == t.values[path := sum.values])
  {
  }

  lemma {:induction false} ExactStep(rows: seq<Column>, depth: Option<nat>, path: Text)
    requires rows != []
    ensures
      var front, last := rows[..|rows| - 1], rows[|rows| - 1];
      Exact(rows, depth, path) ==
        if Roll(PathOf(last), depth) == path then Plus(Exact(front, depth, path), RowMeasure(last))
        else Exact(front, depth, path)
  {
  }

  lemma {:induction false} FitsFront(rows: seq<Column>, depth: Option<nat>)
    requires rows != []
    ensures
      var front, path := rows[..|rows| - 1], Roll(PathOf(rows[|rows| - 1]), depth);
      AllFit(rows, depth) <==> AllFit(front, depth) && Fits(Exact(rows, depth, path))
  {
    var front, path := rows[..|rows| - 1], Roll(PathOf(rows[|rows| - 1]), depth);
    forall p ensures Fits(Exact(rows, depth, p)) <==> Fits(Exact(rows, depth, p)) && Fits(Exact(front, depth, p)) {
      ExactStep(rows, depth, p);
    }
    forall p | p != path ensures Exact(rows, depth, p) == Exact(front, depth, p) {
      ExactStep(rows, depth, p);
    }
    if AllFit(rows, depth) {
      assert forall p {:trigger Exact(front, depth, p)} :: Fits(Exact(rows, depth, p)) ==> Fits(Exact(front, depth, p));
    }
  }

  lemma {:induction false} AtUpdated(bytes: map<Text, nat>, values: map<Text, nat>, path: Text, m: Measure, p: Text)
    requires m.seen
    ensures At(bytes[path := m.bytes], values[path := m.values], p) == if p == path then m else At(bytes, values, p)
  {
  }

  lemma {:induction false} TallyAdds(
    bytes: map<Text, nat>, values: map<Text, nat>, rows: seq<Column>, depth: Option<nat>, path: Text, m: Measure)
    requires rows != [] && path == Roll(PathOf(rows[|rows| - 1]), depth) && m == Exact(rows, depth, path)
    requires forall p :: At(bytes, values, p) == Exact(rows[..|rows| - 1], depth, p)
    ensures forall p :: At(bytes[path := m.bytes], values[path := m.values], p) == Exact(rows, depth, p)
  {
    ExactStep(rows, depth, path);
    forall p ensures At(bytes[path := m.bytes], values[path := m.values], p) == Exact(rows, depth, p) {
      RowIsSeen(rows[|rows| - 1]);
      AtUpdated(bytes, values, path, m, p);
      ExactStep(rows, depth, p);
    }
  }

  lemma {:induction false} RowIsSeen(row: Column)
    ensures RowMeasure(row).seen
  {
  }

  lemma {:induction false} ListsAdds(names: set<Text>, rows: seq<Column>)
    requires rows != [] && Lists(names, rows[..|rows| - 1])
    ensures Lists(names + {rows[|rows| - 1].name}, rows)
  {
    var n := |rows| - 1;
    var front := rows[..n];
    forall name
      ensures name in names + {rows[n].name} <==> exists k :: 0 <= k < |rows| && rows[k].name == name
    {
      if name in names {
        var k :| 0 <= k < |front| && front[k].name == name;
        assert rows[k].name == name;
      }
      if k :| 0 <= k < |rows| && rows[k].name == name {
        assert k == n || front[k].name == name;
      }
    }
  }

  lemma {:induction false} SummaryAdds(rows: seq<Column>, depth: Option<nat>, t: Totals)
    requires rows != [] && Tallies(t, rows[..|rows| - 1], depth) && Lists(t.names, rows[..|rows| - 1])
    ensures
      var last, r := rows[|rows| - 1], AddRow(t, rows[|rows| - 1], depth);
      (r.Ok? <==> ColumnPath(last.name).Some? && last.name !in t.names
                  && Fits(Exact(rows, depth, Roll(PathOf(last), depth))))
      && (r.Ok? ==> Tallies(r.value, rows, depth) && Lists(r.value.names, rows))
  {
    var last := rows[|rows| - 1];
    var path := Roll(PathOf(last), depth);
    AddRowIs(t, last, depth);
    ExactStep(rows, depth, path);
    assert At(t.bytes, t.values, path) == Exact(rows[..|rows| - 1], depth, path);
    TallyAdds(t.bytes, t.values, rows, depth, path, Exact(rows, depth, path));
    ListsAdds(t.names, rows);
  }

  lemma {:induction false} SummaryFront(rows: seq<Column>, depth: Option<nat>)
    requires rows != []
    ensures
      var front := Summary(rows[..|rows| - 1], depth);
      Summary(rows, depth) == if front.Err? then front else AddRow(front.value, rows[|rows| - 1], depth)
  {
  }

  /** A summary succeeds exactly when every name is a column's, no name repeats, and no rolled-up total passes the
      limit; it then holds exactly those totals. */
  lemma {:induction false} SummaryIff(rows: seq<Column>, depth: Option<nat>)
    ensures Summary(rows, depth).Ok? <==> Named(rows) && DistinctNames(rows) && AllFit(rows, depth)
    ensures Summary(rows, depth).Ok? ==>
      Tallies(Summary(rows, depth).value, rows, depth) && Lists(Summary(rows, depth).value.names, rows)
  {
    if rows == [] {
      assert Tallies(Totals({}, map[], map[]), rows, depth);
    } else {
      var front := rows[..|rows| - 1];
      SummaryIff(front, depth);
      SummaryFront(rows, depth);
      FrontOf(rows);
      FitsFront(rows, depth);
      if Summary(front, depth).Ok? {
        var t := Summary(front, depth).value;
        SummaryAdds(rows, depth, t);
        assert rows[|rows| - 1].name in t.names <==>
               exists k :: 0 <= k < |front| && front[k].name == rows[|rows| - 1].name;
      }
    }
  }

  // ----- from the rows' own fields -----

  /** The pieces of the rolled-up path are the first `depth` of the full path's, or all of them when it has fewer;
      without a depth the path stays as it is. */
  predicate StandsAt(full: Text, depth: Option<nat>, path: Text) {
    match depth
    case None => path == full
    case Some(d) =>
      var pieces := Split(full, '.');
      Split(path, '.') == if d <= |pieces| then pieces[..d] else pieces
  }

  lemma {:induction false} RollIs(path: Text, depth: Option<nat>)
    requires depth != Some(0)
    ensures StandsAt(path, depth, Roll(path, depth))
  {
    if depth.Some? {
      var pieces := Split(path, '.');
      assert forall k :: 0 <= k < |Take(pieces, depth.value)| ==> Take(pieces, depth.value)[k] == pieces[k];
      SplitJoin(Take(pieces, depth.value), '.');
      WholePrefix(pieces);
    }
  }

  /** A path stands at one rolled-up path only. */
  lemma {:induction false} RollIff(full: Text, depth: Option<nat>, path: Text)
    requires depth != Some(0)
    ensures StandsAt(full, depth, path) <==> path == Roll(full, depth)
  {
    RollIs(full, depth);
    if depth.Some? && StandsAt(full, depth, path) {
      JoinSplit(path, '.');
      JoinSplit(Roll(full, depth), '.');
    }
  }

  /** The row is a column's whose path stands there. */
  predicate RowAt(row: Column, depth: Option<nat>, path: Text) {
    var ids := Names.ParseColumn(row.name);
    ids.Some? && |ids.value| == 3 && StandsAt(ids.value[2], depth, path)
  }

  predicate AnyAt(rows: seq<Column>, depth: Option<nat>, path: Text) {
    exists k :: 0 <= k < |rows| && RowAt(rows[k], depth, path)
  }

  /** The compressed bytes the rows at a path report. */
  function BytesAt(rows: seq<Column>, depth: Option<nat>, path: Text): nat {
    if rows == [] then 0
    else
      var front, last := BytesAt(rows[..|rows| - 1], depth, path), rows[|rows| - 1];
      if RowAt(last, depth, path) && last.mass.Some? then front + OrZero(last.mass.value.compressedBytes) else front
  }

  /** And the values. */
  function ValuesAt(rows: seq<Column>, depth: Option<nat>, path: Text): nat {
    if rows == [] then 0
    else
      var front, last := ValuesAt(rows[..|rows| - 1], depth, path), rows[|rows| - 1];
      if RowAt(last, depth, path) && last.mass.Some? then front + OrZero(last.mass.value.valueCount) else front
  }

  lemma {:induction false} RowAtIff(row: Column, depth: Option<nat>, path: Text)
    requires depth != Some(0) && ColumnPath(row.name).Some?
    ensures RowAt(row, depth, path) <==> Roll(PathOf(row), depth) == path
  {
    RollIff(PathOf(row), depth, path);
  }

  /** What the rows say of a path, from their own fields. */
  function SaidAt(rows: seq<Column>, depth: Option<nat>, path: Text): Measure {
    Measure(AnyAt(rows, depth, path), BytesAt(rows, depth, path), ValuesAt(rows, depth, path))
  }

  lemma {:induction false} SaidStep(rows: seq<Column>, depth: Option<nat>, path: Text)
    requires rows != []
    ensures
      var front, last := rows[..|rows| - 1], rows[|rows| - 1];
      SaidAt(rows, depth, path) ==
        if RowAt(last, depth, path) then Plus(SaidAt(front, depth, path), RowMeasure(last))
        else SaidAt(front, depth, path)
  {
    var n := |rows| - 1;
    assert forall k :: 0 <= k < n ==> rows[..n][k] == rows[k];
    assert AnyAt(rows, depth, path) <==> AnyAt(rows[..n], depth, path) || RowAt(rows[n], depth, path);
  }

  lemma {:induction false} ExactIs(rows: seq<Column>, depth: Option<nat>, path: Text)
    requires depth != Some(0) && Named(rows)
    ensures Exact(rows, depth, path) == SaidAt(rows, depth, path)
  {
    if rows != [] {
      FrontOf(rows);
      ExactIs(rows[..|rows| - 1], depth, path);
      ExactStep(rows, depth, path);
      SaidStep(rows, depth, path);
      RowAtIff(rows[|rows| - 1], depth, path);
    }
  }

  /** The totals at every path are below two to the 64. */
  ghost predicate TotalsFit(rows: seq<Column>, depth: Option<nat>) {
    forall path :: BytesAt(rows, depth, path) < 0x1_0000_0000_0000_0000
                   && ValuesAt(rows, depth, path) < 0x1_0000_0000_0000_0000
  }

  /** A side can be summed exactly when every row is a column's, no two have one name, and every total fits. */
  lemma {:induction false} SideIff(rows: seq<Column>, depth: Option<nat>)
    requires depth != Some(0)
    ensures Summary(rows, depth).Ok? <==> Named(rows) && DistinctNames(rows) && TotalsFit(rows, depth)
  {
    SummaryIff(rows, depth);
    if Named(rows) {
      forall path ensures Fits(Exact(rows, depth, path)) <==>
        BytesAt(rows, depth, path) < 0x1_0000_0000_0000_0000 && ValuesAt(rows, depth, path) < 0x1_0000_0000_0000_0000
      {
        ExactIs(rows, depth, path);
      }
    }
  }

  /** The first row at fault decides a side's error. */
  lemma {:induction false} SideFails(rows: seq<Column>, depth: Option<nat>, k: nat)
    requires k < |rows| && Summary(rows[..k], depth).Ok?
    ensures ColumnPath(rows[k].name).None? ==> Summary(rows, depth) == Err(NotAColumn(rows[k].name))
    ensures ColumnPath(rows[k].name).Some? && (exists i :: 0 <= i < k && rows[i].name == rows[k].name) ==>
      Summary(rows, depth) == Err(Error.Duplicate(rows[k].name))
    ensures ColumnPath(rows[k].name).Some? && !(exists i :: 0 <= i < k && rows[i].name == rows[k].name) ==>
      (Summary(rows[..k + 1], depth).Err? ==> Summary(rows, depth) == Err(Error.Overflow))
  {
    var t := Summary(rows[..k], depth).value;
    SummaryIff(rows[..k], depth);
    assert rows[k].name in t.names <==> exists i :: 0 <= i < k && rows[..k][i].name == rows[k].name;
    assert forall i :: 0 <= i < k ==> rows[..k][i] == rows[i];
    SummaryStep(rows, depth, k);
    if Summary(rows[..k + 1], depth).Err? {
      SummaryStops(rows, depth, k + 1);
    }
  }

  // ----- coarser and finer depths -----

  predicate Coarser(coarse: Option<nat>, fine: Option<nat>) {
    fine.None? || (coarse.Some? && 0 < coarse.value <= fine.value)
  }

  /** Rolling up twice is rolling up to the coarser depth. */
  lemma {:induction false} RollRoll(path: Text, coarse: Option<nat>, fine: Option<nat>)
    requires Coarser(coarse, fine)
    ensures Roll(Roll(path, fine), coarse) == Roll(path, coarse)
  {
    if fine.Some? {
      var pieces := Split(path, '.');
      var kept := Take(pieces, fine.value);
      SplitJoin(kept, '.');
      assert Take(kept, coarse.value) == Take(pieces, coarse.value);
    }
  }

  predicate AtMost(a: Measure, b: Measure) {
    (a.seen ==> b.seen) && a.bytes <= b.bytes && a.values <= b.values
  }

  lemma {:induction false} FinerIsSmaller(rows: seq<Column>, coarse: Option<nat>, fine: Option<nat>, path: Text)
    requires Coarser(coarse, fine)
    ensures AtMost(Exact(rows, fine, path), Exact(rows, coarse, Roll(path, coarse)))
  {
    if rows != [] {
      FinerIsSmaller(rows[..|rows| - 1], coarse, fine, path);
      RollRoll(PathOf(rows[|rows| - 1]), coarse, fine);
      ExactStep(rows, fine, path);
      ExactStep(rows, coarse, Roll(path, coarse));
    }
  }

  /** A summary that succeeds at a coarse depth succeeds at every finer one. */
  lemma {:induction false} FinerSucceeds(rows: seq<Column>, coarse: Option<nat>, fine: Option<nat>)
    requires Coarser(coarse, fine) && Summary(rows, coarse).Ok?
    ensures Summary(rows, fine).Ok?
  {
    SummaryIff(rows, coarse);
    SummaryIff(rows, fine);
    forall path ensures Fits(Exact(rows, fine, path)) {
      FinerIsSmaller(rows, coarse, fine, path);
      assert Fits(Exact(rows, coarse, Roll(path, coarse)));
    }
  }

  // ----- sums over paths -----

  /** The sum of what the picked paths measure. */
  function Group(paths: seq<Text>, at: Text -> Measure, pick: Text -> bool): Measure {
    if paths == [] then NOTHING
    else
      var front, last := Group(paths[..|paths| - 1], at, pick), paths[|paths| - 1];
      if pick(last) then Plus(front, at(last)) else front
  }

  predicate DistinctPaths(paths: seq<Text>) {
    forall i, j :: 0 <= i < j < |paths| ==> paths[i] != paths[j]
  }

  lemma {:induction false} GroupLocal(paths: seq<Text>, f: Text -> Measure, g: Text -> Measure, pick: Text -> bool)
    requires forall p :: p in paths ==> f(p) == g(p)
    ensures Group(paths, f, pick) == Group(paths, g, pick)
  {
    if paths != [] {
      GroupLocal(paths[..|paths| - 1], f, g, pick);
    }
  }

  lemma {:induction false} GroupOfNothing(paths: seq<Text>, f: Text -> Measure, pick: Text -> bool)
    requires forall p :: p in paths ==> f(p) == NOTHING
    ensures Group(paths, f, pick) == NOTHING
  {
    if paths != [] {
      var front, last := paths[..|paths| - 1], paths[|paths| - 1];
      assert paths == front + [last];
      GroupOfNothing(front, f, pick);
      assert f(last) == NOTHING;
    }
  }

  /** Adding to one path adds to every sum that picks it. */
  lemma {:induction false} GroupBump(
    paths: seq<Text>, f: Text -> Measure, g: Text -> Measure, pick: Text -> bool, path: Text, m: Measure)
    requires DistinctPaths(paths) && path in paths
    requires forall p :: p in paths ==> g(p) == if p == path then Plus(f(p), m) else f(p)
    ensures Group(paths, g, pick) == if pick(path) then Plus(Group(paths, f, pick), m) else Group(paths, f, pick)
  {
    var front, last := paths[..|paths| - 1], paths[|paths| - 1];
    assert paths == front + [last];
    if last == path {
      assert path !in front;
      GroupLocal(front, f, g, pick);
    } else {
      GroupBump(front, f, g, pick, path, m);
    }
  }

  /** The sum of the rows whose rolled-up path is picked. */
  function Picked(rows: seq<Column>, depth: Option<nat>, pick: Text -> bool): Measure {
    if rows == [] then NOTHING
    else
      var front, last := Picked(rows[..|rows| - 1], depth, pick), rows[|rows| - 1];
      if pick(Roll(PathOf(last), depth)) then Plus(front, RowMeasure(last)) else front
  }

  function ExactAt(rows: seq<Column>, depth: Option<nat>): Text -> Measure {
    path => Exact(rows, depth, path)
  }

  predicate Covers(paths: seq<Text>, rows: seq<Column>, depth: Option<nat>) {
    forall k :: 0 <= k < |rows| ==> Roll(PathOf(rows[k]), depth) in paths
  }

  /** Summing the totals of the picked paths is summing the picked rows. */
  lemma {:induction false} GroupIsPicked(
    rows: seq<Column>, depth: Option<nat>, paths: seq<Text>, pick: Text -> bool)
    requires DistinctPaths(paths) && Covers(paths, rows, depth)
    ensures Group(paths, ExactAt(rows, depth), pick) == Picked(rows, depth, pick)
  {
    if rows == [] {
      GroupOfNothing(paths, ExactAt(rows, depth), pick);
    } else {
      var front, last := rows[..|rows| - 1], rows[|rows| - 1];
      assert forall k :: 0 <= k < |front| ==> front[k] == rows[k];
      GroupIsPicked(front, depth, paths, pick);
      forall p | p in paths
        ensures ExactAt(rows, depth)(p) ==
                if p == Roll(PathOf(last), depth) then Plus(ExactAt(front, depth)(p), RowMeasure(last))
                else ExactAt(front, depth)(p)
      {
        ExactStep(rows, depth, p);
      }
      GroupBump(paths, ExactAt(front, depth), ExactAt(rows, depth), pick, Roll(PathOf(last), depth), RowMeasure(last));
    }
  }

  function RollsTo(depth: Option<nat>, path: Text): Text -> bool {
    p => Roll(p, depth) == path
  }

  lemma {:induction false} PickedIsExact(rows: seq<Column>, coarse: Option<nat>, fine: Option<nat>, path: Text)
    requires Coarser(coarse, fine)
    ensures Picked(rows, fine, RollsTo(coarse, path)) == Exact(rows, coarse, path)
  {
    if rows != [] {
      PickedIsExact(rows[..|rows| - 1], coarse, fine, path);
      RollRoll(PathOf(rows[|rows| - 1]), coarse, fine);
    }
  }

  lemma {:induction false} SeenIff(rows: seq<Column>, depth: Option<nat>, path: Text)
    ensures Exact(rows, depth, path).seen <==> exists k :: 0 <= k < |rows| && Roll(PathOf(rows[k]), depth) == path
    ensures !Exact(rows, depth, path).seen ==> Exact(rows, depth, path) == NOTHING
  {
    if rows != [] {
      var front := rows[..|rows| - 1];
      SeenIff(front, depth, path);
      assert forall k :: 0 <= k < |front| ==> front[k] == rows[k];
      assert Roll(PathOf(rows[|rows| - 1]), depth) == path ==> RowMeasure(rows[|rows| - 1]).seen;
    }
  }

  // ----- the comparison, in terms of the exact sums -----

  function SidePaths(rows: seq<Column>, depth: Option<nat>): set<Text> {
    set k | 0 <= k < |rows| :: Roll(PathOf(rows[k]), depth)
  }

  function Paths(left: seq<Column>, right: seq<Column>, depth: Option<nat>): set<Text> {
    SidePaths(left, depth) + SidePaths(right, depth)
  }

  lemma {:induction false} KeysAreRolled(t: Totals, rows: seq<Column>, depth: Option<nat>)
    requires Tallies(t, rows, depth)
    ensures t.bytes.Keys == SidePaths(rows, depth)
  {
    forall p ensures p in t.bytes <==> exists k :: 0 <= k < |rows| && Roll(PathOf(rows[k]), depth) == p {
      SeenIff(rows, depth, p);
      assert At(t.bytes, t.values, p) == Exact(rows, depth, p);
    }
  }

  /** One comparison: a delta for each rolled-up path of either side, in path order, from the exact sums. */
  lemma {:induction false} ComparedIs(left: seq<Column>, right: seq<Column>, depth: Option<nat>)
    requires Compared(left, right, depth).Ok?
    ensures Summary(left, depth).Ok? && Summary(right, depth).Ok?
    ensures
      var deltas, paths := Compared(left, right, depth).value, SortedKeys(Paths(left, right, depth));
      |deltas| == |paths|
      && forall k :: 0 <= k < |paths| ==>
        deltas[k] == Delta(paths[k], Exact(left, depth, paths[k]), Exact(right, depth, paths[k]))
  {
    SummaryIff(left, depth);
    SummaryIff(right, depth);
    var l, r := Summary(left, depth).value, Summary(right, depth).value;
    KeysAreRolled(l, left, depth);
    KeysAreRolled(r, right, depth);
    assert l.bytes.Keys + r.bytes.Keys == Paths(left, right, depth);
  }

  lemma {:induction false} ComparedIff(left: seq<Column>, right: seq<Column>, depth: Option<nat>)
    ensures Compared(left, right, depth).Ok? <==>
            depth != Some(0) && Summary(left, depth).Ok? && Summary(right, depth).Ok?
  {
  }

  /** What a comparison says of one path: the totals of each side where it has a row, and the right less the left. */
  predicate Tells(d: ColumnDelta, left: seq<Column>, right: seq<Column>, depth: Option<nat>) {
    && d.leftBytes == (if AnyAt(left, depth, d.column) then Some(BytesAt(left, depth, d.column)) else None)
    && d.rightBytes == (if AnyAt(right, depth, d.column) then Some(BytesAt(right, depth, d.column)) else None)
    && d.deltaBytes == BytesAt(right, depth, d.column) - BytesAt(left, depth, d.column)
    && d.leftValues == ValuesAt(left, depth, d.column) && d.rightValues == ValuesAt(right, depth, d.column)
  }

  lemma {:induction false} DeltaTells(left: seq<Column>, right: seq<Column>, depth: Option<nat>, path: Text)
    requires depth != Some(0) && Named(left) && Named(right)
    ensures Tells(Delta(path, Exact(left, depth, path), Exact(right, depth, path)), left, right, depth)
  {
    ExactIs(left, depth, path);
    ExactIs(right, depth, path);
    NothingAt(left, depth, path);
    NothingAt(right, depth, path);
  }

  lemma {:induction false} NothingAt(rows: seq<Column>, depth: Option<nat>, path: Text)
    ensures !AnyAt(rows, depth, path) ==> BytesAt(rows, depth, path) == 0
  {
    if rows != [] && !AnyAt(rows, depth, path) {
      var n := |rows| - 1;
      assert forall k :: 0 <= k < n ==> rows[..n][k] == rows[k];
      NothingAt(rows[..n], depth, path);
    }
  }

  lemma {:induction false} PathsAre(left: seq<Column>, right: seq<Column>, depth: Option<nat>, path: Text)
    requires depth != Some(0) && Named(left) && Named(right)
    ensures path in Paths(left, right, depth) <==> AnyAt(left, depth, path) || AnyAt(right, depth, path)
  {
    forall k | 0 <= k < |left| ensures RowAt(left[k], depth, path) <==> Roll(PathOf(left[k]), depth) == path {
      RollIff(PathOf(left[k]), depth, path);
    }
    forall k | 0 <= k < |right| ensures RowAt(right[k], depth, path) <==> Roll(PathOf(right[k]), depth) == path {
      RollIff(PathOf(right[k]), depth, path);
    }
  }

  predicate HasDelta(deltas: seq<ColumnDelta>, path: Text) {
    exists k :: 0 <= k < |deltas| && deltas[k].column == path
  }

  predicate InPathOrder(deltas: seq<ColumnDelta>) {
    forall i, j {:trigger deltas[i], deltas[j]} :: 0 <= i < j < |deltas| ==>
      Le(deltas[i].column, deltas[j].column) && deltas[i].column != deltas[j].column
  }

  lemma {:induction false} DeltasFollow(deltas: seq<ColumnDelta>, paths: seq<Text>)
    requires |deltas| == |paths| && forall k :: 0 <= k < |deltas| ==> deltas[k].column == paths[k]
    requires Ascending(paths) && DistinctPaths(paths)
    ensures InPathOrder(deltas) && forall path :: HasDelta(deltas, path) <==> path in paths
  {
    forall path | path in paths ensures HasDelta(deltas, path) {
      var k :| 0 <= k < |paths| && paths[k] == path;
      assert deltas[k].column == path;
    }
  }

  /** The comparison from the rows' own fields: one delta, in path order, for each path some row of either side stands
      at, and each delta's totals are the sums over those rows. */
  lemma {:induction false} ComparisonHolds(left: seq<Column>, right: seq<Column>, depth: Option<nat>)
    requires Compared(left, right, depth).Ok?
    ensures
      var deltas := Compared(left, right, depth).value;
      && InPathOrder(deltas)
      && (forall path :: HasDelta(deltas, path) <==> AnyAt(left, depth, path) || AnyAt(right, depth, path))
      && (forall k :: 0 <= k < |deltas| ==> Tells(deltas[k], left, right, depth))
  {
    var deltas, paths := Compared(left, right, depth).value, SortedKeys(Paths(left, right, depth));
    DeltasTell(left, right, depth);
    SortedKeysAscend(Paths(left, right, depth));
    DeltasFollow(deltas, paths);
    forall path ensures path in paths <==> AnyAt(left, depth, path) || AnyAt(right, depth, path) {
      PathsAre(left, right, depth, path);
    }
  }

  lemma {:induction false} DeltasTell(left: seq<Column>, right: seq<Column>, depth: Option<nat>)
    requires Compared(left, right, depth).Ok?
    ensures depth != Some(0) && Named(left) && Named(right)
    ensures
      var deltas, paths := Compared(left, right, depth).value, SortedKeys(Paths(left, right, depth));
      |deltas| == |paths|
      && forall k :: 0 <= k < |deltas| ==> deltas[k].column == paths[k] && Tells(deltas[k], left, right, depth)
  {
    ComparedIff(left, right, depth);
    SummaryIff(left, depth);
    SummaryIff(right, depth);
    ComparedIs(left, right, depth);
    var deltas, paths := Compared(left, right, depth).value, SortedKeys(Paths(left, right, depth));
    forall k | 0 <= k < |deltas| ensures deltas[k].column == paths[k] && Tells(deltas[k], left, right, depth) {
      DeltaTells(left, right, depth, paths[k]);
    }
  }

  /** A depth of zero is refused first, then the left side's error is reported, and then the right side's. */
  lemma {:induction false} ComparisonFails(left: seq<Column>, right: seq<Column>, depth: Option<nat>)
    ensures depth == Some(0) ==> Compared(left, right, depth) == Err(DepthZero)
    ensures depth != Some(0) && Summary(left, depth).Err? ==>
      Compared(left, right, depth) == Err(Summary(left, depth).error)
    ensures depth != Some(0) && Summary(left, depth).Ok? && Summary(right, depth).Err? ==>
      Compared(left, right, depth) == Err(Summary(right, depth).error)
    ensures depth != Some(0) && Summary(left, depth).Ok? && Summary(right, depth).Ok? ==>
      Compared(left, right, depth).Ok?
  {
  }

  /** Whether one delta is another seen from the other side. */
  predicate Swapped(a: ColumnDelta, b: ColumnDelta) {
    && a.column == b.column && a.deltaBytes == -b.deltaBytes
    && a.leftBytes == b.rightBytes && a.leftValues == b.rightValues && a.leftBytesPerValue == b.rightBytesPerValue
    && a.rightBytes == b.leftBytes && a.rightValues == b.leftValues && a.rightBytesPerValue == b.leftBytesPerValue
  }

  lemma {:induction false} DeltaSwaps(column: Text, left: Measure, right: Measure)
    ensures Swapped(Delta(column, left, right), Delta(column, right, left))
  {
  }

  lemma {:induction false} SamePaths(left: seq<Column>, right: seq<Column>, depth: Option<nat>)
    ensures Paths(left, right, depth) == Paths(right, left, depth)
  {
  }

  /** Swapping the sides swaps every total and negates every delta. */
  lemma {:induction false} SwapNegates(left: seq<Column>, right: seq<Column>, depth: Option<nat>)
    requires Compared(left, right, depth).Ok?
    ensures Compared(right, left, depth).Ok?
    ensures
      var there, back := Compared(left, right, depth).value, Compared(right, left, depth).value;
      |there| == |back| && forall k :: 0 <= k < |there| ==> Swapped(there[k], back[k])
  {
    ComparedIff(left, right, depth);
    ComparedIff(right, left, depth);
    ComparedIs(left, right, depth);
    ComparedIs(right, left, depth);
    SamePaths(left, right, depth);
    var there, back := Compared(left, right, depth).value, Compared(right, left, depth).value;
    var paths := SortedKeys(Paths(left, right, depth));
    forall k | 0 <= k < |there| ensures Swapped(there[k], back[k]) {
      DeltaSwaps(paths[k], Exact(left, depth, paths[k]), Exact(right, depth, paths[k]));
    }
  }

  // ----- conservation -----

  function Everything(): Text -> bool {
    p => true
  }

  function DeltaTotal(deltas: seq<ColumnDelta>): int {
    if deltas == [] then 0 else DeltaTotal(deltas[..|deltas| - 1]) + deltas[|deltas| - 1].deltaBytes
  }

  function TotalBytes(rows: seq<Column>): nat {
    if rows == [] then 0 else TotalBytes(rows[..|rows| - 1]) + RowMeasure(rows[|rows| - 1]).bytes
  }

  lemma {:induction false} EverythingIsTotal(rows: seq<Column>, depth: Option<nat>)
    ensures Picked(rows, depth, Everything()).bytes == TotalBytes(rows)
  {
    if rows != [] {
      EverythingIsTotal(rows[..|rows| - 1], depth);
    }
  }

  lemma {:induction false} DeltasTotal(
    deltas: seq<ColumnDelta>, paths: seq<Text>, left: Text -> Measure, right: Text -> Measure)
    requires |deltas| == |paths|
    requires forall p :: p in paths ==> Proper(left(p)) && Proper(right(p))
    requires forall k :: 0 <= k < |paths| ==> deltas[k] == Delta(paths[k], left(paths[k]), right(paths[k]))
    ensures DeltaTotal(deltas) == Group(paths, right, Everything()).bytes - Group(paths, left, Everything()).bytes
  {
    if paths != [] {
      var n := |paths| - 1;
      var front, last := paths[..n], paths[n];
      assert paths == front + [last];
      DeltasTotal(deltas[..n], front, left, right);
      assert Proper(left(last)) && Proper(right(last));
      DeltaBytes(last, left(last), right(last));
    }
  }

  /** Unseen rows measure nothing. */
  predicate Proper(m: Measure) {
    !m.seen ==> m == NOTHING
  }

  lemma {:induction false} DeltaBytes(column: Text, left: Measure, right: Measure)
    requires Proper(left) && Proper(right)
    ensures Delta(column, left, right).deltaBytes == right.bytes - left.bytes
  {
  }

  lemma {:induction false} PathsCover(left: seq<Column>, right: seq<Column>, depth: Option<nat>)
    ensures
      var paths := SortedKeys(Paths(left, right, depth));
      DistinctPaths(paths) && Covers(paths, left, depth) && Covers(paths, right, depth)
  {
    var all := Paths(left, right, depth);
    forall k | 0 <= k < |left| ensures Roll(PathOf(left[k]), depth) in all {
    }
    forall k | 0 <= k < |right| ensures Roll(PathOf(right[k]), depth) in all {
    }
  }

  /** At every depth the deltas add up to everything on the right less everything on the left. */
  lemma {:induction false} DeltasConserve(left: seq<Column>, right: seq<Column>, depth: Option<nat>)
    requires Compared(left, right, depth).Ok?
    ensures DeltaTotal(Compared(left, right, depth).value) == TotalBytes(right) - TotalBytes(left)
  {
    var paths := SortedKeys(Paths(left, right, depth));
    ComparedIs(left, right, depth);
    PathsCover(left, right, depth);
    forall p | p in paths ensures Proper(ExactAt(left, depth)(p)) && Proper(ExactAt(right, depth)(p)) {
      SeenIff(left, depth, p);
      SeenIff(right, depth, p);
    }
    DeltasTotal(Compared(left, right, depth).value, paths, ExactAt(left, depth), ExactAt(right, depth));
    GroupIsPicked(left, depth, paths, Everything());
    GroupIsPicked(right, depth, paths, Everything());
    EverythingIsTotal(left, depth);
    EverythingIsTotal(right, depth);
  }

  // ----- rolling a comparison up -----

  function LeftOf(c: ColumnDelta): Measure {
    Measure(c.leftBytes.Some?, OrZero(c.leftBytes), c.leftValues)
  }

  function RightOf(c: ColumnDelta): Measure {
    Measure(c.rightBytes.Some?, OrZero(c.rightBytes), c.rightValues)
  }

  /** One side of the deltas that roll up to a path, added up. */
  function SumOf(deltas: seq<ColumnDelta>, side: ColumnDelta -> Measure, pick: Text -> bool): Measure {
    if deltas == [] then NOTHING
    else
      var front, last := SumOf(deltas[..|deltas| - 1], side, pick), deltas[|deltas| - 1];
      if pick(last.column) then Plus(front, side(last)) else front
  }

  /** What a reader of the finer deltas would make of the coarser depth. */
  function RolledUp(deltas: seq<ColumnDelta>, depth: Option<nat>): (coarse: seq<ColumnDelta>)
  {
    var paths := SortedKeys(set c | c in deltas :: Roll(c.column, depth));
    seq(|paths|, k requires 0 <= k < |paths| =>
      Delta(
        paths[k],
        SumOf(deltas, LeftOf, RollsTo(depth, paths[k])),
        SumOf(deltas, RightOf, RollsTo(depth, paths[k]))))
  }

  lemma {:induction false} SidesOf(column: Text, left: Measure, right: Measure)
    requires Proper(left) && Proper(right)
    ensures LeftOf(Delta(column, left, right)) == left && RightOf(Delta(column, left, right)) == right
  {
  }

  lemma {:induction false} SumIsGroup(
    deltas: seq<ColumnDelta>, paths: seq<Text>, side: ColumnDelta -> Measure, at: Text -> Measure, pick: Text -> bool)
    requires |deltas| == |paths|
    requires forall k :: 0 <= k < |paths| ==> deltas[k].column == paths[k] && side(deltas[k]) == at(paths[k])
    ensures SumOf(deltas, side, pick) == Group(paths, at, pick)
  {
    if paths != [] {
      SumIsGroup(deltas[..|deltas| - 1], paths[..|paths| - 1], side, at, pick);
    }
  }

  lemma {:induction false} SideRolls(rows: seq<Column>, coarse: Option<nat>, fine: Option<nat>, q: Text)
    requires Coarser(coarse, fine)
    ensures q in SidePaths(rows, coarse) <==> exists p :: p in SidePaths(rows, fine) && Roll(p, coarse) == q
  {
    forall k | 0 <= k < |rows| ensures Roll(Roll(PathOf(rows[k]), fine), coarse) == Roll(PathOf(rows[k]), coarse) {
      RollRoll(PathOf(rows[k]), coarse, fine);
    }
    if q in SidePaths(rows, coarse) {
      var k :| 0 <= k < |rows| && Roll(PathOf(rows[k]), coarse) == q;
      assert Roll(PathOf(rows[k]), fine) in SidePaths(rows, fine);
    }
  }

  lemma {:induction false} PathsRoll(
    left: seq<Column>, right: seq<Column>, coarse: Option<nat>, fine: Option<nat>)
    requires Coarser(coarse, fine)
    ensures (set p | p in Paths(left, right, fine) :: Roll(p, coarse)) == Paths(left, right, coarse)
  {
    forall q ensures q in Paths(left, right, coarse) <==>
                     exists p :: p in Paths(left, right, fine) && Roll(p, coarse) == q {
      SideRolls(left, coarse, fine, q);
      SideRolls(right, coarse, fine, q);
    }
  }

  /** The sums the finer deltas roll up to are the coarser depth's own. */
  lemma {:induction false} SidesRollUp(
    left: seq<Column>, right: seq<Column>, coarse: Option<nat>, fine: Option<nat>, deltas: seq<ColumnDelta>, path: Text)
    requires Coarser(coarse, fine) && Compared(left, right, fine) == Ok(deltas)
    ensures SumOf(deltas, LeftOf, RollsTo(coarse, path)) == Exact(left, coarse, path)
    ensures SumOf(deltas, RightOf, RollsTo(coarse, path)) == Exact(right, coarse, path)
  {
    var paths, pick := SortedKeys(Paths(left, right, fine)), RollsTo(coarse, path);
    ComparedIs(left, right, fine);
    PathsCover(left, right, fine);
    forall k | 0 <= k < |paths|
      ensures deltas[k].column == paths[k]
      ensures LeftOf(deltas[k]) == ExactAt(left, fine)(paths[k])
      ensures RightOf(deltas[k]) == ExactAt(right, fine)(paths[k])
    {
      SeenIff(left, fine, paths[k]);
      SeenIff(right, fine, paths[k]);
      SidesOf(paths[k], Exact(left, fine, paths[k]), Exact(right, fine, paths[k]));
    }
    SumIsGroup(deltas, paths, LeftOf, ExactAt(left, fine), pick);
    SumIsGroup(deltas, paths, RightOf, ExactAt(right, fine), pick);
    GroupIsPicked(left, fine, paths, pick);
    GroupIsPicked(right, fine, paths, pick);
    PickedIsExact(left, coarse, fine, path);
    PickedIsExact(right, coarse, fine, path);
  }

  lemma {:induction false} ColumnsAre(deltas: seq<ColumnDelta>, paths: seq<Text>)
    requires |deltas| == |paths| && forall k :: 0 <= k < |paths| ==> deltas[k].column == paths[k]
    ensures (set c | c in deltas :: c.column) == (set p | p in paths)
  {
    forall p | p in paths ensures exists c :: c in deltas && c.column == p {
      var k :| 0 <= k < |paths| && paths[k] == p;
      assert deltas[k] in deltas;
    }
  }

  lemma {:induction false} ComparedColumns(
    left: seq<Column>, right: seq<Column>, depth: Option<nat>, deltas: seq<ColumnDelta>, paths: seq<Text>)
    requires Compared(left, right, depth) == Ok(deltas) && paths == SortedKeys(Paths(left, right, depth))
    ensures |deltas| == |paths| && forall k :: 0 <= k < |paths| ==> deltas[k].column == paths[k]
  {
    ComparedIs(left, right, depth);
  }

  lemma {:induction false} MembersOfKeys(s: set<Text>, keys: seq<Text>)
    requires keys == SortedKeys(s)
    ensures (set p | p in keys) == s
  {
  }

  lemma {:induction false} ColumnsOfDeltas(
    left: seq<Column>, right: seq<Column>, depth: Option<nat>, deltas: seq<ColumnDelta>)
    requires Compared(left, right, depth) == Ok(deltas)
    ensures (set c | c in deltas :: c.column) == Paths(left, right, depth)
  {
    var paths := SortedKeys(Paths(left, right, depth));
    ComparedColumns(left, right, depth, deltas, paths);
    ColumnsAre(deltas, paths);
    MembersOfKeys(Paths(left, right, depth), paths);
  }

  lemma {:induction false} ColumnsRoll(deltas: seq<ColumnDelta>, columns: set<Text>, depth: Option<nat>)
    requires columns == set c | c in deltas :: c.column
    ensures (set c | c in deltas :: Roll(c.column, depth)) == (set p | p in columns :: Roll(p, depth))
  {
    forall c | c in deltas ensures Roll(c.column, depth) in (set p | p in columns :: Roll(p, depth)) {
      assert c.column in columns;
    }
  }

  /** Rolling up is a homomorphism: a comparison that succeeds at a coarse depth succeeds at every finer one, and
      rolling the finer deltas up is comparing at the coarse depth in the first place. */
  lemma {:induction false} RollingUp(left: seq<Column>, right: seq<Column>, coarse: Option<nat>, fine: Option<nat>)
    requires Coarser(coarse, fine) && Compared(left, right, coarse).Ok?
    ensures Compared(left, right, fine).Ok?
    ensures RolledUp(Compared(left, right, fine).value, coarse) == Compared(left, right, coarse).value
  {
    ComparedIff(left, right, coarse);
    ComparedIff(left, right, fine);
    FinerSucceeds(left, coarse, fine);
    FinerSucceeds(right, coarse, fine);
    var deltas := Compared(left, right, fine).value;
    ColumnsOfDeltas(left, right, fine, deltas);
    ColumnsRoll(deltas, Paths(left, right, fine), coarse);
    PathsRoll(left, right, coarse, fine);
    ComparedIs(left, right, coarse);
    var paths := SortedKeys(Paths(left, right, coarse));
    forall k | 0 <= k < |paths| ensures RolledUp(deltas, coarse)[k] == Compared(left, right, coarse).value[k] {
      SidesRollUp(left, right, coarse, fine, deltas, paths[k]);
    }
  }
}
