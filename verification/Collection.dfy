/** A file's column chunks folded into one measurement per leaf column: an index by name kept beside two lists that
    grow together, then each column's chunks reduced to totals, known sums, unions and ratios. */
module Collection {
  import opened Text
  import opened Utf8
  import Names

  const LIMIT: nat := 0x1_0000_0000_0000_0000

  /** What the footer says of one column chunk. */
  datatype Chunk = Chunk(
    column: Text, physicalType: Text, definitionLevel: nat, repetitionLevel: nat,
    compressedBytes: nat, uncompressedBytes: nat, values: nat, codec: Text, dictionary: bool,
    dictionaryBytes: Option<nat>, unencodedBytes: Option<nat>, nullCount: Option<nat>, distinctCount: Option<nat>,
    minValue: Option<Text>, maxValue: Option<Text>, encodings: seq<Text>, dataEncodings: Option<seq<Text>>)

  // ----- grouping -----

  /** One column, in the place of its first chunk, with the chunk that opened it. */
  datatype Column = Column(name: Text, position: nat, first: Chunk)

  datatype Grouped = Grouped(at: map<Text, nat>, columns: seq<Column>, chunks: seq<seq<Chunk>>)

  const NO_COLUMNS := Grouped(map[], [], [])

  /** The index and the two lists agree: same length, the index is where the name stands, and each name stands once. */
  predicate Agrees(g: Grouped) {
    && |g.columns| == |g.chunks|
    && (forall name :: name in g.at ==> g.at[name] < |g.columns| && g.columns[g.at[name]].name == name)
    && (forall k :: 0 <= k < |g.columns| ==> g.columns[k].name in g.at && g.at[g.columns[k].name] == k)
  }

  function Opened(g: Grouped, chunk: Chunk): Grouped {
    if chunk.column in g.at then g
    else Grouped(
      g.at[chunk.column := |g.columns|], g.columns + [Column(chunk.column, |g.columns|, chunk)], g.chunks + [[]])
  }

  lemma {:induction false} OpenedAgrees(g: Grouped, chunk: Chunk)
    requires Agrees(g)
    ensures Agrees(Opened(g, chunk)) && chunk.column in Opened(g, chunk).at
  {
  }

  function Added(g: Grouped, chunk: Chunk): Grouped
    requires Agrees(g)
  {
    OpenedAgrees(g, chunk);
    var h := Opened(g, chunk);
    var k := h.at[chunk.column];
    Grouped(h.at, h.columns, h.chunks[k := h.chunks[k] + [chunk]])
  }

  lemma {:induction false} AddedAgrees(g: Grouped, chunk: Chunk)
    requires Agrees(g)
    ensures Agrees(Added(g, chunk))
  {
    OpenedAgrees(g, chunk);
  }

  function GroupOf(chunks: seq<Chunk>): (g: Grouped)
    ensures Agrees(g)
  {
    if chunks == [] then NO_COLUMNS
    else
      AddedAgrees(GroupOf(chunks[..|chunks| - 1]), chunks[|chunks| - 1]);
      Added(GroupOf(chunks[..|chunks| - 1]), chunks[|chunks| - 1])
  }

  /** Fold one chunk at a time, keeping the index and both lists. */
  method GroupChunks(chunks: seq<Chunk>) returns (g: Grouped)
    ensures g == GroupOf(chunks)
  {
    var at: map<Text, nat> := map[];
    var columns: seq<Column> := [];
    var lists: seq<seq<Chunk>> := [];
    for k := 0 to |chunks|
      invariant Grouped(at, columns, lists) == GroupOf(chunks[..k])
    {
      Prefix(chunks, k);
      ghost var before := Grouped(at, columns, lists);
      OpenedAgrees(before, chunks[k]);
      if chunks[k].column !in at {
        at := at[chunks[k].column := |columns|];
        columns := columns + [Column(chunks[k].column, |columns|, chunks[k])];
        lists := lists + [[]];
      }
      var index := at[chunks[k].column];
      lists := lists[index := lists[index] + [chunks[k]]];
    }
    WholePrefix(chunks);
    return Grouped(at, columns, lists);
  }

  // ----- what the grouping holds -----

  /** The names in the order they are first seen. */
  function FirstSeen(chunks: seq<Chunk>): seq<Text> {
    if chunks == [] then []
    else
      var front, name := FirstSeen(chunks[..|chunks| - 1]), chunks[|chunks| - 1].column;
      if name in front then front else front + [name]
  }

  /** The chunks of one column, in file order. */
  function ChunksOf(chunks: seq<Chunk>, name: Text): seq<Chunk> {
    if chunks == [] then []
    else
      var front, last := ChunksOf(chunks[..|chunks| - 1], name), chunks[|chunks| - 1];
      if last.column == name then front + [last] else front
  }

  /** What is held of one column. */
  predicate HoldsAt(g: Grouped, seen: seq<Text>, chunks: seq<Chunk>, k: nat)
    requires k < |g.columns| && |g.columns| == |g.chunks| == |seen|
  {
    && g.columns[k].name == seen[k] && g.columns[k].position == k
    && g.chunks[k] == ChunksOf(chunks, g.columns[k].name)
    && g.chunks[k] != [] && g.columns[k].first == g.chunks[k][0]
  }

  ghost predicate Holds(g: Grouped, chunks: seq<Chunk>) {
    && Agrees(g)
    && (forall name :: name in g.at <==> name in FirstSeen(chunks))
    && |g.columns| == |FirstSeen(chunks)|
    && (forall k :: 0 <= k < |g.columns| ==> HoldsAt(g, FirstSeen(chunks), chunks, k))
    && (forall name :: name !in g.at ==> ChunksOf(chunks, name) == [])
  }

  lemma {:induction false} AddedAt(g: Grouped, chunk: Chunk, k: nat)
    requires Agrees(g) && k < |Added(g, chunk).columns|
    ensures
      var h := Added(g, chunk);
      h.columns[k] == (if k < |g.columns| then g.columns[k] else Column(chunk.column, |g.columns|, chunk))
      && (k >= |g.columns| ==> chunk.column !in g.at && k == |g.columns|)
      && h.chunks[k] ==
         if k >= |g.columns| then [chunk]
         else if g.columns[k].name == chunk.column then g.chunks[k] + [chunk]
         else g.chunks[k]
  {
    OpenedAgrees(g, chunk);
  }

  lemma {:induction false} SeenSnoc(front: seq<Chunk>, chunk: Chunk, name: Text)
    ensures
      var all := front + [chunk];
      FirstSeen(all) ==
        (if chunk.column in FirstSeen(front) then FirstSeen(front) else FirstSeen(front) + [chunk.column])
      && ChunksOf(all, name) ==
        (if chunk.column == name then ChunksOf(front, name) + [chunk] else ChunksOf(front, name))
  {
    assert (front + [chunk])[..|front|] == front;
  }

  lemma {:induction false} AddedHoldsAt(g: Grouped, front: seq<Chunk>, chunk: Chunk, k: nat)
    requires Holds(g, front) && k < |Added(g, chunk).columns|
    requires |FirstSeen(front + [chunk])| == |Added(g, chunk).columns| == |Added(g, chunk).chunks|
    ensures HoldsAt(Added(g, chunk), FirstSeen(front + [chunk]), front + [chunk], k)
  {
    AddedAt(g, chunk, k);
    SeenSnoc(front, chunk, Added(g, chunk).columns[k].name);
    if k < |g.columns| {
      assert HoldsAt(g, FirstSeen(front), front, k);
    }
  }

  lemma {:induction false} AddedNames(g: Grouped, chunk: Chunk)
    requires Agrees(g)
    ensures
      var h := Added(g, chunk);
      Agrees(h) && (forall name :: name in h.at <==> name in g.at || name == chunk.column)
      && |h.columns| == |g.columns| + if chunk.column in g.at then 0 else 1
  {
    AddedAgrees(g, chunk);
  }

  lemma {:induction false} AddedHolds(g: Grouped, front: seq<Chunk>, chunk: Chunk)
    requires Holds(g, front)
    ensures Holds(Added(g, chunk), front + [chunk])
  {
    var h, all := Added(g, chunk), front + [chunk];
    AddedNames(g, chunk);
    SeenSnoc(front, chunk, chunk.column);
    forall k | 0 <= k < |h.columns| ensures HoldsAt(h, FirstSeen(all), all, k) {
      AddedHoldsAt(g, front, chunk, k);
    }
    forall name | name !in h.at ensures ChunksOf(all, name) == [] {
      SeenSnoc(front, chunk, name);
    }
  }

  /** The columns come out in the order they are first seen, each once, with the first chunk's facts, and the parallel
      list holds exactly that column's chunks in file order. */
  lemma {:induction false} GroupHolds(chunks: seq<Chunk>)
    ensures Holds(GroupOf(chunks), chunks)
  {
    if chunks != [] {
      var front, last := chunks[..|chunks| - 1], chunks[|chunks| - 1];
      GroupHolds(front);
      assert chunks == front + [last];
      AddedHolds(GroupOf(front), front, last);
    }
  }

  // ----- conservation -----

  /** A count every chunk reports. */
  datatype Figure = Compressed | Uncompressed | Values

  function FigureOf(chunk: Chunk, figure: Figure): nat {
    match figure
    case Compressed => chunk.compressedBytes
    case Uncompressed => chunk.uncompressedBytes
    case Values => chunk.values
  }

  function Sum(chunks: seq<Chunk>, figure: Figure): nat {
    if chunks == [] then 0 else Sum(chunks[..|chunks| - 1], figure) + FigureOf(chunks[|chunks| - 1], figure)
  }

  function AllSum(lists: seq<seq<Chunk>>, figure: Figure): nat {
    if lists == [] then 0 else AllSum(lists[..|lists| - 1], figure) + Sum(lists[|lists| - 1], figure)
  }

  lemma {:induction false} SumSnoc(chunks: seq<Chunk>, chunk: Chunk, figure: Figure)
    ensures Sum(chunks + [chunk], figure) == Sum(chunks, figure) + FigureOf(chunk, figure)
  {
    assert (chunks + [chunk])[..|chunks|] == chunks;
  }

  lemma {:induction false} AllSumSnoc(lists: seq<seq<Chunk>>, list: seq<Chunk>, figure: Figure)
    ensures AllSum(lists + [list], figure) == AllSum(lists, figure) + Sum(list, figure)
  {
    assert (lists + [list])[..|lists|] == lists;
  }

  lemma {:induction false} AllSumUpdate(lists: seq<seq<Chunk>>, k: nat, list: seq<Chunk>, figure: Figure)
    requires k < |lists|
    ensures AllSum(lists[k := list], figure) == AllSum(lists, figure) - Sum(lists[k], figure) + Sum(list, figure)
  {
    var n := |lists| - 1;
    if k == n {
      assert lists[k := list][..n] == lists[..n];
    } else {
      AllSumUpdate(lists[..n], k, list, figure);
      assert lists[k := list][..n] == lists[..n][k := list];
    }
  }

  /** What one more chunk adds to each figure, from its own counts. */
  lemma {:induction false} FiguresAdd(chunks: seq<Chunk>, chunk: Chunk)
    ensures forall figure :: Sum([], figure) == 0
    ensures Sum(chunks + [chunk], Compressed) == Sum(chunks, Compressed) + chunk.compressedBytes
    ensures Sum(chunks + [chunk], Uncompressed) == Sum(chunks, Uncompressed) + chunk.uncompressedBytes
    ensures Sum(chunks + [chunk], Values) == Sum(chunks, Values) + chunk.values
  {
    SumSnoc(chunks, chunk, Compressed);
    SumSnoc(chunks, chunk, Uncompressed);
    SumSnoc(chunks, chunk, Values);
  }

  /** Grouping loses no byte and no value, and counts none twice. */
  lemma {:induction false} GroupConserves(chunks: seq<Chunk>, figure: Figure)
    ensures AllSum(GroupOf(chunks).chunks, figure) == Sum(chunks, figure)
  {
    if chunks != [] {
      var front, last := chunks[..|chunks| - 1], chunks[|chunks| - 1];
      GroupConserves(front, figure);
      var g := GroupOf(front);
      OpenedAgrees(g, last);
      var h := Opened(g, last);
      AllSumSnoc(g.chunks, [], figure);
      var k := h.at[last.column];
      AllSumUpdate(h.chunks, k, h.chunks[k] + [last], figure);
      SumSnoc(h.chunks[k], last, figure);
    }
  }

  // ----- known sums and unions -----

  /** The sum of parts, when every part is known, there is one, and no total on the way passes the limit. */
  method KnownSum(parts: seq<Option<nat>>) returns (r: Option<nat>)
    ensures r == SumOf(parts)
  {
    var total, seen := 0, false;
    for k := 0 to |parts|
      invariant AllKnown(parts[..k]) && total == Exact(parts[..k]) && seen == (k > 0)
      invariant total < LIMIT
    {
      Prefix(parts, k);
      if parts[k].None? {
        return None;
      }
      if total + parts[k].value >= LIMIT {
        ExactGrows(parts, k + 1);
        return None;
      }
      total := total + parts[k].value;
      seen := true;
    }
    WholePrefix(parts);
    r := if seen then Some(total) else None;
  }

  predicate AllKnown(parts: seq<Option<nat>>) {
    forall k :: 0 <= k < |parts| ==> parts[k].Some?
  }

  function Exact(parts: seq<Option<nat>>): nat {
    if parts == [] then 0
    else Exact(parts[..|parts| - 1]) + if parts[|parts| - 1].Some? then parts[|parts| - 1].value else 0
  }

  /** The sum is known exactly when there are parts, every one is known and their total fits. */
  function SumOf(parts: seq<Option<nat>>): Option<nat> {
    if parts != [] && AllKnown(parts) && Exact(parts) < LIMIT then Some(Exact(parts)) else None
  }

  lemma {:induction false} ExactGrows(parts: seq<Option<nat>>, k: nat)
    requires k <= |parts|
    ensures Exact(parts[..k]) <= Exact(parts)
  {
    if k < |parts| {
      var front := parts[..|parts| - 1];
      ExactGrows(front, k);
      assert front[..k] == parts[..k];
    } else {
      WholePrefix(parts);
    }
  }

  predicate Repeats(names: seq<Text>) {
    exists i, j :: 0 <= i < j < |names| && names[i] == names[j]
  }

  /** A list with the names it does not hold yet added in order. */
  function Merge(encodings: seq<Text>, more: seq<Text>): seq<Text> {
    if more == [] then encodings
    else
      var front, last := Merge(encodings, more[..|more| - 1]), more[|more| - 1];
      if last in front then front else front + [last]
  }

  /** Every set's names, in the order they are first seen. */
  function Union(sets: seq<seq<Text>>): seq<Text> {
    if sets == [] then [] else Merge(Union(sets[..|sets| - 1]), sets[|sets| - 1])
  }

  method AddEncodings(encodings: seq<Text>, more: seq<Text>) returns (all: seq<Text>)
    ensures all == Merge(encodings, more)
  {
    all := encodings;
    for k := 0 to |more|
      invariant all == Merge(encodings, more[..k])
    {
      Prefix(more, k);
      if more[k] !in all {
        all := all + [more[k]];
      }
    }
    WholePrefix(more);
  }

  method UnionAll(sets: seq<seq<Text>>) returns (encodings: seq<Text>)
    ensures encodings == Union(sets)
  {
    encodings := [];
    for k := 0 to |sets|
      invariant encodings == Union(sets[..k])
    {
      Prefix(sets, k);
      encodings := AddEncodings(encodings, sets[k]);
    }
    WholePrefix(sets);
  }

  predicate AllSets(sets: seq<Option<seq<Text>>>) {
    forall k :: 0 <= k < |sets| ==> sets[k].Some?
  }

  function Sets(sets: seq<Option<seq<Text>>>): seq<seq<Text>>
    requires AllSets(sets)
  {
    if sets == [] then [] else Sets(sets[..|sets| - 1]) + [sets[|sets| - 1].value]
  }

  /** The union, when every chunk reports a set and the union is not empty. */
  function UnionOf(sets: seq<Option<seq<Text>>>): Option<seq<Text>> {
    if AllSets(sets) && Union(Sets(sets)) != [] then Some(Union(Sets(sets))) else None
  }

  method KnownUnion(sets: seq<Option<seq<Text>>>) returns (r: Option<seq<Text>>)
    ensures r == UnionOf(sets)
  {
    var encodings: seq<Text> := [];
    for k := 0 to |sets|
      invariant AllSets(sets[..k]) && encodings == Union(Sets(sets[..k]))
    {
      Prefix(sets, k);
      if sets[k].None? {
        return None;
      }
      encodings := AddEncodings(encodings, sets[k].value);
    }
    WholePrefix(sets);
    return if encodings == [] then None else Some(encodings);
  }

  lemma {:induction false} MergeHolds(encodings: seq<Text>, more: seq<Text>)
    requires !Repeats(encodings)
    ensures !Repeats(Merge(encodings, more)) && encodings <= Merge(encodings, more)
    ensures forall e :: e in Merge(encodings, more) <==> e in encodings || e in more
  {
    if more != [] {
      var front, last := more[..|more| - 1], more[|more| - 1];
      assert more == front + [last];
      MergeHolds(encodings, front);
    }
  }

  /** A union repeats nothing, holds exactly what some set holds, and only grows at the end. */
  lemma {:induction false} UnionHolds(sets: seq<seq<Text>>)
    ensures !Repeats(Union(sets))
    ensures forall e :: e in Union(sets) <==> exists k :: 0 <= k < |sets| && e in sets[k]
    ensures sets != [] ==> Union(sets[..|sets| - 1]) <= Union(sets)
  {
    if sets != [] {
      var front, last := sets[..|sets| - 1], sets[|sets| - 1];
      UnionHolds(front);
      MergeHolds(Union(front), last);
      forall e ensures e in Union(sets) <==> exists k :: 0 <= k < |sets| && e in sets[k] {
        if e in Union(front) {
          var k :| 0 <= k < |front| && e in front[k];
          assert sets[k] == front[k];
        }
        if k :| 0 <= k < |sets| && e in sets[k] {
          assert k == |sets| - 1 || front[k] == sets[k];
        }
      }
    }
  }

  // ----- one column's measurement -----

  datatype Bytemass = Bytemass(
    compressedBytes: nat, uncompressedBytes: nat, valueCount: nat, codec: Option<Text>,
    encodings: seq<Text>, dataEncodings: Option<seq<Text>>, dictionary: bool,
    dictionaryBytes: Option<nat>, unencodedBytes: Option<nat>, nullCount: Option<nat>, distinctCount: Option<nat>,
    firstValue: Option<Text>, lastValue: Option<Text>, bytesPerValue: Option<real>, bytesPerRow: Option<real>,
    compressionRatio: Option<real>, nullFraction: Option<real>, dictionaryFraction: Option<real>)

  /** A count a chunk may leave out. */
  datatype Part = Nulls | Dictionary | Unencoded

  function PartOf(chunk: Chunk, part: Part): Option<nat> {
    match part
    case Nulls => chunk.nullCount
    case Dictionary => chunk.dictionaryBytes
    case Unencoded => chunk.unencodedBytes
  }

  function Parts(chunks: seq<Chunk>, part: Part): seq<Option<nat>> {
    seq(|chunks|, k requires 0 <= k < |chunks| => PartOf(chunks[k], part))
  }

  function Encodings(chunks: seq<Chunk>): seq<seq<Text>> {
    seq(|chunks|, k requires 0 <= k < |chunks| => chunks[k].encodings)
  }

  function DataEncodings(chunks: seq<Chunk>): seq<Option<seq<Text>>> {
    seq(|chunks|, k requires 0 <= k < |chunks| => chunks[k].dataEncodings)
  }

  /** The chunks with a dictionary page, in order. */
  function WithDictionary(chunks: seq<Chunk>): seq<Chunk> {
    if chunks == [] then []
    else
      var front, last := WithDictionary(chunks[..|chunks| - 1]), chunks[|chunks| - 1];
      if last.dictionary then front + [last] else front
  }

  predicate Uniform(chunks: seq<Chunk>, codec: Text) {
    forall k :: 0 <= k < |chunks| ==> chunks[k].codec == codec
  }

  /** Distinct count and bounds are facts of the file only when there is one chunk. */
  function SingleChunkFacts(chunks: seq<Chunk>): (Option<nat>, Option<Text>, Option<Text>) {
    if |chunks| == 1 then (chunks[0].distinctCount, chunks[0].minValue, chunks[0].maxValue) else (None, None, None)
  }

  /** A ratio, when the denominator is known and not zero; an unknown numerator counts as zero. */
  function Ratio(numerator: Option<nat>, denominator: Option<nat>): Option<real> {
    if denominator.None? || denominator.value == 0 then None
    else Some(OrZero(numerator) as real / denominator.value as real)
  }

  /** The measurement is taken over exactly these chunks. */
  ghost predicate Measures(m: Bytemass, chunks: seq<Chunk>, rowCount: nat) {
    && m.compressedBytes == Sum(chunks, Compressed)
    && m.uncompressedBytes == Sum(chunks, Uncompressed)
    && m.valueCount == Sum(chunks, Values)
    && (m.codec.Some? ==> chunks != [] && Uniform(chunks, m.codec.value))
    && (m.codec.None? ==> chunks == [] || !Uniform(chunks, chunks[0].codec))
    && m.encodings == Union(Encodings(chunks))
    && m.dataEncodings == UnionOf(DataEncodings(chunks))
    && (m.dictionary <==> exists k :: 0 <= k < |chunks| && chunks[k].dictionary)
    && m.dictionaryBytes == SumOf(Parts(WithDictionary(chunks), Dictionary))
    && m.unencodedBytes == SumOf(Parts(chunks, Unencoded))
    && m.nullCount == SumOf(Parts(chunks, Nulls))
    && m.distinctCount == (if |chunks| == 1 then chunks[0].distinctCount else None)
    && m.firstValue == (if |chunks| == 1 then chunks[0].minValue else None)
    && m.lastValue == (if |chunks| == 1 then chunks[0].maxValue else None)
    && m.bytesPerValue == Ratio(Some(m.compressedBytes), Some(m.valueCount))
    && m.bytesPerRow == Ratio(Some(m.compressedBytes), Some(rowCount))
    && m.compressionRatio == Ratio(Some(m.uncompressedBytes), Some(m.compressedBytes))
    && m.nullFraction == Ratio(m.nullCount, Some(m.valueCount))
    && m.dictionaryFraction == Ratio(m.dictionaryBytes, Some(m.compressedBytes))
  }

  method Measure(chunks: seq<Chunk>, rowCount: nat) returns (m: Bytemass)
    ensures Measures(m, chunks, rowCount)
  {
    var compressed, uncompressed, count := Sum(chunks, Compressed), Sum(chunks, Uncompressed), Sum(chunks, Values);
    var encodings := UnionAll(Encodings(chunks));
    var dataEncodings := KnownUnion(DataEncodings(chunks));
    var nullCount := KnownSum(Parts(chunks, Nulls));
    var dictionaryBytes := KnownSum(Parts(WithDictionary(chunks), Dictionary));
    var unencodedBytes := KnownSum(Parts(chunks, Unencoded));
    var codec := if chunks != [] && Uniform(chunks, chunks[0].codec) then Some(chunks[0].codec) else None;
    var facts := SingleChunkFacts(chunks);
    return Bytemass(
      compressed, uncompressed, count, codec, encodings, dataEncodings,
      exists k :: 0 <= k < |chunks| && chunks[k].dictionary, dictionaryBytes, unencodedBytes, nullCount,
      facts.0, facts.1, facts.2, Ratio(Some(compressed), Some(count)), Ratio(Some(compressed), Some(rowCount)),
      Ratio(Some(uncompressed), Some(compressed)), Ratio(nullCount, Some(count)),
      Ratio(dictionaryBytes, Some(compressed)));
  }

  /** Which of a chunk's counts each known sum is taken over, and over which chunks. */
  lemma {:induction false} PartsAre(chunks: seq<Chunk>, chunk: Chunk)
    ensures Parts(chunks + [chunk], Nulls) == Parts(chunks, Nulls) + [chunk.nullCount]
    ensures Parts(chunks + [chunk], Dictionary) == Parts(chunks, Dictionary) + [chunk.dictionaryBytes]
    ensures Parts(chunks + [chunk], Unencoded) == Parts(chunks, Unencoded) + [chunk.unencodedBytes]
    ensures WithDictionary(chunks + [chunk]) ==
            if chunk.dictionary then WithDictionary(chunks) + [chunk] else WithDictionary(chunks)
  {
    assert (chunks + [chunk])[..|chunks|] == chunks;
  }

  /** A known sum: there is a part, each is known, and one more adds what it says. */
  lemma {:induction false} SumOfSnoc(parts: seq<Option<nat>>, part: Option<nat>)
    ensures SumOf([]) == None
    ensures part.None? ==> SumOf(parts + [part]) == None
    ensures part.Some? && (parts == [] || SumOf(parts).Some?) ==>
      var total := OrZero(SumOf(parts)) + part.value;
      SumOf(parts + [part]) == if total < 0x1_0000_0000_0000_0000 then Some(total) else None
    ensures parts != [] && SumOf(parts).None? ==> SumOf(parts + [part]) == None
  {
    var all := parts + [part];
    assert all[..|parts|] == parts && all[|parts|] == part;
    assert forall k :: 0 <= k < |parts| ==> all[k] == parts[k];
    ExactGrows(all, |parts|);
  }

  /** The measurement is the only one of its chunks. */
  lemma {:induction false} MeasuredOnce(a: Bytemass, b: Bytemass, chunks: seq<Chunk>, rowCount: nat)
    requires Measures(a, chunks, rowCount) && Measures(b, chunks, rowCount)
    ensures a == b
  {
    if chunks != [] {
      assert forall codec :: Uniform(chunks, codec) ==> chunks[0].codec == codec;
    }
  }

  lemma {:induction false} DictionaryChunks(chunks: seq<Chunk>)
    ensures WithDictionary(chunks) != [] <==> exists k :: 0 <= k < |chunks| && chunks[k].dictionary
  {
    if chunks != [] {
      var front := chunks[..|chunks| - 1];
      DictionaryChunks(front);
      if k :| 0 <= k < |chunks| && chunks[k].dictionary {
        assert k == |chunks| - 1 || front[k] == chunks[k];
      }
      if k :| 0 <= k < |front| && front[k].dictionary {
        assert chunks[k].dictionary;
      }
    }
  }

  predicate Recovers(ratio: Option<real>, numerator: nat, denominator: nat) {
    && (ratio.Some? <==> denominator > 0)
    && (ratio.Some? ==> ratio.value * denominator as real == numerator as real)
  }

  lemma {:induction false} RatioRecovers(numerator: Option<nat>, denominator: nat)
    ensures Recovers(Ratio(numerator, Some(denominator)), OrZero(numerator), denominator)
  {
  }

  /** Each ratio exists exactly when its divisor is positive and gives its numerator back; a column without a
      dictionary page has no dictionary bytes, and a dictionary fraction of zero wherever there are bytes at all. */
  lemma {:induction false} MassFigures(m: Bytemass, chunks: seq<Chunk>, rowCount: nat)
    requires Measures(m, chunks, rowCount)
    ensures Recovers(m.bytesPerValue, Sum(chunks, Compressed), Sum(chunks, Values))
    ensures Recovers(m.bytesPerRow, Sum(chunks, Compressed), rowCount)
    ensures Recovers(m.compressionRatio, Sum(chunks, Uncompressed), Sum(chunks, Compressed))
    ensures Recovers(m.nullFraction, OrZero(m.nullCount), Sum(chunks, Values))
    ensures Recovers(m.dictionaryFraction, OrZero(m.dictionaryBytes), Sum(chunks, Compressed))
    ensures !m.dictionary ==> m.dictionaryBytes.None?
    ensures !m.dictionary && m.compressedBytes > 0 ==> m.dictionaryFraction == Some(0.0)
  {
    DictionaryChunks(chunks);
    RatioRecovers(Some(m.compressedBytes), m.valueCount);
    RatioRecovers(Some(m.compressedBytes), rowCount);
    RatioRecovers(Some(m.uncompressedBytes), m.compressedBytes);
    RatioRecovers(m.nullCount, m.valueCount);
    RatioRecovers(m.dictionaryBytes, m.compressedBytes);
  }

  // ----- the columns of a blob -----

  /** One leaf column of a blob: its name, its place, its first chunk's type and levels, and its measurement. */
  datatype Leaf = Leaf(
    name: Text, position: nat, physicalType: Text, definitionLevel: nat, repetitionLevel: nat, rowGroups: nat,
    mass: Bytemass)

  /** A footer as it is read: its chunks in file order, with the rows and row groups of the file. */
  datatype FileMass = FileMass(chunks: seq<Chunk>, rowCount: nat, rowGroups: nat)

  ghost predicate LeafIs(leaf: Leaf, service: Text, locator: Text, file: FileMass, path: Text, position: nat) {
    var own := ChunksOf(file.chunks, path);
    && own != []
    && leaf.name == Names.Column(service, locator, path) && leaf.position == position
    && leaf.physicalType == own[0].physicalType
    && leaf.definitionLevel == own[0].definitionLevel && leaf.repetitionLevel == own[0].repetitionLevel
    && leaf.rowGroups == file.rowGroups
    && Measures(leaf.mass, own, file.rowCount)
  }

  /** One leaf to each column path, in first-seen order, measured over exactly that path's chunks. */
  ghost predicate LeavesAre(leaves: seq<Leaf>, service: Text, locator: Text, file: FileMass) {
    LeavesTo(leaves, service, locator, file, |FirstSeen(file.chunks)|)
  }

  /** The first leaves, by number. */
  ghost predicate LeavesTo(leaves: seq<Leaf>, service: Text, locator: Text, file: FileMass, n: nat) {
    && |leaves| == n <= |FirstSeen(file.chunks)|
    && (forall k :: 0 <= k < n ==> LeafIs(leaves[k], service, locator, file, FirstSeen(file.chunks)[k], k))
  }

  lemma {:induction false} GroupAt(chunks: seq<Chunk>, k: nat)
    requires k < |GroupOf(chunks).columns|
    ensures |GroupOf(chunks).columns| == |GroupOf(chunks).chunks| == |FirstSeen(chunks)|
    ensures HoldsAt(GroupOf(chunks), FirstSeen(chunks), chunks, k)
  {
    GroupHolds(chunks);
  }

  function LeafOf(column: Column, service: Text, locator: Text, rowGroups: nat, mass: Bytemass): Leaf {
    Leaf(
      Names.Column(service, locator, column.name), column.position, column.first.physicalType,
      column.first.definitionLevel, column.first.repetitionLevel, rowGroups, mass)
  }

  lemma {:induction false} LeafHolds(file: FileMass, k: nat, service: Text, locator: Text, mass: Bytemass)
    requires k < |GroupOf(file.chunks).columns| && Measures(mass, GroupOf(file.chunks).chunks[k], file.rowCount)
    ensures k < |FirstSeen(file.chunks)|
    ensures
      LeafIs(LeafOf(GroupOf(file.chunks).columns[k], service, locator, file.rowGroups, mass),
             service, locator, file, FirstSeen(file.chunks)[k], k)
  {
    GroupAt(file.chunks, k);
  }

  lemma {:induction false} LeavesGrow(
    leaves: seq<Leaf>, leaf: Leaf, service: Text, locator: Text, file: FileMass, n: nat)
    requires LeavesTo(leaves, service, locator, file, n) && n < |FirstSeen(file.chunks)|
    requires LeafIs(leaf, service, locator, file, FirstSeen(file.chunks)[n], n)
    ensures LeavesTo(leaves + [leaf], service, locator, file, n + 1)
  {
    var all := leaves + [leaf];
    forall k | 0 <= k < n + 1 ensures LeafIs(all[k], service, locator, file, FirstSeen(file.chunks)[k], k) {
      if k < n {
        assert all[k] == leaves[k];
      } else {
        assert all[k] == leaf;
      }
    }
  }

  /** List a blob's columns, each with its measurement, or refuse a name that is no blob's. */
  method ListColumns(blob: Text, file: FileMass) returns (r: Result<seq<Leaf>, Text>)
    ensures Names.ParseBlob(blob).None? ==> r == Err(blob)
    ensures Names.ParseBlob(blob).Some? ==>
      r.Ok? && LeavesAre(r.value, Names.ParseBlob(blob).value.0, Names.ParseBlob(blob).value.1, file)
  {
    var parsed := Names.ParseBlob(blob);
    if parsed.None? {
      return Err(blob);
    }
    var (service, locator) := parsed.value;
    var g := GroupChunks(file.chunks);
    GroupHolds(file.chunks);
    var leaves: seq<Leaf> := [];
    for k := 0 to |g.columns|
      invariant LeavesTo(leaves, service, locator, file, k)
    {
      var mass := Measure(g.chunks[k], file.rowCount);
      LeafHolds(file, k, service, locator, mass);
      var leaf := LeafOf(g.columns[k], service, locator, file.rowGroups, mass);
      LeavesGrow(leaves, leaf, service, locator, file, k);
      leaves := leaves + [leaf];
    }
    return Ok(leaves);
  }

  function MassOf(mass: Bytemass, figure: Figure): nat {
    match figure
    case Compressed => mass.compressedBytes
    case Uncompressed => mass.uncompressedBytes
    case Values => mass.valueCount
  }

  function Total(leaves: seq<Leaf>, figure: Figure): nat {
    if leaves == [] then 0 else Total(leaves[..|leaves| - 1], figure) + MassOf(leaves[|leaves| - 1].mass, figure)
  }

  lemma {:induction false} TotalIsAllSum(leaves: seq<Leaf>, lists: seq<seq<Chunk>>, figure: Figure)
    requires |leaves| == |lists|
    requires forall k :: 0 <= k < |leaves| ==> MassOf(leaves[k].mass, figure) == Sum(lists[k], figure)
    ensures Total(leaves, figure) == AllSum(lists, figure)
  {
    if leaves != [] {
      TotalIsAllSum(leaves[..|leaves| - 1], lists[..|lists| - 1], figure);
    }
  }

  /** The columns of a blob together weigh what its chunks weigh: compressed, uncompressed and in values. */
  lemma {:induction false} LeavesConserve(
    leaves: seq<Leaf>, service: Text, locator: Text, file: FileMass, figure: Figure)
    requires LeavesAre(leaves, service, locator, file)
    ensures Total(leaves, figure) == Sum(file.chunks, figure)
  {
    var g := GroupOf(file.chunks);
    GroupHolds(file.chunks);
    forall k | 0 <= k < |leaves| ensures MassOf(leaves[k].mass, figure) == Sum(g.chunks[k], figure) {
      GroupAt(file.chunks, k);
      assert LeafIs(leaves[k], service, locator, file, FirstSeen(file.chunks)[k], k);
    }
    TotalIsAllSum(leaves, g.chunks, figure);
    GroupConserves(file.chunks, figure);
  }

  lemma {:induction false} SeenOnce(chunks: seq<Chunk>, i: nat, j: nat)
    requires i < j < |FirstSeen(chunks)|
    ensures FirstSeen(chunks)[i] != FirstSeen(chunks)[j]
  {
    var g := GroupOf(chunks);
    GroupHolds(chunks);
    assert HoldsAt(g, FirstSeen(chunks), chunks, i) && HoldsAt(g, FirstSeen(chunks), chunks, j);
  }

  /** A leaf's name reads back to its blob and its path, so no two leaves of a blob share one. */
  lemma {:induction false} LeavesAreNamed(
    leaves: seq<Leaf>, service: Text, locator: Text, file: FileMass, i: nat, j: nat)
    requires LeavesAre(leaves, service, locator, file) && i < j < |leaves|
    requires Valid(service) && Valid(locator)
    requires Valid(FirstSeen(file.chunks)[i]) && Valid(FirstSeen(file.chunks)[j])
    ensures Names.ParseColumn(leaves[i].name) == Some([service, locator, FirstSeen(file.chunks)[i]])
    ensures leaves[i].name != leaves[j].name
  {
    var x, y := FirstSeen(file.chunks)[i], FirstSeen(file.chunks)[j];
    assert LeafIs(leaves[i], service, locator, file, x, i) && LeafIs(leaves[j], service, locator, file, y, j);
    Names.ColumnParses(service, locator, x);
    Names.ColumnParses(service, locator, y);
    SeenOnce(file.chunks, i, j);
    assert [service, locator, x][2] == x && [service, locator, y][2] == y;
  }
}
