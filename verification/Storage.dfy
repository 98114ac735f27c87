/** What storage costs: each table's files are priced by storage class, each class's monthly cost is apportioned to
    the table's columns by their bytes, and a row's tiers make a cost range. */
module Storage {
  import opened Text
  import opened Sums
  import opened Mass
  import Names

  // ----- what storage costs -----

  datatype Tier = Tier(storageClass: Text, accessTier: Option<Text>, dollars: real, costPerMonth: real)

  const GIBIBYTE: real := 1073741824.0

  /** Dollars per gibibyte per month of each class, one price per access tier. */
  type PriceList = map<Text, seq<(Option<Text>, real)>>

  /** The S3 list prices (us-east-1). */
  const S3_PRICES: PriceList := map[
    "STANDARD" := [(None, 0.023)],
    "REDUCED_REDUNDANCY" := [(None, 0.024)],
    "INTELLIGENT_TIERING" := [
      (Some("FREQUENT_ACCESS"), 0.023),
      (Some("INFREQUENT_ACCESS"), 0.0125),
      (Some("ARCHIVE_INSTANT_ACCESS"), 0.004),
      (Some("ARCHIVE_ACCESS"), 0.0036),
      (Some("DEEP_ARCHIVE_ACCESS"), 0.00099)],
    "STANDARD_IA" := [(None, 0.0125)],
    "ONEZONE_IA" := [(None, 0.01)],
    "EXPRESS_ONEZONE" := [(None, 0.11)],
    "GLACIER_IR" := [(None, 0.004)],
    "GLACIER" := [(None, 0.0036)],
    "DEEP_ARCHIVE" := [(None, 0.00099)]]

  /** The price of a class, or of one of its access tiers. */
  function ListPrice(name: Text, tier: nat): real {
    if name in S3_PRICES && tier < |S3_PRICES[name]| then S3_PRICES[name][tier].1 else 0.0
  }

  /** The list in dollars for a hundred thousand gibibytes a month. Each access tier of intelligent tiering costs what
      the class that it moves an object to costs. */
  lemma {:induction false} ListPricesAre()
    ensures ListPrice("STANDARD", 0) * 100000.0 == 2300.0 && ListPrice("REDUCED_REDUNDANCY", 0) * 100000.0 == 2400.0
    ensures ListPrice("STANDARD_IA", 0) * 100000.0 == 1250.0 && ListPrice("ONEZONE_IA", 0) * 100000.0 == 1000.0
    ensures ListPrice("EXPRESS_ONEZONE", 0) * 100000.0 == 11000.0 && ListPrice("GLACIER_IR", 0) * 100000.0 == 400.0
    ensures ListPrice("GLACIER", 0) * 100000.0 == 360.0 && ListPrice("DEEP_ARCHIVE", 0) * 100000.0 == 99.0
    ensures ListPrice("INTELLIGENT_TIERING", 0) == ListPrice("STANDARD", 0)
    ensures ListPrice("INTELLIGENT_TIERING", 1) == ListPrice("STANDARD_IA", 0)
    ensures ListPrice("INTELLIGENT_TIERING", 2) == ListPrice("GLACIER_IR", 0)
    ensures ListPrice("INTELLIGENT_TIERING", 3) == ListPrice("GLACIER", 0)
    ensures ListPrice("INTELLIGENT_TIERING", 4) == ListPrice("DEEP_ARCHIVE", 0)
    ensures |S3_PRICES| == 9
  {
  }

  datatype ClassFiles = ClassFiles(gigabytes: real, complete: bool)

  /** The class a file is billed in: an S3 object of a priced class. */
  function BilledClass(prices: PriceList, blob: Text, facts: FileFacts): Option<Text> {
    var name := PricedClass(blob, facts.storageClass);
    if name.Some? && name.value in prices then name else None
  }

  /** The billed size of the files one record stands for. */
  function Gigabytes(weight: real, size: nat): real {
    weight * size as real / GIBIBYTE
  }

  function AddFile(
    prices: PriceList, files: map<Text, ClassFiles>, blob: Text, facts: FileFacts): map<Text, ClassFiles>
  {
    var name := BilledClass(prices, blob, facts);
    if name.None? then files
    else
      var total := Get(files, name.value, ClassFiles(0.0, true));
      files[name.value := match facts.sizeBytes
        case Some(size) => ClassFiles(total.gigabytes + Gigabytes(facts.weight, size), total.complete)
        case None => ClassFiles(total.gigabytes, false)]
  }

  function FilesOf(prices: PriceList, blobs: map<Text, FileFacts>, keys: seq<Text>): (files: map<Text, ClassFiles>)
    requires forall k :: k in keys ==> k in blobs
    ensures forall n :: n in files ==> n in prices
  {
    if keys == [] then map[]
    else AddFile(prices, FilesOf(prices, blobs, keys[..|keys| - 1]), keys[|keys| - 1], blobs[keys[|keys| - 1]])
  }

  function TierOf(name: Text, gigabytes: real, price: (Option<Text>, real)): Tier {
    Tier(name, price.0, price.1, gigabytes * price.1)
  }

  function Tiers(name: Text, gigabytes: real, prices: seq<(Option<Text>, real)>): (tiers: seq<Tier>)
    ensures |tiers| == |prices| && forall k :: 0 <= k < |prices| ==> tiers[k] == TierOf(name, gigabytes, prices[k])
  {
    seq(|prices|, k requires 0 <= k < |prices| => TierOf(name, gigabytes, prices[k]))
  }

  function ClassTiers(prices: PriceList, name: Text, gigabytes: real): seq<Tier>
    requires name in prices
  {
    Tiers(name, gigabytes, prices[name])
  }

  function CostsAlong(prices: PriceList, files: map<Text, ClassFiles>, names: seq<Text>): map<Text, seq<Tier>>
    requires forall n :: n in names ==> n in files && n in prices
  {
    if names == [] then map[]
    else
      var before, name := CostsAlong(prices, files, names[..|names| - 1]), names[|names| - 1];
      if files[name].complete then before[name := ClassTiers(prices, name, files[name].gigabytes)] else before
  }

  /** Each complete class's monthly cost, one entry per access tier. */
  function ClassCosts(prices: PriceList, blobs: map<Text, FileFacts>): map<Text, seq<Tier>> {
    var files := FilesOf(prices, blobs, SortedKeys(blobs.Keys));
    CostsAlong(prices, files, SortedKeys(files.Keys))
  }

  /** Add one file to its class, when it is billed in one. */
  method RecordFile(prices: PriceList, files: map<Text, ClassFiles>, blob: Text, facts: FileFacts)
    returns (recorded: map<Text, ClassFiles>)
    ensures recorded == AddFile(prices, files, blob, facts)
  {
    recorded := files;
    var name := BilledClass(prices, blob, facts);
    if name.Some? {
      var total := Get(files, name.value, ClassFiles(0.0, true));
      if facts.sizeBytes.Some? {
        total := total.(gigabytes := total.gigabytes + Gigabytes(facts.weight, facts.sizeBytes.value));
      } else {
        total := total.(complete := false);
      }
      recorded := files[name.value := total];
    }
  }

  method PriceClass(prices: PriceList, name: Text, gigabytes: real) returns (tiers: seq<Tier>)
    requires name in prices
    ensures tiers == ClassTiers(prices, name, gigabytes)
  {
    tiers := [];
    var list := prices[name];
    for k := 0 to |list|
      invariant |tiers| == k && forall i :: 0 <= i < k ==> tiers[i] == TierOf(name, gigabytes, list[i])
    {
      tiers := tiers + [TierOf(name, gigabytes, list[k])];
    }
  }

  /** The files of each class, added up in the order given. */
  method CollectFiles(prices: PriceList, blobs: map<Text, FileFacts>, keys: seq<Text>)
    returns (files: map<Text, ClassFiles>)
    requires forall k :: k in keys ==> k in blobs
    ensures files == FilesOf(prices, blobs, keys)
  {
    files := map[];
    for k := 0 to |keys|
      invariant files == FilesOf(prices, blobs, keys[..k])
    {
      Prefix(keys, k);
      files := RecordFile(prices, files, keys[k], blobs[keys[k]]);
    }
    WholePrefix(keys);
  }

  /** The complete classes, priced in the order given. */
  method CollectCosts(prices: PriceList, files: map<Text, ClassFiles>, names: seq<Text>)
    returns (costs: map<Text, seq<Tier>>)
    requires forall n :: n in names ==> n in files && n in prices
    ensures costs == CostsAlong(prices, files, names)
  {
    costs := map[];
    for k := 0 to |names|
      invariant costs == CostsAlong(prices, files, names[..k])
    {
      Prefix(names, k);
      if files[names[k]].complete {
        var tiers := PriceClass(prices, names[k], files[names[k]].gigabytes);
        costs := costs[names[k] := tiers];
      }
    }
    WholePrefix(names);
  }

  method TableClassCosts(prices: PriceList, blobs: map<Text, FileFacts>) returns (costs: map<Text, seq<Tier>>)
    ensures costs == ClassCosts(prices, blobs)
  {
    var files := CollectFiles(prices, blobs, SortedKeys(blobs.Keys));
    costs := CollectCosts(prices, files, SortedKeys(files.Keys));
  }

  /** The billed gigabytes each file adds to a class, sized files only. */
  ghost function ClassGigabytes(prices: PriceList, blobs: map<Text, FileFacts>, name: Text): map<Text, real> {
    map b | b in blobs :: if BilledClass(prices, b, blobs[b]) == Some(name) && blobs[b].sizeBytes.Some?
      then Gigabytes(blobs[b].weight, blobs[b].sizeBytes.value) else 0.0
  }

  predicate BilledIn(prices: PriceList, blobs: map<Text, FileFacts>, b: Text, name: Text) {
    b in blobs && BilledClass(prices, b, blobs[b]) == Some(name)
  }

  lemma {:induction false} AddFileMeans(
    prices: PriceList, files: map<Text, ClassFiles>, blobs: map<Text, FileFacts>, b: Text, name: Text)
    requires b in blobs
    ensures
      var before, after := Get(files, name, ClassFiles(0.0, true)), AddFile(prices, files, b, blobs[b]);
      && (name in after <==> name in files || BilledIn(prices, blobs, b, name))
      && Get(after, name, ClassFiles(0.0, true)).gigabytes == before.gigabytes + ClassGigabytes(prices, blobs, name)[b]
      && (Get(after, name, ClassFiles(0.0, true)).complete <==>
            before.complete && (BilledIn(prices, blobs, b, name) ==> blobs[b].sizeBytes.Some?))
  {
  }

  lemma {:induction false} FilesOfMeans(prices: PriceList, blobs: map<Text, FileFacts>, keys: seq<Text>, name: Text)
    requires forall k :: k in keys ==> k in blobs
    ensures
      var file := Get(FilesOf(prices, blobs, keys), name, ClassFiles(0.0, true));
      && (name in FilesOf(prices, blobs, keys) <==> exists b :: b in keys && BilledIn(prices, blobs, b, name))
      && (file.complete <==> forall b :: b in keys && BilledIn(prices, blobs, b, name) ==> blobs[b].sizeBytes.Some?)
      && file.gigabytes == SumAlong(ClassGigabytes(prices, blobs, name), keys)
  {
    if keys != [] {
      var front, last := keys[..|keys| - 1], keys[|keys| - 1];
      assert keys == front + [last];
      FilesOfMeans(prices, blobs, front, name);
      AddFileMeans(prices, FilesOf(prices, blobs, front), blobs, last, name);
      assert last in keys && forall b :: b in front ==> b in keys;
      assert forall b :: b in keys ==> b in front || b == last;
    }
  }

  lemma {:induction false} CostsAlongMeans(
    prices: PriceList, files: map<Text, ClassFiles>, names: seq<Text>, name: Text)
    requires forall n :: n in names ==> n in files && n in prices
    ensures name in CostsAlong(prices, files, names) <==> name in names && files[name].complete
    ensures name in CostsAlong(prices, files, names) ==>
      name in prices &&
      CostsAlong(prices, files, names)[name] == ClassTiers(prices, name, files[name].gigabytes)
  {
    if names != [] {
      var front, last := names[..|names| - 1], names[|names| - 1];
      assert names == front + [last];
      CostsAlongMeans(prices, files, front, name);
    }
  }

  /** A class is costed exactly when some file is billed in it and every such file has a size; each access tier then
      costs its price for all the class's weighted gigabytes. */
  lemma {:induction false} ClassCostsIff(prices: PriceList, blobs: map<Text, FileFacts>, name: Text)
    ensures name in ClassCosts(prices, blobs) <==>
      (exists b :: BilledIn(prices, blobs, b, name))
      && (forall b :: BilledIn(prices, blobs, b, name) ==> blobs[b].sizeBytes.Some?)
    ensures name in ClassCosts(prices, blobs) ==>
      name in prices &&
      ClassCosts(prices, blobs)[name] == ClassTiers(prices, name, Total(ClassGigabytes(prices, blobs, name)))
  {
    var keys := SortedKeys(blobs.Keys);
    var files := FilesOf(prices, blobs, keys);
    FilesOfMeans(prices, blobs, keys, name);
    SumAlongIsTotal(ClassGigabytes(prices, blobs, name), keys);
    CostsAlongMeans(prices, files, SortedKeys(files.Keys), name);
  }

  /** The file is an object in S3 of this class; one that reports none is a standard object. */
  predicate StoredIn(blobs: map<Text, FileFacts>, b: Text, name: Text) {
    && b in blobs
    && Names.ParseBlob(b).Some? && (Names.ParseBlob(b).value.0 == "s3" || Names.ParseBlob(b).value.0 == "s3a")
    && blobs[b].storageClass == (if blobs[b].storageClass.None? && name == "STANDARD" then None else Some(name))
  }

  /** The bytes each file of a class stands for: its size times its weight. */
  ghost function ClassBytes(blobs: map<Text, FileFacts>, name: Text): map<Text, real> {
    map b | b in blobs :: if StoredIn(blobs, b, name) then blobs[b].weight * OrZero(blobs[b].sizeBytes) as real else 0.0
  }

  lemma {:induction false} BilledIff(prices: PriceList, blobs: map<Text, FileFacts>, b: Text, name: Text)
    ensures BilledIn(prices, blobs, b, name) <==> StoredIn(blobs, b, name) && name in prices
  {
  }

  lemma {:induction false} GigabytesAre(weight: real, size: nat)
    ensures Gigabytes(weight, size) * 1073741824.0 == weight * size as real
  {
  }

  lemma {:induction false} ClassGigabytesAre(prices: PriceList, blobs: map<Text, FileFacts>, name: Text)
    requires name in prices && forall b :: StoredIn(blobs, b, name) ==> blobs[b].sizeBytes.Some?
    ensures Total(ClassGigabytes(prices, blobs, name)) * 1073741824.0 == Total(ClassBytes(blobs, name))
  {
    forall b | b in blobs
      ensures ClassBytes(blobs, name)[b] == Scaled(ClassGigabytes(prices, blobs, name)[b], 1073741824.0)
    {
      BilledIff(prices, blobs, b, name);
      GigabytesAre(blobs[b].weight, OrZero(blobs[b].sizeBytes));
    }
    TotalScaled(ClassGigabytes(prices, blobs, name), ClassBytes(blobs, name), 1073741824.0);
  }

  /** The tier is one of the class's prices, charged for so many bytes at a price per gibibyte. */
  predicate Charges(tier: Tier, name: Text, price: (Option<Text>, real), bytes: real) {
    && tier.storageClass == name && tier.accessTier == price.0 && tier.dollars == price.1
    && tier.costPerMonth * 1073741824.0 == bytes * price.1
  }

  lemma {:induction false} TierCharges(name: Text, gigabytes: real, bytes: real, price: (Option<Text>, real))
    requires gigabytes * 1073741824.0 == bytes
    ensures Charges(TierOf(name, gigabytes, price), name, price, bytes)
  {
    assert (gigabytes * price.1) * 1073741824.0 == (gigabytes * 1073741824.0) * price.1;
  }

  /** What a table's storage costs: a class has a cost exactly when it is priced, some file of the table is an object
      of it, and every such file has a size; it then costs, in the order of the price list, each tier's price for every
      gibibyte its files stand for. */
  lemma {:induction false} ClassCostsAre(prices: PriceList, blobs: map<Text, FileFacts>, name: Text)
    ensures name in ClassCosts(prices, blobs) <==>
      && name in prices && (exists b :: StoredIn(blobs, b, name))
      && (forall b :: StoredIn(blobs, b, name) ==> blobs[b].sizeBytes.Some?)
    ensures name in ClassCosts(prices, blobs) ==>
      var tiers := ClassCosts(prices, blobs)[name];
      && name in prices && |tiers| == |prices[name]|
      && forall k :: 0 <= k < |tiers| ==> Charges(tiers[k], name, prices[name][k], Total(ClassBytes(blobs, name)))
  {
    ClassCostsIff(prices, blobs, name);
    forall b ensures BilledIn(prices, blobs, b, name) <==> StoredIn(blobs, b, name) && name in prices {
      BilledIff(prices, blobs, b, name);
    }
    if name in ClassCosts(prices, blobs) {
      ClassGigabytesAre(prices, blobs, name);
      var gigabytes := Total(ClassGigabytes(prices, blobs, name));
      forall k | 0 <= k < |prices[name]|
        ensures Charges(TierOf(name, gigabytes, prices[name][k]), name, prices[name][k], Total(ClassBytes(blobs, name)))
      {
        TierCharges(name, gigabytes, Total(ClassBytes(blobs, name)), prices[name][k]);
      }
    }
  }

  // ----- a column's share of it -----

  function ShareOf(tier: Tier, share: real): Tier {
    tier.(costPerMonth := tier.costPerMonth * share)
  }

  function Share(tiers: seq<Tier>, share: real): (shared: seq<Tier>)
    ensures |shared| == |tiers| && forall k :: 0 <= k < |tiers| ==> shared[k] == ShareOf(tiers[k], share)
  {
    seq(|tiers|, k requires 0 <= k < |tiers| => ShareOf(tiers[k], share))
  }

  function ColumnCostsAlong(
    column: map<Text, real>, table: map<Text, real>, costs: map<Text, seq<Tier>>, keys: seq<Text>): seq<Tier>
    requires forall k :: k in keys ==> k in column
  {
    if keys == [] then []
    else
      var before, name := ColumnCostsAlong(column, table, costs, keys[..|keys| - 1]), keys[|keys| - 1];
      if name !in costs || Get(table, name, 0.0) <= 0.0 then before
      else before + Share(costs[name], column[name] / table[name])
  }

  /** A column's share of each costed class, in the order of its classes. */
  method ColumnCosts(
    column: map<Text, real>, table: map<Text, real>, costs: map<Text, seq<Tier>>, keys: seq<Text>)
    returns (out: seq<Tier>)
    requires forall k :: k in keys ==> k in column
    ensures out == ColumnCostsAlong(column, table, costs, keys)
  {
    out := [];
    for k := 0 to |keys|
      invariant out == ColumnCostsAlong(column, table, costs, keys[..k])
    {
      Prefix(keys, k);
      var name := keys[k];
      if name in costs {
        var total := Get(table, name, 0.0);
        if total > 0.0 {
          out := out + Share(costs[name], column[name] / total);
        }
      }
    }
    WholePrefix(keys);
  }

  /** The cost entries of one class and access tier, added up. */
  function CostAt(tiers: seq<Tier>, name: Text, access: Option<Text>): real {
    if tiers == [] then 0.0
    else
      var last := tiers[|tiers| - 1];
      CostAt(tiers[..|tiers| - 1], name, access)
      + if last.storageClass == name && last.accessTier == access then last.costPerMonth else 0.0
  }

  lemma {:induction false} CostAtConcat(a: seq<Tier>, b: seq<Tier>, name: Text, access: Option<Text>)
    ensures CostAt(a + b, name, access) == CostAt(a, name, access) + CostAt(b, name, access)
  {
    if b == [] {
      EmptyUnit(a);
    } else {
      var n := |a + b| - 1;
      assert (a + b)[..n] == a + b[..|b| - 1] && (a + b)[n] == b[|b| - 1];
      CostAtConcat(a, b[..|b| - 1], name, access);
    }
  }

  lemma {:induction false} CostAtShare(tiers: seq<Tier>, share: real, name: Text, access: Option<Text>)
    ensures CostAt(Share(tiers, share), name, access) == Scaled(CostAt(tiers, name, access), share)
  {
    if tiers != [] {
      var n := |tiers| - 1;
      CostAtShare(tiers[..n], share, name, access);
      assert Share(tiers, share)[..n] == Share(tiers[..n], share);
      Distribute(CostAt(tiers[..n], name, access), tiers[n].costPerMonth, share);
    }
  }

  lemma {:induction false} CostAtOther(tiers: seq<Tier>, name: Text, access: Option<Text>)
    requires forall k :: 0 <= k < |tiers| ==> tiers[k].storageClass != name
    ensures CostAt(tiers, name, access) == 0.0
  {
    if tiers != [] {
      CostAtOther(tiers[..|tiers| - 1], name, access);
    }
  }

  /** Each class's tiers are labelled with the class. */
  predicate Labelled(costs: map<Text, seq<Tier>>) {
    forall name, k :: name in costs && 0 <= k < |costs[name]| ==> costs[name][k].storageClass == name
  }

  /** A column is charged its share of the class, or nothing when it has no bytes there. */
  lemma {:induction false} ColumnCharge(
    column: map<Text, real>, table: map<Text, real>, costs: map<Text, seq<Tier>>, keys: seq<Text>,
    name: Text, access: Option<Text>)
    requires Labelled(costs) && name in costs && Get(table, name, 0.0) > 0.0
    requires forall k :: k in keys ==> k in column
    requires forall i, j :: 0 <= i < j < |keys| ==> keys[i] != keys[j]
    ensures CostAt(ColumnCostsAlong(column, table, costs, keys), name, access) ==
            if name in keys then Scaled(CostAt(costs[name], name, access), column[name] / table[name]) else 0.0
  {
    if keys != [] {
      var front, last := keys[..|keys| - 1], keys[|keys| - 1];
      assert keys == front + [last];
      ColumnCharge(column, table, costs, front, name, access);
      if last in costs && Get(table, last, 0.0) > 0.0 {
        var share := column[last] / table[last];
        CostAtConcat(ColumnCostsAlong(column, table, costs, front), Share(costs[last], share), name, access);
        CostAtShare(costs[last], share, name, access);
        if last != name {
          CostAtOther(Share(costs[last], share), name, access);
        }
      }
    }
  }

  /** Every tier a column is charged is one of its class's tiers, at that tier's price. */
  lemma {:induction false} ChargedTier(
    column: map<Text, real>, table: map<Text, real>, costs: map<Text, seq<Tier>>, keys: seq<Text>, tier: Tier)
    returns (of: Tier)
    requires Labelled(costs) && forall k :: k in keys ==> k in column
    requires tier in ColumnCostsAlong(column, table, costs, keys)
    ensures tier.storageClass in keys && tier.storageClass in costs && of in costs[tier.storageClass]
    ensures tier.accessTier == of.accessTier && tier.dollars == of.dollars
  {
    var front, last := keys[..|keys| - 1], keys[|keys| - 1];
    assert keys == front + [last];
    if tier in ColumnCostsAlong(column, table, costs, front) {
      of := ChargedTier(column, table, costs, front, tier);
    } else {
      var shared := Share(costs[last], column[last] / table[last]);
      var k :| 0 <= k < |shared| && shared[k] == tier;
      of := costs[last][k];
    }
  }

  lemma {:induction false} ShareOfCost(bytes: real, total: real, cost: real)
    requires total > 0.0
    ensures Scaled(cost, bytes / total) == Scaled(bytes, cost / total)
    ensures bytes == 0.0 ==> Scaled(bytes, cost / total) == 0.0
    ensures bytes == total ==> Scaled(bytes, cost / total) == cost
  {
    var q := cost / total;
    assert q * total == cost;
    var r := bytes / total;
    assert r * total == bytes;
    assert r * cost == r * (q * total) == (r * total) * q;
  }

  // ----- a row's cost range -----

  /** The prices a row lists for one class, one per access tier. */
  function PricesOf(tiers: seq<Tier>, name: Text): seq<real> {
    if tiers == [] then []
    else
      var before, last := PricesOf(tiers[..|tiers| - 1], name), tiers[|tiers| - 1];
      if last.storageClass == name then before + [last.costPerMonth] else before
  }

  function Low(prices: seq<real>): real
    requires prices != []
  {
    if |prices| == 1 then prices[0]
    else
      var low, last := Low(prices[..|prices| - 1]), prices[|prices| - 1];
      if last < low then last else low
  }

  function High(prices: seq<real>): real
    requires prices != []
  {
    if |prices| == 1 then prices[0]
    else
      var high, last := High(prices[..|prices| - 1]), prices[|prices| - 1];
      if last > high then last else high
  }

  function RangeAlong(tiers: seq<Tier>, names: seq<Text>): Option<(real, real)> {
    if names == [] then Some((0.0, 0.0))
    else
      var before, prices := RangeAlong(tiers, names[..|names| - 1]), PricesOf(tiers, names[|names| - 1]);
      if before.None? || prices == [] then None
      else Some((before.value.0 + Low(prices), before.value.1 + High(prices)))
  }

  /** One price chosen for each class. */
  ghost predicate Choice(tiers: seq<Tier>, names: seq<Text>, picked: seq<real>) {
    |picked| == |names| && forall k :: 0 <= k < |names| ==> IsPrice(tiers, names[k], picked[k])
  }

  /** Some tier of the class costs so much a month. */
  predicate IsPrice(tiers: seq<Tier>, name: Text, price: real) {
    exists t :: t in tiers && t.storageClass == name && t.costPerMonth == price
  }

  lemma {:induction false} PricesAre(tiers: seq<Tier>, name: Text, price: real)
    ensures price in PricesOf(tiers, name) <==> IsPrice(tiers, name, price)
  {
    if tiers != [] {
      var front, last := tiers[..|tiers| - 1], tiers[|tiers| - 1];
      assert tiers == front + [last];
      PricesAre(front, name, price);
    }
  }

  ghost function Sum(picked: seq<real>): real {
    if picked == [] then 0.0 else Sum(picked[..|picked| - 1]) + picked[|picked| - 1]
  }

  lemma {:induction false} LowHigh(prices: seq<real>)
    requires prices != []
    ensures Low(prices) in prices && High(prices) in prices
    ensures forall x :: x in prices ==> Low(prices) <= x <= High(prices)
  {
    if |prices| > 1 {
      LowHigh(prices[..|prices| - 1]);
      assert prices == prices[..|prices| - 1] + [prices[|prices| - 1]];
    }
  }

  lemma {:induction false} RangeBounds(tiers: seq<Tier>, names: seq<Text>, picked: seq<real>)
    requires Choice(tiers, names, picked)
    ensures RangeAlong(tiers, names).Some?
    ensures RangeAlong(tiers, names).value.0 <= Sum(picked) <= RangeAlong(tiers, names).value.1
  {
    if names != [] {
      var n := |names| - 1;
      RangeBounds(tiers, names[..n], picked[..n]);
      PricesAre(tiers, names[n], picked[n]);
      LowHigh(PricesOf(tiers, names[n]));
    }
  }

  lemma {:induction false} RangeAttained(tiers: seq<Tier>, names: seq<Text>) returns (low: seq<real>, high: seq<real>)
    requires RangeAlong(tiers, names).Some?
    ensures Choice(tiers, names, low) && Sum(low) == RangeAlong(tiers, names).value.0
    ensures Choice(tiers, names, high) && Sum(high) == RangeAlong(tiers, names).value.1
  {
    if names == [] {
      low, high := [], [];
    } else {
      var n := |names| - 1;
      var prices := PricesOf(tiers, names[n]);
      low, high := RangeAttained(tiers, names[..n]);
      LowHigh(prices);
      PricesAre(tiers, names[n], Low(prices));
      PricesAre(tiers, names[n], High(prices));
      assert (low + [Low(prices)])[..n] == low && (high + [High(prices)])[..n] == high;
      low, high := low + [Low(prices)], high + [High(prices)];
    }
  }
}
