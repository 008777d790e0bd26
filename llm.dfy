/** `convert_to_llm.py`: the long CSV regrouped into one document per SKU, with the specification
    groups in canonical order, and the product-name cleaning, JSON keying, flattening and text
    block built from those documents. */
module LlmExport {
  import opened Options
  import opened Seqs
  import opened ODicts
  import opened PyText
  import opened LongCsv

  /** Group name to (spec name to value), both in insertion order. */
  type Specs = ODict<ODict<string>>

  /** The entry `load_long_csv` keeps for a SKU. */
  datatype Product = Product(sku: string, productName: string, productUrl: string, category: string,
                             family: string, specs: Specs)

  // ---------------------------------------------------------------------------------------
  // load_long_csv, first loop: grouping by SKU, then by group, then by name

  function OrEmpty<V>(d: Option<ODict<V>>): ODict<V>
  {
    match d
    case None => Empty()
    case Some(x) => x
  }

  /** How one row changes the value stored under its spec name: it replaces it. */
  function NameStep(cur: Option<string>, r: LongRow): string
  {
    r.value
  }

  /** How one row changes its group's dictionary (created empty if the group is new). */
  function GroupStep(cur: Option<ODict<string>>, r: LongRow): ODict<string>
  {
    Put(OrEmpty(cur), r.name, NameStep(Get(OrEmpty(cur), r.name), r))
  }

  /** How one row changes its SKU's entry: a new SKU takes its metadata from this row. */
  function ProductStep(cur: Option<Product>, r: LongRow): Product
  {
    match cur
    case None =>
      var specs: Specs := Empty();
      Product(r.sku, r.productName, r.productUrl, r.category, r.family,
              Put(specs, r.group, GroupStep(Get(specs, r.group), r)))
    case Some(p) => p.(specs := Put(p.specs, r.group, GroupStep(Get(p.specs, r.group), r)))
  }

  function GroupOf(r: LongRow): string { r.group }
  function NameOf(r: LongRow): string { r.name }

  /** `sku_data` after the row loop. */
  function Collected(rows: seq<LongRow>): ODict<Product>
  {
    FoldUpsert(rows, SkuOf, ProductStep)
  }

  /** The groups of one SKU's rows, grouped by name. */
  lemma {:induction false} AggGroup(ys: seq<LongRow>)
    requires ys != []
    ensures Agg(ys, GroupStep) == Some(FoldUpsert(ys, NameOf, NameStep))
    decreases |ys|
  {
    var init := ys[..|ys| - 1];
    if init != [] {
      AggGroup(init);
    }
  }

  /** A SKU's entry: metadata from its first row and its rows grouped by group. */
  lemma {:induction false} AggProduct(ys: seq<LongRow>)
    requires ys != []
    ensures Agg(ys, ProductStep) == Some(Product(ys[0].sku, ys[0].productName, ys[0].productUrl,
                                                 ys[0].category, ys[0].family, FoldUpsert(ys, GroupOf, GroupStep)))
    decreases |ys|
  {
    var init := ys[..|ys| - 1];
    if init != [] {
      AggProduct(init);
      assert init[0] == ys[0];
    }
  }

  /** The rows of `sku` and `group`. */
  function GroupRows(rows: seq<LongRow>, sku: string, group: string): seq<LongRow>
  {
    Filter(RowsOf(rows, sku), (r: LongRow) => r.group == group)
  }

  /** One entry per distinct SKU, in order of first appearance; each built from that SKU's rows
      alone: metadata from the first of them, groups in order of first appearance, names within
      a group in order of first appearance. */
  lemma CollectedSpec(rows: seq<LongRow>, sku: string)
    ensures Valid(Collected(rows))
    ensures Collected(rows).keys == Dedup(MapKeys(rows, SkuOf))
    ensures sku in Collected(rows).vals <==> RowsOf(rows, sku) != []
    ensures sku in Collected(rows).vals ==>
              var ys := RowsOf(rows, sku);
              Collected(rows).vals[sku] == Product(ys[0].sku, ys[0].productName, ys[0].productUrl,
                                                   ys[0].category, ys[0].family, FoldUpsert(ys, GroupOf, GroupStep))
  {
    FoldUpsertSpec(rows, SkuOf, ProductStep);
    FoldUpsertAt(rows, SkuOf, ProductStep, sku, (r: LongRow) => r.sku == sku);
    var ys := RowsOf(rows, sku);
    if ys != [] {
      AggProduct(ys);
    }
  }

  /** The specifications of one SKU's entry: groups in order of first appearance, and within a
      group, names in order of first appearance, each with the value of the last row for it. */
  lemma GroupsSpec(ys: seq<LongRow>, group: string)
    ensures Valid(FoldUpsert(ys, GroupOf, GroupStep))
    ensures FoldUpsert(ys, GroupOf, GroupStep).keys == Dedup(MapKeys(ys, GroupOf))
    ensures group in FoldUpsert(ys, GroupOf, GroupStep).vals <==> Filter(ys, (r: LongRow) => r.group == group) != []
    ensures group in FoldUpsert(ys, GroupOf, GroupStep).vals ==>
              FoldUpsert(ys, GroupOf, GroupStep).vals[group] == FoldUpsert(Filter(ys, (r: LongRow) => r.group == group), NameOf, NameStep)
  {
    FoldUpsertSpec(ys, GroupOf, GroupStep);
    FoldUpsertAt(ys, GroupOf, GroupStep, group, (r: LongRow) => r.group == group);
    var zs := Filter(ys, (r: LongRow) => r.group == group);
    if zs != [] {
      AggGroup(zs);
    }
  }
  /** `load_long_csv` keeps the metadata of the first row of each SKU. */
  lemma FirstRowMetadata(rows: seq<LongRow>, i: int)
    requires 0 <= i < |rows|
    requires forall j :: 0 <= j < i ==> rows[j].sku != rows[i].sku
    ensures rows[i].sku in Collected(rows).vals
    ensures var p := Collected(rows).vals[rows[i].sku];
            && p.sku == rows[i].sku && p.productName == rows[i].productName
            && p.productUrl == rows[i].productUrl && p.category == rows[i].category
            && p.family == rows[i].family
  {
    FilterFirstIs(rows, (r: LongRow) => r.sku == rows[i].sku, i);
    CollectedSpec(rows, rows[i].sku);
  }

  /** Group and name order within an entry is the order of first appearance among that SKU's
      rows. */
  lemma CollectedOrder(rows: seq<LongRow>, sku: string, group: string)
    requires sku in Collected(rows).vals
    ensures Valid(Collected(rows).vals[sku].specs)
    ensures Collected(rows).vals[sku].specs.keys == Dedup(MapKeys(RowsOf(rows, sku), GroupOf))
    ensures group in Collected(rows).vals[sku].specs.vals ==>
              && Valid(Collected(rows).vals[sku].specs.vals[group])
              && Collected(rows).vals[sku].specs.vals[group].keys == Dedup(MapKeys(GroupRows(rows, sku, group), NameOf))
  {
    CollectedSpec(rows, sku);
    var ys := RowsOf(rows, sku);
    GroupsSpec(ys, group);
    FoldUpsertSpec(GroupRows(rows, sku, group), NameOf, NameStep);
  }

  /** A later row with the same SKU, group and name overwrites the value: the value kept is
      the one of the last such row. */
  lemma LastValueWins(rows: seq<LongRow>, i: int)
    requires 0 <= i < |rows|
    requires forall j :: i < j < |rows| ==>
               !(rows[j].sku == rows[i].sku && rows[j].group == rows[i].group && rows[j].name == rows[i].name)
    ensures var r := rows[i];
            && r.sku in Collected(rows).vals
            && r.group in Collected(rows).vals[r.sku].specs.vals
            && r.name in Collected(rows).vals[r.sku].specs.vals[r.group].vals
            && Collected(rows).vals[r.sku].specs.vals[r.group].vals[r.name] == r.value
  {
    var r := rows[i];
    var bySku := (x: LongRow) => x.sku == r.sku;
    var byGroup := (x: LongRow) => x.group == r.group;
    var byName := (x: LongRow) => x.name == r.name;
    var skuGroup := (x: LongRow) => x.sku == r.sku && x.group == r.group;
    var all := (x: LongRow) => x.sku == r.sku && x.group == r.group && x.name == r.name;
    FilterFilter(rows, bySku, byGroup, skuGroup);
    FilterFilter(rows, skuGroup, byName, all);
    FilterLastIs(rows, all, i);
    FilterMembers(rows, bySku);
    FilterMembers(rows, skuGroup);
    assert r in rows;
    CollectedSpec(rows, r.sku);
    var ys := RowsOf(rows, r.sku);
    GroupsSpec(ys, r.group);
    var zs := Filter(ys, byGroup);
    FoldUpsertAt(zs, NameOf, NameStep, r.name, byName);
    var ws := Filter(zs, byName);
    assert ws == Filter(rows, all);
  }
  // ---------------------------------------------------------------------------------------
  // load_long_csv, second loop: the groups of each entry in canonical order
  // (`order` is the canonical list, `GroupOrder` in the program)

  /** The canonical groups an entry has, in canonical order. */
  function Canonical(specs: Specs, order: seq<string>): seq<string>
  {
    Filter(order, (g: string) => g in specs.vals)
  }

  /** The entry's other groups, in the order they were first seen. */
  function Others(specs: Specs, order: seq<string>): seq<string>
  {
    Filter(specs.keys, (g: string) => g !in order)
  }

  /** What the rebuilt `sorted_specs` holds: the same group dictionaries, reordered. */
  function Reordered(specs: Specs, order: seq<string>): Specs
  {
    ODict(Canonical(specs, order) + Others(specs, order), specs.vals)
  }

  /** `d` holds the groups listed in its order, each with the dictionary `specs` has for it. */
  ghost predicate Picked(d: Specs, specs: Specs)
  {
    && (forall g :: g in d.vals <==> g in d.keys)
    && (forall g :: g in d.vals ==> g in specs.vals && d.vals[g] == specs.vals[g])
  }

  /** The first inner loop: the canonical groups the entry has, in canonical order. */
  method TakeCanonical(specs: Specs, order: seq<string>) returns (sorted: Specs)
    requires Valid(specs) && Distinct(order)
    ensures sorted.keys == Canonical(specs, order) && Picked(sorted, specs)
  {
    var inSpecs := (g: string) => g in specs.vals;
    sorted := Empty();
    for i := 0 to |order|
      invariant sorted.keys == Filter(order[..i], inSpecs)
      invariant Picked(sorted, specs)
    {
      var g := order[i];
      assert order[..i + 1] == order[..i] + [g];
      FilterMembers(order[..i], inSpecs);
      if g in specs.vals {
        sorted := Put(sorted, g, specs.vals[g]);
      }
    }
    assert order[..|order|] == order;
  }

  /** One step of the second inner loop keeps its invariant. */
  lemma TakeOthersStep(specs: Specs, order: seq<string>, j: int, sorted: Specs)
    requires Valid(specs) && 0 <= j < |specs.keys|
    requires sorted.keys == Canonical(specs, order) + Filter(specs.keys[..j], (g: string) => g !in order)
    requires Picked(sorted, specs)
    ensures var g := specs.keys[j];
            var next := if g !in sorted.vals then Put(sorted, g, specs.vals[g]) else sorted;
            && next.keys == Canonical(specs, order) + Filter(specs.keys[..j + 1], (g: string) => g !in order)
            && Picked(next, specs)
  {
    var g := specs.keys[j];
    TakenBefore(specs, order, j, sorted);
    assert specs.keys[..j + 1] == specs.keys[..j] + [g];
  }

  /** Before step `j`, the group at `j` is taken exactly when it is canonical. */
  lemma TakenBefore(specs: Specs, order: seq<string>, j: int, sorted: Specs)
    requires Valid(specs) && 0 <= j < |specs.keys|
    requires sorted.keys == Canonical(specs, order) + Filter(specs.keys[..j], (g: string) => g !in order)
    requires Picked(sorted, specs)
    ensures specs.keys[j] in sorted.vals <==> specs.keys[j] in order
  {
    var g := specs.keys[j];
    FilterMembers(order, (g: string) => g in specs.vals);
    FilterMembers(specs.keys[..j], (g: string) => g !in order);
    assert g !in specs.keys[..j];
  }

  /** The second inner loop: the groups not yet taken, in the order first seen. */
  method TakeOthers(specs: Specs, order: seq<string>, canon: Specs) returns (sorted: Specs)
    requires Valid(specs)
    requires canon.keys == Canonical(specs, order) && Picked(canon, specs)
    ensures sorted.keys == Canonical(specs, order) + Others(specs, order) && Picked(sorted, specs)
  {
    sorted := canon;
    assert specs.keys[..0] == [];
    for j := 0 to |specs.keys|
      invariant sorted.keys == Canonical(specs, order) + Filter(specs.keys[..j], (g: string) => g !in order)
      invariant Picked(sorted, specs)
    {
      TakeOthersStep(specs, order, j, sorted);
      var g := specs.keys[j];
      if g !in sorted.vals {
        sorted := Put(sorted, g, specs.vals[g]);
      }
    }
    assert specs.keys[..|specs.keys|] == specs.keys;
  }

  /** Having picked every group, the dictionaries are those of `specs`. */
  lemma PickedAll(d: Specs, specs: Specs, order: seq<string>)
    requires Valid(specs)
    requires d.keys == Canonical(specs, order) + Others(specs, order) && Picked(d, specs)
    ensures d == Reordered(specs, order)
  {
    FilterMembers(specs.keys, (g: string) => g !in order);
    FilterMembers(order, (g: string) => g in specs.vals);
    assert d.vals.Keys == specs.vals.Keys;
  }

  /** Rebuilding one entry's `specs`: the canonical groups it has, then the rest. */
  method ReorderGroups(specs: Specs, order: seq<string>) returns (sorted: Specs)
    requires Valid(specs) && Distinct(order)
    ensures sorted == Reordered(specs, order)
  {
    var canon := TakeCanonical(specs, order);
    sorted := TakeOthers(specs, order, canon);
    PickedAll(sorted, specs, order);
  }

  /** Reordering is a permutation of the groups that leaves every group's dictionary as it
      was. */
  lemma ReorderedPermutes(specs: Specs, order: seq<string>)
    requires Valid(specs) && Distinct(order)
    ensures Valid(Reordered(specs, order))
    ensures Reordered(specs, order).vals == specs.vals
    ensures |Reordered(specs, order).keys| == |specs.keys|
    ensures forall g :: g in Reordered(specs, order).keys <==> g in specs.keys
  {
    var c, o := Canonical(specs, order), Others(specs, order);
    FilterMembers(order, (g: string) => g in specs.vals);
    FilterMembers(specs.keys, (g: string) => g !in order);
    FilterDistinct(specs.keys, (g: string) => g !in order);
    FilterDistinct(order, (g: string) => g in specs.vals);
    DistinctConcat(c, o);
    DistinctSameLength(c + o, specs.keys);
  }

  /** The canonical groups come first, in canonical order. */
  lemma ReorderedCanonicalFirst(specs: Specs, order: seq<string>)
    requires Distinct(order)
    ensures var ks := Reordered(specs, order).keys;
            forall i, j :: 0 <= i < j < |ks| && ks[j] in order ==>
              ks[i] in order && IndexOf(order, ks[i]) < IndexOf(order, ks[j])
  {
    var c, o := Canonical(specs, order), Others(specs, order);
    var ks := c + o;
    FilterMembers(order, (g: string) => g in specs.vals);
    FilterMembers(specs.keys, (g: string) => g !in order);
    var canonLess := (a: string, b: string) =>
      a in order && b in order && IndexOf(order, a) < IndexOf(order, b);
    forall i | 0 <= i < |order| ensures IndexOf(order, order[i]) == i {
      IndexOfDistinct(order, i);
    }
    FilterKeepsOrder(order, (g: string) => g in specs.vals, canonLess);
    forall i, j | 0 <= i < j < |ks| && ks[j] in order
      ensures ks[i] in order && IndexOf(order, ks[i]) < IndexOf(order, ks[j])
    {
      assert ks[j] !in o;
      assert canonLess(c[i], c[j]);
    }
  }

  /** The other groups follow, in the order they were first seen. */
  lemma ReorderedOthersInSeenOrder(specs: Specs, order: seq<string>)
    requires Valid(specs)
    ensures var ks := Reordered(specs, order).keys;
            forall i, j :: 0 <= i < j < |ks| && ks[i] !in order ==>
              && ks[j] !in order && ks[i] in specs.keys && ks[j] in specs.keys
              && IndexOf(specs.keys, ks[i]) < IndexOf(specs.keys, ks[j])
  {
    var c, o := Canonical(specs, order), Others(specs, order);
    var ks := c + o;
    FilterMembers(order, (g: string) => g in specs.vals);
    OthersInSeenOrder(specs, order);
    forall i, j | 0 <= i < j < |ks| && ks[i] !in order
      ensures && ks[j] !in order && ks[i] in specs.keys && ks[j] in specs.keys
              && IndexOf(specs.keys, ks[i]) < IndexOf(specs.keys, ks[j])
    {
      assert ks[i] !in c;
      assert ks[i] == o[i - |c|] && ks[j] == o[j - |c|];
      assert o[j - |c|] in o;
    }
  }

  /** The groups outside the canonical list, in the order they were first seen. */
  lemma OthersInSeenOrder(specs: Specs, order: seq<string>)
    requires Valid(specs)
    ensures var o := Others(specs, order);
            && (forall x :: x in o ==> x !in order && x in specs.keys)
            && (forall i, j :: 0 <= i < j < |o| ==> IndexOf(specs.keys, o[i]) < IndexOf(specs.keys, o[j]))
  {
    var o := Others(specs, order);
    FilterMembers(specs.keys, (g: string) => g !in order);
    var seenLess := (a: string, b: string) =>
      a in specs.keys && b in specs.keys && IndexOf(specs.keys, a) < IndexOf(specs.keys, b);
    forall i | 0 <= i < |specs.keys| ensures IndexOf(specs.keys, specs.keys[i]) == i {
      IndexOfDistinct(specs.keys, i);
    }
    FilterKeepsOrder(specs.keys, (g: string) => g !in order, seenLess);
    forall i, j | 0 <= i < j < |o|
      ensures IndexOf(specs.keys, o[i]) < IndexOf(specs.keys, o[j])
    {
      assert seenLess(o[i], o[j]);
    }
  }

  // ---------------------------------------------------------------------------------------
  // load_long_csv

  /** What `load_long_csv` returns: the collected entries, each with its groups reordered. */
  function Loaded(rows: seq<LongRow>): ODict<Product>
  {
    var c := Collected(rows);
    ODict(c.keys, map k | k in c.vals :: c.vals[k].(specs := Reordered(c.vals[k].specs, GroupOrder)))
  }

  /** The row loop. */
  method CollectRows(rows: seq<LongRow>) returns (skuData: ODict<Product>)
    ensures skuData == Collected(rows)
  {
    skuData := Empty();
    for i := 0 to |rows|
      invariant skuData == Collected(rows[..i])
    {
      var r := rows[i];
      assert rows[..i + 1][..i] == rows[..i];
      ghost var before := skuData;
      if r.sku !in skuData.vals {
        skuData := Put(skuData, r.sku, Product(r.sku, r.productName, r.productUrl, r.category, r.family, Empty()));
      }
      var p := skuData.vals[r.sku];
      var specs := p.specs;
      ghost var specs0 := specs;
      if r.group !in specs.vals {
        specs := Put(specs, r.group, Empty());
      }
      specs := Put(specs, r.group, Put(specs.vals[r.group], r.name, r.value));
      PutPut(specs0, r.group, Empty(), specs.vals[r.group]);
      assert specs == Put(specs0, r.group, GroupStep(Get(specs0, r.group), r));
      PutPut(before, r.sku, Product(r.sku, r.productName, r.productUrl, r.category, r.family, Empty()), p.(specs := specs));
      skuData := Put(skuData, r.sku, p.(specs := specs));
      assert skuData == Put(before, r.sku, ProductStep(Get(before, r.sku), r));
    }
    assert rows[..|rows|] == rows;
  }

  /** The reordering loop over all entries. */
  method ReorderAll(c: ODict<Product>, order: seq<string>) returns (skuData: ODict<Product>)
    requires Valid(c) && Distinct(order)
    requires forall k :: k in c.vals ==> Valid(c.vals[k].specs)
    ensures skuData == ODict(c.keys, map k | k in c.vals :: c.vals[k].(specs := Reordered(c.vals[k].specs, order)))
  {
    skuData := c;
    for i := 0 to |c.keys|
      invariant skuData.keys == c.keys
      invariant skuData.vals.Keys == c.vals.Keys
      invariant forall k :: k in c.vals ==>
                  skuData.vals[k] == if k in c.keys[..i] then c.vals[k].(specs := Reordered(c.vals[k].specs, order)) else c.vals[k]
    {
      var sku := c.keys[i];
      assert sku in c.vals;
      var p := skuData.vals[sku];
      var sorted := ReorderGroups(p.specs, order);
      ReorderAllStep(c, order, i, skuData, sorted);
      skuData := Put(skuData, sku, p.(specs := sorted));
    }
    assert c.keys[..|c.keys|] == c.keys;
  }

  /** One step of the reordering loop keeps its invariant. */
  lemma ReorderAllStep(c: ODict<Product>, order: seq<string>, i: int, d: ODict<Product>, sorted: Specs)
    requires Valid(c) && 0 <= i < |c.keys|
    requires d.keys == c.keys && d.vals.Keys == c.vals.Keys
    requires forall k :: k in c.vals ==>
               d.vals[k] == if k in c.keys[..i] then c.vals[k].(specs := Reordered(c.vals[k].specs, order)) else c.vals[k]
    requires sorted == Reordered(c.vals[c.keys[i]].specs, order)
    ensures var sku := c.keys[i];
            var next := Put(d, sku, d.vals[sku].(specs := sorted));
            && next.keys == c.keys && next.vals.Keys == c.vals.Keys
            && forall k :: k in c.vals ==>
                 next.vals[k] == if k in c.keys[..i + 1] then c.vals[k].(specs := Reordered(c.vals[k].specs, order)) else c.vals[k]
  {
    var sku := c.keys[i];
    assert c.keys[..i + 1] == c.keys[..i] + [sku];
    assert sku !in c.keys[..i];
  }

  /** `load_long_csv`: the row loop, then the reordering loop. */
  method LoadLongCsv(rows: seq<LongRow>) returns (skuData: ODict<Product>)
    ensures skuData == Loaded(rows)
  {
    var c := CollectRows(rows);
    CollectedSpec(rows, "");
    forall k | k in c.vals
      ensures Valid(c.vals[k].specs)
    {
      CollectedOrder(rows, k, "");
    }
    GroupOrderDistinct();
    skuData := ReorderAll(c, GroupOrder);
  }

  /** The returned entries are the collected ones: one per SKU, in order of first appearance,
      with the same metadata and the same group dictionaries, the groups permuted. */
  lemma LoadedSpec(rows: seq<LongRow>, sku: string)
    ensures Valid(Loaded(rows))
    ensures Loaded(rows).keys == Dedup(MapKeys(rows, SkuOf))
    ensures sku in Loaded(rows).vals <==> sku in Collected(rows).vals
    ensures sku in Loaded(rows).vals ==>
              var p, q := Loaded(rows).vals[sku], Collected(rows).vals[sku];
              && p.(specs := q.specs) == q
              && p.specs.vals == q.specs.vals
              && Valid(p.specs)
              && forall g :: g in p.specs.keys <==> g in q.specs.keys
  {
    CollectedSpec(rows, sku);
    if sku in Collected(rows).vals {
      CollectedOrder(rows, sku, "");
      GroupOrderDistinct();
      ReorderedPermutes(Collected(rows).vals[sku].specs, GroupOrder);
    }
  }
  // ---------------------------------------------------------------------------------------
  // extract_model_name

  const Registered: char := '\U{ae}'
  const Trademark: char := '\U{2122}'

  /** The suffixes cut off, in the order they are tried. */
  const Suffixes: seq<string> := ["Processor", "processor"]

  /** The name with the registered and trademark signs removed, then one pass of double spaces
      replaced by single ones. */
  function CleanMarks(productName: string): string
  {
    Replace(Replace(Replace(productName, [Registered], ""), [Trademark], ""), "  ", " ")
  }

  /** `name.split(suffix)[0].strip()` when `suffix in name`, otherwise `name`. */
  function CutAt(name: string, suffix: string): string
    requires suffix != []
  {
    if Contains(name, suffix) then Strip(Before(name, suffix)) else name
  }

  /** The suffix loop over `suffixes`, in order. */
  function CutAll(name: string, suffixes: seq<string>): string
    requires forall k :: 0 <= k < |suffixes| ==> suffixes[k] != []
    decreases |suffixes|
  {
    if suffixes == [] then name
    else CutAt(CutAll(name, suffixes[..|suffixes| - 1]), suffixes[|suffixes| - 1])
  }

  /** What `extract_model_name` returns. */
  function ModelName(productName: string): string
  {
    Strip(CutAll(CleanMarks(productName), Suffixes))
  }

  /** Cutting keeps only characters of the name and leaves a name without `suffix`. */
  lemma CutAtSpec(name: string, suffix: string)
    requires suffix != []
    ensures forall c :: c in CutAt(name, suffix) ==> c in name
    ensures !Contains(CutAt(name, suffix), suffix)
  {
    if Contains(name, suffix) {
      var b := Before(name, suffix);
      StripChars(b);
      PrefixChars(name, |b|);
      StripKeepsAbsent(b, suffix);
    }
  }

  /** Cutting keeps out whatever the name lacked. */
  lemma CutAtKeepsAbsent(name: string, suffix: string, sub: string)
    requires suffix != []
    ensures Contains(CutAt(name, suffix), sub) ==> Contains(name, sub)
  {
    if Contains(name, suffix) {
      var b := Before(name, suffix);
      StripKeepsAbsent(b, sub);
      PrefixKeepsAbsent(name, |b|, sub);
    }
  }

  /** After the loop no suffix tried is left, and no character was added. */
  lemma {:induction false} CutAllSpec(name: string, suffixes: seq<string>)
    requires forall k :: 0 <= k < |suffixes| ==> suffixes[k] != []
    ensures forall c :: c in CutAll(name, suffixes) ==> c in name
    ensures forall k :: 0 <= k < |suffixes| ==> !Contains(CutAll(name, suffixes), suffixes[k])
    decreases |suffixes|
  {
    if suffixes != [] {
      var init, last := suffixes[..|suffixes| - 1], suffixes[|suffixes| - 1];
      CutAllSpec(name, init);
      var m := CutAll(name, init);
      CutAtSpec(m, last);
      forall k | 0 <= k < |init|
        ensures !Contains(CutAt(m, last), suffixes[k])
      {
        assert init[k] == suffixes[k];
        CutAtKeepsAbsent(m, last, suffixes[k]);
      }
    }
  }

  /** The cleaned name has neither sign. */
  lemma CleanMarksSpec(productName: string)
    ensures Registered !in CleanMarks(productName) && Trademark !in CleanMarks(productName)
  {
    ReplaceRemovesChar(productName, Registered, "");
    ReplaceRemovesChar(Replace(productName, [Registered], ""), Trademark, "");
  }

  /** A model name has no registered or trademark sign, contains neither `"Processor"` nor
      `"processor"`, and has no whitespace at either end. */
  lemma ModelNameSpec(productName: string)
    ensures Registered !in ModelName(productName) && Trademark !in ModelName(productName)
    ensures !Contains(ModelName(productName), "Processor") && !Contains(ModelName(productName), "processor")
    ensures var m := ModelName(productName); m == [] || (!IsSpace(m[0]) && !IsSpace(m[|m| - 1]))
  {
    var cleaned := CleanMarks(productName);
    CleanMarksSpec(productName);
    var cut := CutAll(cleaned, Suffixes);
    CutAllSpec(cleaned, Suffixes);
    StripChars(cut);
    StripKeepsAbsent(cut, Suffixes[0]);
    StripKeepsAbsent(cut, Suffixes[1]);
  }

  /** The loop over two suffixes cuts at the first, then at the second. */
  lemma CutAllTwo(name: string, first: string, second: string)
    requires first != [] && second != []
    ensures CutAll(name, [first, second]) == CutAt(CutAt(name, first), second)
  {
    var both, one := [first, second], [first];
    assert both[..|both| - 1] == one && both[|both| - 1] == second;
    assert one[..|one| - 1] == [] && one[|one| - 1] == first;
    assert CutAll(name, one) == CutAt(name, first);
  }

  /** A model without blanks or signs, that cannot start a suffix. */
  predicate PlainModel(m: string)
  {
    forall c :: c in m ==> !IsSpace(c) && c !in [Registered, Trademark, 'P', 'p']
  }

  /** The cleaning leaves a model, a blank and a word alone: they hold no sign and no double
      blank. */
  lemma CleanMarksOfPlain(m: string, word: string)
    requires PlainModel(m)
    requires word != [] && ' ' !in word && Registered !in word && Trademark !in word
    ensures CleanMarks(m + [' '] + word) == m + [' '] + word
  {
    var rest := [' '] + word;
    var name := m + rest;
    assert name == m + [' '] + word;
    assert forall ch :: ch in name ==> ch in m || ch in rest;
    ReplaceAbsentChar(name, Registered, "");
    ReplaceAbsentChar(name, Trademark, "");
    assert ' ' !in m;
    ReplaceKeepPrefix(m, rest, "  ", " ");
    assert rest[..2][1] == word[0] && rest[1..] == word;
    ReplaceNoStart(word, "  ", " ");
  }

  /** Cutting a model, a blank and a suffix at that suffix leaves the model. */
  lemma CutAtOfPlain(m: string, suffix: string)
    requires PlainModel(m) && suffix != [] && suffix[0] !in m && suffix[0] != ' '
    ensures CutAt(m + [' '] + suffix, suffix) == m
  {
    var rest := [' '] + suffix;
    var name := m + rest;
    assert name == m + [' '] + suffix;
    BeforeKeepPrefix(m, rest, suffix);
    BeforeKeep(' ', suffix, suffix);
    assert rest[1..] == suffix && suffix[..|suffix|] == suffix;
    assert name[|m| + 1..] == suffix;
    ContainsInSuffix(name, |m| + 1, suffix);
    assert m == [] || (!IsSpace(m[0]) && !IsSpace(m[|m| - 1])) by {
      if m != [] { assert m[0] in m && m[|m| - 1] in m; }
    }
    StripTrailingBlank(m, ' ');
  }

  /** A string without the first character of a suffix is not cut at it. */
  lemma CutAtAbsent(name: string, suffix: string)
    requires suffix != [] && suffix[0] !in name
    ensures CutAt(name, suffix) == name
  {
    if Contains(name, suffix) {
      ContainsFirst(name, suffix);
    }
  }

  /** A plain model name followed by " Processor" comes back unchanged: the part before the
      suffix is kept and the blank in front of the suffix is stripped. */
  lemma ModelNameOfPlain(m: string)
    requires PlainModel(m)
    ensures ModelName(m + " Processor") == m
  {
    var word, lower := Suffixes[0], Suffixes[1];
    var name := m + [' '] + word;
    assert m + " Processor" == name;
    assert word[0] == 'P' && lower[0] == 'p';
    assert forall c :: c in word ==> c in "Processor";
    CleanMarksOfPlain(m, word);
    CutAtOfPlain(m, word);
    assert 'p' !in m;
    CutAtAbsent(m, lower);
    CutAllTwo(name, word, lower);
    assert Suffixes == [word, lower];
    assert m == [] || (!IsSpace(m[0]) && !IsSpace(m[|m| - 1])) by {
      if m != [] { assert m[0] in m && m[|m| - 1] in m; }
    }
    StripTrimmed(m);
  }

  /** `extract_model_name`: the replacements, then the suffix loop, then a final `strip()`. */
  method ExtractModelName(productName: string) returns (name: string)
    ensures name == ModelName(productName)
    ensures Registered !in name && Trademark !in name
    ensures !Contains(name, "Processor") && !Contains(name, "processor")
    ensures name == [] || (!IsSpace(name[0]) && !IsSpace(name[|name| - 1]))
  {
    name := Replace(productName, [Registered], "");
    name := Replace(name, [Trademark], "");
    name := Replace(name, "  ", " ");
    ghost var cleaned := name;
    for i := 0 to |Suffixes|
      invariant name == CutAll(cleaned, Suffixes[..i])
    {
      var suffix := Suffixes[i];
      assert Suffixes[..i + 1][..i] == Suffixes[..i];
      if Contains(name, suffix) {
        name := Strip(Before(name, suffix));
      }
    }
    assert Suffixes[..|Suffixes|] == Suffixes;
    name := Strip(name);
    ModelNameSpec(productName);
  }
  // ---------------------------------------------------------------------------------------
  // write_json: records keyed by model name

  /** The record `write_json` stores for one entry (the nested dicts copied as they are). */
  datatype JsonRecord = JsonRecord(model: string, fullName: string, sku: string, category: string,
                                   family: string, url: string, specs: Specs)

  function RecordOf(p: Product): JsonRecord
  {
    JsonRecord(ModelName(p.productName), p.productName, p.sku, p.category, p.family, p.productUrl, p.specs)
  }

  /** `sku_data.items()`, each entry turned into its record. */
  function Entries(skuData: ODict<Product>): seq<(string, JsonRecord)>
    requires Valid(skuData)
  {
    seq(|skuData.keys|, i requires 0 <= i < |skuData.keys| => (skuData.keys[i], RecordOf(skuData.vals[skuData.keys[i]])))
  }

  /** The key used for a repeated model name. */
  function SkuKey(model: string, sku: string): string
  {
    model + " (SKU " + sku + ")"
  }

  /** The key chosen for a record: the model name, unless that is already a key. */
  function KeyFor(byModel: ODict<JsonRecord>, model: string, sku: string): string
  {
    if model in byModel.vals then SkuKey(model, sku) else model
  }

  /** `by_model` after the entries `es`. */
  function ByModel(es: seq<(string, JsonRecord)>): ODict<JsonRecord>
    decreases |es|
  {
    if es == [] then Empty()
    else
      var d := ByModel(es[..|es| - 1]);
      var e := es[|es| - 1];
      Put(d, KeyFor(d, e.1.model, e.0), e.1)
  }

  /** The key the entry at `i` is stored under. */
  function KeyAt(es: seq<(string, JsonRecord)>, i: int): string
    requires 0 <= i < |es|
  {
    KeyFor(ByModel(es[..i]), es[i].1.model, es[i].0)
  }

  /** Every entry with the key it was given. */
  function Keyed(es: seq<(string, JsonRecord)>): (ks: seq<(string, JsonRecord)>)
    ensures |ks| == |es|
  {
    seq(|es|, i requires 0 <= i < |es| => (KeyAt(es, i), es[i].1))
  }

  /** `write_json`'s loop. */
  method BuildByModel(skuData: ODict<Product>) returns (byModel: ODict<JsonRecord>)
    requires Valid(skuData)
    ensures byModel == ByModel(Entries(skuData))
  {
    ghost var es := Entries(skuData);
    byModel := Empty();
    for i := 0 to |skuData.keys|
      invariant byModel == ByModel(es[..i])
    {
      var sku := skuData.keys[i];
      var data := skuData.vals[sku];
      var modelName := ExtractModelName(data.productName);
      var record := JsonRecord(modelName, data.productName, data.sku, data.category, data.family,
                               data.productUrl, data.specs);
      var key := modelName;
      if key in byModel.vals {
        key := SkuKey(modelName, sku);
      }
      ByModelStep(es, i);
      assert es[i] == (sku, record);
      assert key == KeyFor(byModel, modelName, sku);
      byModel := Put(byModel, key, record);
    }
    assert es[..|es|] == es;
  }

  /** One more entry, one more assignment under the key chosen for it. */
  lemma ByModelStep(es: seq<(string, JsonRecord)>, i: int)
    requires 0 <= i < |es|
    ensures ByModel(es[..i + 1]) == Put(ByModel(es[..i]), KeyFor(ByModel(es[..i]), es[i].1.model, es[i].0), es[i].1)
  {
    assert es[..i + 1][..i] == es[..i] && es[..i + 1][i] == es[i];
  }

  /** Storing the entries one by one is assigning each its chosen key in turn. */
  lemma {:induction false} ByModelIsFold(es: seq<(string, JsonRecord)>)
    ensures ByModel(es) == FoldUpsert(Keyed(es), FirstOf, LastWins)
    decreases |es|
  {
    if es != [] {
      var init := es[..|es| - 1];
      ByModelIsFold(init);
      assert Keyed(es)[..|es| - 1] == Keyed(init) by {
        forall j | 0 <= j < |init| ensures Keyed(es)[j] == Keyed(init)[j] {
          assert es[..j] == init[..j];
        }
      }
      assert es[..|es| - 1] == init;
    }
  }

  /** The keys of `by_model` are the chosen keys without repeats, in order, each holding the
      record of the last entry given it. */
  lemma ByModelSpec(es: seq<(string, JsonRecord)>, i: int)
    requires 0 <= i < |es|
    requires forall j :: i < j < |es| ==> KeyAt(es, j) != KeyAt(es, i)
    ensures Valid(ByModel(es))
    ensures ByModel(es).keys == Dedup(MapKeys(Keyed(es), FirstOf))
    ensures KeyAt(es, i) in ByModel(es).vals && ByModel(es).vals[KeyAt(es, i)] == es[i].1
  {
    ByModelIsFold(es);
    var ks := Keyed(es);
    FoldUpsertSpec(ks, FirstOf, LastWins);
    var keep := (kv: (string, JsonRecord)) => kv.0 == KeyAt(es, i);
    FoldUpsertAt(ks, FirstOf, LastWins, KeyAt(es, i), keep);
    FilterLastIs(ks, keep, i);
  }

  /** The key at `j` is still a key once later entries are stored. */
  lemma ByModelKeeps(es: seq<(string, JsonRecord)>, j: int, i: int)
    requires 0 <= j < i <= |es|
    ensures KeyAt(es, j) in ByModel(es[..i]).vals
  {
    var es' := es[..i];
    assert es'[..j] == es[..j];
    ByModelIsFold(es');
    FoldUpsertSpec(Keyed(es'), FirstOf, LastWins);
    DedupSpec(MapKeys(Keyed(es'), FirstOf));
    assert MapKeys(Keyed(es'), FirstOf)[j] == KeyAt(es, j);
  }
  /** Keys are never removed from `by_model`. */
  lemma {:induction false} ByModelGrows(es: seq<(string, JsonRecord)>, j: int, i: int)
    requires 0 <= j <= i <= |es|
    ensures forall k :: k in ByModel(es[..j]).vals ==> k in ByModel(es[..i]).vals
    decreases i - j
  {
    if j < i {
      ByModelGrows(es, j, i - 1);
      assert es[..i][..i - 1] == es[..i - 1];
    }
  }

  /** Every key of `by_model` was chosen for some entry stored so far. */
  lemma {:induction false} ByModelKeysFrom(es: seq<(string, JsonRecord)>, i: int, k: string)
    requires 0 <= i <= |es| && k in ByModel(es[..i]).vals
    ensures exists j :: 0 <= j < i && k == KeyAt(es, j)
    decreases i
  {
    assert i != 0 by { assert es[..0] == []; }
    assert es[..i][..i - 1] == es[..i - 1];
    var d := ByModel(es[..i - 1]);
    if k in d.vals {
      ByModelKeysFrom(es, i - 1, k);
    } else {
      assert k == KeyAt(es, i - 1);
    }
  }

  /** A later record with a model name already seen is stored under the name with its SKU
      appended. */
  lemma RepeatedModelGetsSku(es: seq<(string, JsonRecord)>, j: int, i: int)
    requires 0 <= j < i < |es| && es[j].1.model == es[i].1.model
    ensures KeyAt(es, i) == SkuKey(es[i].1.model, es[i].0)
  {
    var m := es[i].1.model;
    ByModelKeeps(es, j, i);
    ByModelGrows(es, j, i);
    assert m in ByModel(es[..i]).vals;
  }

  /** A key with a SKU appended ends with `)`. */
  predicate EndsWithParen(s: string)
  {
    s != [] && s[|s| - 1] == ')'
  }

  /** The first record with a model name is stored under the bare name, provided the name
      does not end with `)` (so that no SKU-suffixed key can equal it). */
  lemma FirstModelIsBare(es: seq<(string, JsonRecord)>, i: int)
    requires 0 <= i < |es|
    requires forall j :: 0 <= j < i ==> es[j].1.model != es[i].1.model
    requires !EndsWithParen(es[i].1.model)
    ensures KeyAt(es, i) == es[i].1.model
  {
    var m := es[i].1.model;
    forall k | k in ByModel(es[..i]).vals
      ensures k != m
    {
      ByModelKeysFrom(es, i, k);
      var j :| 0 <= j < i && k == KeyAt(es, j);
      assert EndsWithParen(SkuKey(es[j].1.model, es[j].0));
    }
  }

  /** The last `(` of a SKU-suffixed key is the one of the suffix, when the SKU has none. */
  lemma SkuKeyParen(m: string, s: string)
    requires '(' !in s
    ensures |SkuKey(m, s)| == |m| + |s| + 7
    ensures SkuKey(m, s)[|m| + 1] == '('
    ensures forall i :: |m| + 1 < i < |SkuKey(m, s)| ==> SkuKey(m, s)[i] != '('
  {
    var k := SkuKey(m, s);
    assert forall i :: |m| + 6 <= i < |m| + 6 + |s| ==> k[i] == s[i - |m| - 6];
  }

  /** Two SKU-suffixed keys are equal only for the same SKU, when SKUs contain no `(`. */
  lemma SkuKeyInjective(m1: string, s1: string, m2: string, s2: string)
    requires '(' !in s1 && '(' !in s2
    ensures SkuKey(m1, s1) == SkuKey(m2, s2) ==> m1 == m2 && s1 == s2
  {
    if SkuKey(m1, s1) == SkuKey(m2, s2) {
      var k := SkuKey(m1, s1);
      SkuKeyParen(m1, s1);
      SkuKeyParen(m2, s2);
      assert |m1| == |m2|;
      assert m1 == k[..|m1|] && m2 == k[..|m2|];
      assert s1 == k[|m1| + 6..|k| - 1] && s2 == k[|m2| + 6..|k| - 1];
    }
  }

  /** The conditions under which no record is lost. */
  ghost predicate KeysSeparate(es: seq<(string, JsonRecord)>)
  {
    && (forall i, j :: 0 <= i < j < |es| ==> es[i].0 != es[j].0)
    && (forall i :: 0 <= i < |es| ==> !EndsWithParen(es[i].1.model) && '(' !in es[i].0)
  }

  /** With distinct SKUs that contain no `(`, and model names that do not end with `)`,
      every entry gets a key of its own. */
  lemma ChosenKeysDistinct(es: seq<(string, JsonRecord)>)
    requires KeysSeparate(es)
    ensures forall j, i :: 0 <= j < i < |es| ==> KeyAt(es, j) != KeyAt(es, i)
  {
    forall j, i | 0 <= j < i < |es|
      ensures KeyAt(es, j) != KeyAt(es, i)
    {
      ByModelKeeps(es, j, i);
      SkuKeyInjective(es[i].1.model, es[i].0, es[j].1.model, es[j].0);
      assert EndsWithParen(SkuKey(es[i].1.model, es[i].0));
    }
  }

  /** So then `by_model` holds every record, each under the key chosen for it. */
  lemma NoRecordLost(es: seq<(string, JsonRecord)>)
    requires KeysSeparate(es)
    ensures |ByModel(es).keys| == |es|
    ensures forall i :: 0 <= i < |es| ==> KeyAt(es, i) in ByModel(es).vals && ByModel(es).vals[KeyAt(es, i)] == es[i].1
  {
    ChosenKeysDistinct(es);
    var ks := MapKeys(Keyed(es), FirstOf);
    assert forall i :: 0 <= i < |es| ==> ks[i] == KeyAt(es, i);
    DedupDistinct(ks);
    ByModelIsFold(es);
    FoldUpsertSpec(Keyed(es), FirstOf, LastWins);
    forall i | 0 <= i < |es|
      ensures KeyAt(es, i) in ByModel(es).vals && ByModel(es).vals[KeyAt(es, i)] == es[i].1
    {
      ByModelSpec(es, i);
    }
  }
  /** Without those conditions a record can be lost: when an earlier model name is itself a
      SKU-suffixed key, a repeated model with that SKU overwrites it. Entries `X` (SKU 1),
      `X (SKU 3)` (SKU 2) and `X` (SKU 3) leave two keys, and the record of SKU 2 is gone. */
  lemma SuffixKeyCollision(a: JsonRecord, b: JsonRecord, c: JsonRecord)
    requires a.model == "X" && b.model == "X (SKU 3)" && c.model == "X"
    ensures var d := ByModel([("1", a), ("2", b), ("3", c)]);
            && d.keys == ["X", "X (SKU 3)"]
            && d.vals == map["X" := a, "X (SKU 3)" := c]
            && b !in d.vals.Values
  {
    var es := [("1", a), ("2", b), ("3", c)];
    assert es[..0] == [] && es[..1][..0] == [] && es[..2][..1] == es[..1] && es[..3] == es && es[..3][..2] == es[..2];
    var e0: ODict<JsonRecord> := Empty();
    assert ByModel(es[..0]) == e0;
    assert es[..1] == [("1", a)];
    assert KeyFor(e0, "X", "1") == "X";
    var d1 := ByModel(es[..1]);
    assert d1 == Put(e0, "X", a);
    assert d1 == ODict(["X"], map["X" := a]);
    var d2 := ByModel(es[..2]);
    assert SkuKey("X", "3") == "X (SKU 3)";
    assert d2 == ODict(["X", "X (SKU 3)"], map["X" := a, "X (SKU 3)" := b]);
    var d3 := ByModel(es);
    assert d3 == Put(d2, SkuKey("X", "3"), c);
    assert b != a && b != c;
  }
  // ---------------------------------------------------------------------------------------
  // write_jsonl: flat_specs

  /** Every dictionary of an entry's specifications is well formed. */
  ghost predicate SpecsValid(specs: Specs)
  {
    Valid(specs) && forall g :: g in specs.vals ==> Valid(specs.vals[g])
  }

  /** The assignments the inner loop makes for one group: each name, in order, with its value. */
  function GroupPairs(group: string, names: ODict<string>): (ps: seq<(string, string)>)
    ensures |ps| == |names.keys|
  {
    seq(|names.keys|, j requires 0 <= j < |names.keys| =>
      (SpecKey(group, names.keys[j]), if names.keys[j] in names.vals then names.vals[names.keys[j]] else ""))
  }

  function PairsOf(specs: Specs): string -> seq<(string, string)>
  {
    (g: string) => if g in specs.vals then GroupPairs(g, specs.vals[g]) else []
  }

  /** All assignments of the two nested loops, in order. */
  function FlatPairs(specs: Specs): seq<(string, string)>
  {
    FlatMap(specs.keys, PairsOf(specs))
  }

  /** `flat_specs` after the loops. */
  function Flattened(specs: Specs): ODict<string>
  {
    FoldUpsert(FlatPairs(specs), FirstOf, LastWins)
  }

  /** One assignment of the inner loop. */
  lemma FlattenInnerStep(done: seq<(string, string)>, ps: seq<(string, string)>, j: int)
    requires 0 <= j < |ps|
    ensures FoldUpsert(done + ps[..j + 1], FirstOf, LastWins)
         == Put(FoldUpsert(done + ps[..j], FirstOf, LastWins), ps[j].0, ps[j].1)
  {
    assert done + ps[..j + 1] == (done + ps[..j]) + [ps[j]];
    FoldUpsertSnoc(done + ps[..j], ps[j], FirstOf, LastWins);
  }

  /** The two nested loops filling `flat_specs`. */
  method FlattenSpecs(specs: Specs) returns (flat: ODict<string>)
    requires SpecsValid(specs)
    ensures flat == Flattened(specs)
  {
    flat := Empty();
    for i := 0 to |specs.keys|
      invariant flat == FoldUpsert(FlatMap(specs.keys[..i], PairsOf(specs)), FirstOf, LastWins)
    {
      var group := specs.keys[i];
      var names := specs.vals[group];
      ghost var done := FlatMap(specs.keys[..i], PairsOf(specs));
      ghost var ps := GroupPairs(group, names);
      assert done + ps[..0] == done;
      for j := 0 to |names.keys|
        invariant flat == FoldUpsert(done + ps[..j], FirstOf, LastWins)
      {
        var name := names.keys[j];
        assert name in names.vals;
        assert ps[j] == (SpecKey(group, name), names.vals[name]);
        FlattenInnerStep(done, ps, j);
        flat := Put(flat, SpecKey(group, name), names.vals[name]);
      }
      assert ps[..|names.keys|] == ps;
      FlatMapPrefix(specs.keys, i, PairsOf(specs));
    }
    assert specs.keys[..|specs.keys|] == specs.keys;
  }

  /** Every assignment comes from a specification of the entry. */
  lemma FlatPairFrom(specs: Specs, kv: (string, string))
    requires SpecsValid(specs) && kv in FlatPairs(specs)
    ensures exists g, n :: g in specs.vals && n in specs.vals[g].vals && kv == (SpecKey(g, n), specs.vals[g].vals[n])
  {
    FlatMapFrom(specs.keys, PairsOf(specs), kv);
    var i :| 0 <= i < |specs.keys| && kv in PairsOf(specs)(specs.keys[i]);
    var g := specs.keys[i];
    assert g in specs.vals;
    GroupPairFrom(g, specs.vals[g], kv);
    var n :| n in specs.vals[g].vals && kv == (SpecKey(g, n), specs.vals[g].vals[n]);
  }

  /** Every assignment of one group comes from one of its specifications. */
  lemma GroupPairFrom(g: string, names: ODict<string>, kv: (string, string))
    requires Valid(names) && kv in GroupPairs(g, names)
    ensures exists n :: n in names.vals && kv == (SpecKey(g, n), names.vals[n])
  {
    var j :| 0 <= j < |names.keys| && GroupPairs(g, names)[j] == kv;
    assert names.keys[j] in names.vals;
  }

  /** Every specification of the entry is assigned. */
  lemma FlatPairHas(specs: Specs, g: string, n: string)
    requires SpecsValid(specs)
    requires g in specs.vals && n in specs.vals[g].vals
    ensures (SpecKey(g, n), specs.vals[g].vals[n]) in FlatPairs(specs)
  {
    var names := specs.vals[g];
    var gi := IndexOf(specs.keys, g);
    var nj := IndexOf(names.keys, n);
    assert GroupPairs(g, names)[nj] == (SpecKey(g, n), names.vals[n]);
    FlatMapHas(specs.keys, PairsOf(specs), gi, (SpecKey(g, n), names.vals[n]));
  }

  /** `flat_specs` maps every `(group, name)` of the entry to its value under
      `group + ": " + name`, provided group names contain no `:`. */
  lemma FlattenedSpec(specs: Specs, g: string, n: string)
    requires SpecsValid(specs)
    requires forall h :: h in specs.vals ==> ':' !in h
    requires g in specs.vals && n in specs.vals[g].vals
    ensures Get(Flattened(specs), SpecKey(g, n)) == Some(specs.vals[g].vals[n])
  {
    var key, v := SpecKey(g, n), specs.vals[g].vals[n];
    FlatPairHas(specs, g, n);
    forall kv | kv in FlatPairs(specs) && kv.0 == key
      ensures kv.1 == v
    {
      FlatPairFrom(specs, kv);
      var g', n' :| g' in specs.vals && n' in specs.vals[g'].vals && kv == (SpecKey(g', n'), specs.vals[g'].vals[n']);
      SpecKeyInjective(g, n, g', n');
    }
    FoldLastWinsUniform(FlatPairs(specs), key, v);
  }

  /** And every flat key is the key of some specification. */
  lemma FlattenedKeys(specs: Specs, k: string)
    requires SpecsValid(specs) && k in Flattened(specs).vals
    ensures exists g, n :: g in specs.vals && n in specs.vals[g].vals && k == SpecKey(g, n)
  {
    var pairs := FlatPairs(specs);
    FoldUpsertSpec(pairs, FirstOf, LastWins);
    DedupSpec(MapKeys(pairs, FirstOf));
    var i :| 0 <= i < |pairs| && MapKeys(pairs, FirstOf)[i] == k;
    assert pairs[i] in pairs;
    FlatPairFrom(specs, pairs[i]);
  }
  // ---------------------------------------------------------------------------------------
  // generate_text_block

  /** The five lines every text block starts with. */
  function HeaderLines(p: Product, model: string): seq<string>
  {
    ["Processor: " + model, "Full Name: " + p.productName, "Category: " + p.category, "Family: " + p.family, ""]
  }

  function SpecLine(name: string, value: string): string
  {
    "  " + name + ": " + value
  }

  /** The lines of one group: its heading, one line per specification in order, a blank line. */
  function GroupLines(group: string, names: ODict<string>): (ls: seq<string>)
    ensures |ls| == |names.keys| + 2
  {
    [group + ":"]
    + seq(|names.keys|, j requires 0 <= j < |names.keys| =>
        SpecLine(names.keys[j], if names.keys[j] in names.vals then names.vals[names.keys[j]] else ""))
    + [""]
  }

  function LinesOf(specs: Specs): string -> seq<string>
  {
    (g: string) => if g in specs.vals then GroupLines(g, specs.vals[g]) else []
  }

  /** The lines of all groups, in order. */
  function BodyLines(specs: Specs): seq<string>
  {
    FlatMap(specs.keys, LinesOf(specs))
  }

  /** The list `lines` the function joins. */
  function TextLines(p: Product, model: string): seq<string>
  {
    HeaderLines(p, model) + BodyLines(p.specs)
  }

  /** `generate_text_block(data, model_name)`. */
  function TextBlock(p: Product, model: string): string
  {
    Join(TextLines(p, model), "\n")
  }

  /** One group's heading and specification lines, as the inner loop appends them. */
  lemma GroupLinesStep(group: string, names: ODict<string>, j: int)
    requires 0 <= j < |names.keys| && names.keys[j] in names.vals
    ensures GroupLines(group, names)[..j + 2]
         == GroupLines(group, names)[..j + 1] + [SpecLine(names.keys[j], names.vals[names.keys[j]])]
  {
  }

  /** The blank line closes a group. */
  lemma GroupLinesLast(group: string, names: ODict<string>)
    ensures GroupLines(group, names) == GroupLines(group, names)[..|names.keys| + 1] + [""]
  {
  }

  /** One pass of the outer loop of `generate_text_block`: the group's lines appended. */
  method AppendGroupLines(lines: seq<string>, group: string, names: ODict<string>) returns (out: seq<string>)
    requires Valid(names)
    ensures out == lines + GroupLines(group, names)
  {
    ghost var gl := GroupLines(group, names);
    out := lines + [group + ":"];
    assert gl[..1] == [group + ":"];
    for j := 0 to |names.keys|
      invariant out == lines + gl[..j + 1]
    {
      var name := names.keys[j];
      assert name in names.vals;
      GroupLinesStep(group, names, j);
      out := out + [SpecLine(name, names.vals[name])];
    }
    out := out + [""];
    GroupLinesLast(group, names);
  }

  /** The outer loop of `generate_text_block`: every group's lines, in order. */
  method AppendAllGroups(lines: seq<string>, specs: Specs) returns (out: seq<string>)
    requires SpecsValid(specs)
    ensures out == lines + BodyLines(specs)
  {
    out := lines;
    for i := 0 to |specs.keys|
      invariant out == lines + FlatMap(specs.keys[..i], LinesOf(specs))
    {
      var group := specs.keys[i];
      assert group in specs.vals;
      assert LinesOf(specs)(group) == GroupLines(group, specs.vals[group]);
      out := AppendGroupLines(out, group, specs.vals[group]);
      FlatMapAppendNext(lines, specs.keys, i, LinesOf(specs));
    }
    FlatMapAll(lines, specs.keys, LinesOf(specs));
  }

  /** `generate_text_block`: the header lines, the groups' lines, joined by newlines. */
  method GenerateTextBlock(p: Product, model: string) returns (text: string)
    requires SpecsValid(p.specs)
    ensures text == TextBlock(p, model)
  {
    var lines := ["Processor: " + model, "Full Name: " + p.productName, "Category: " + p.category,
                  "Family: " + p.family, ""];
    lines := AppendAllGroups(lines, p.specs);
    text := Join(lines, "\n");
  }

  /** The number of lines the groups `ks` take: each its specifications plus two. */
  function SpecLineCount(specs: Specs, ks: seq<string>): nat
    decreases |ks|
  {
    if ks == [] then 0
    else
      var g := ks[|ks| - 1];
      SpecLineCount(specs, ks[..|ks| - 1]) + (if g in specs.vals then |specs.vals[g].keys| else 0) + 2
  }

  lemma {:induction false} GroupLinesLength(specs: Specs, ks: seq<string>)
    requires forall g :: g in ks ==> g in specs.vals
    ensures |FlatMap(ks, LinesOf(specs))| == SpecLineCount(specs, ks)
    decreases |ks|
  {
    if ks != [] {
      var init := ks[..|ks| - 1];
      assert forall g :: g in init ==> g in ks;
      GroupLinesLength(specs, init);
      assert ks[|ks| - 1] in ks;
    }
  }

  /** A text block has 5 + the sum over groups of (specifications + 2) lines. */
  lemma TextLineCount(p: Product, model: string)
    requires SpecsValid(p.specs)
    ensures |TextLines(p, model)| == 5 + SpecLineCount(p.specs, p.specs.keys)
  {
    GroupLinesLength(p.specs, p.specs.keys);
    assert |HeaderLines(p, model)| == 5;
  }

  /** A group's block: its heading, its specifications in order as `"  name: value"`, and a
      blank line. */
  lemma GroupLinesSpec(group: string, names: ODict<string>)
    requires Valid(names)
    ensures var ls := GroupLines(group, names);
            && ls[0] == group + ":"
            && (forall j :: 0 <= j < |names.keys| ==> ls[1 + j] == SpecLine(names.keys[j], names.vals[names.keys[j]]))
            && ls[|ls| - 1] == ""
  {
    forall j | 0 <= j < |names.keys|
      ensures GroupLines(group, names)[1 + j] == SpecLine(names.keys[j], names.vals[names.keys[j]])
    {
      assert names.keys[j] in names.vals;
    }
  }

  /** Where the block of the group at position `gi` starts among the groups' lines: after
      the blocks of the groups before it. */
  function BlockStart(specs: Specs, gi: int): nat
    requires 0 <= gi <= |specs.keys|
  {
    SpecLineCount(specs, specs.keys[..gi])
  }

  /** The block of the group at position `gi`. */
  function GroupBlock(specs: Specs, gi: int): seq<string>
    requires 0 <= gi < |specs.keys|
  {
    LinesOf(specs)(specs.keys[gi])
  }

  /** The groups' lines: the block of each group, in order, right after the lines of the
      groups before it. */
  lemma BodyLayout(specs: Specs, gi: int)
    requires 0 <= gi < |specs.keys|
    ensures var o := |FlatMap(specs.keys[..gi], LinesOf(specs))|;
            && o + |GroupBlock(specs, gi)| <= |BodyLines(specs)|
            && BodyLines(specs)[o..o + |GroupBlock(specs, gi)|] == GroupBlock(specs, gi)
  {
    var f := LinesOf(specs);
    FlatMapBlock(specs.keys, gi, f);
    assert BodyLines(specs) == FlatMap(specs.keys, f);
    assert GroupBlock(specs, gi) == f(specs.keys[gi]);
  }

  /** The block of a group is its heading, specification lines and blank line. */
  lemma GroupBlockIs(specs: Specs, gi: int)
    requires Valid(specs) && 0 <= gi < |specs.keys|
    ensures GroupBlock(specs, gi) == GroupLines(specs.keys[gi], specs.vals[specs.keys[gi]])
  {
    assert specs.keys[gi] in specs.vals;
  }

  /** The lines before a group's block: a heading, a blank line and one line per
      specification for each group before it. */
  lemma BlockStartIs(specs: Specs, gi: int)
    requires (forall g :: g in specs.keys ==> g in specs.vals) && 0 <= gi < |specs.keys|
    ensures BlockStart(specs, gi) == |FlatMap(specs.keys[..gi], LinesOf(specs))|
  {
    assert forall h :: h in specs.keys[..gi] ==> h in specs.keys;
    GroupLinesLength(specs, specs.keys[..gi]);
  }

  /** The text block: the five header lines, then the groups' lines. */
  lemma TextBlockLayout(p: Product, model: string)
    ensures |TextLines(p, model)| == 5 + |BodyLines(p.specs)|
    ensures TextLines(p, model)[..5] == HeaderLines(p, model)
    ensures TextLines(p, model)[5..] == BodyLines(p.specs)
  {
    var head := HeaderLines(p, model);
    assert |head| == 5;
    assert (head + BodyLines(p.specs))[..|head|] == head;
    assert (head + BodyLines(p.specs))[|head|..] == BodyLines(p.specs);
  }
}
