/** `convert_to_wide.py`: the long CSV pivoted into one row per SKU and one column per
    specification, with the metadata columns first and the specification columns ordered by
    the canonical group order. */
module WidePivot {
  import opened Options
  import opened Seqs
  import opened ODicts
  import opened PyText
  import opened Ordering
  import opened LongCsv

  /** The output file: the header and the data rows, one cell per header column. */
  datatype WideTable = WideTable(header: seq<string>, rows: seq<seq<string>>)

  /** The metadata columns, in output order. */
  const MetaCols: seq<string> := ["sku", "product_name", "product_url", "category", "family", "scraped_at"]

  // ---------------------------------------------------------------------------------------
  // The read loop

  /** The column of a row: `f"{spec_group}: {spec_name}"`. */
  function ColumnOf(r: LongRow): string
  {
    SpecKey(r.group, r.name)
  }

  /** The dictionary a new SKU starts with: its six metadata fields, from this row. */
  function MetaOf(r: LongRow): ODict<string>
  {
    ODict(MetaCols, map["sku" := r.sku, "product_name" := r.productName, "product_url" := r.productUrl,
                        "category" := r.category, "family" := r.family, "scraped_at" := r.scrapedAt])
  }

  /** How one row changes its SKU's dictionary: created from the row's metadata if the SKU is
      new, then the row's column set to its value. */
  function WideStep(cur: Option<ODict<string>>, r: LongRow): ODict<string>
  {
    var d := match cur case None => MetaOf(r) case Some(d) => d;
    Put(d, ColumnOf(r), r.value)
  }

  /** `spec_columns[col_name] = None` stores nothing but the key. */
  function NoValue(cur: Option<()>, r: LongRow): ()
  {
    ()
  }

  /** `sku_data` after the read loop. */
  function WideData(rows: seq<LongRow>): ODict<ODict<string>>
  {
    FoldUpsert(rows, SkuOf, WideStep)
  }

  /** `spec_columns` after the read loop. */
  function ColumnsSeen(rows: seq<LongRow>): ODict<()>
  {
    FoldUpsert(rows, ColumnOf, NoValue)
  }

  /** One pass of the read loop. */
  lemma ReadStep(rows: seq<LongRow>, i: int)
    requires 0 <= i < |rows|
    ensures WideData(rows[..i + 1])
         == Put(WideData(rows[..i]), rows[i].sku, WideStep(Get(WideData(rows[..i]), rows[i].sku), rows[i]))
    ensures ColumnsSeen(rows[..i + 1]) == Put(ColumnsSeen(rows[..i]), ColumnOf(rows[i]), ())
  {
    assert rows[..i + 1] == rows[..i] + [rows[i]];
    FoldUpsertSnoc(rows[..i], rows[i], SkuOf, WideStep);
    FoldUpsertSnoc(rows[..i], rows[i], ColumnOf, NoValue);
  }

  /** The read loop of `convert_long_to_wide`. */
  method ReadRows(rows: seq<LongRow>) returns (skuData: ODict<ODict<string>>, specColumns: ODict<()>)
    ensures skuData == WideData(rows) && specColumns == ColumnsSeen(rows)
  {
    skuData, specColumns := Empty(), Empty();
    for i := 0 to |rows|
      invariant skuData == WideData(rows[..i]) && specColumns == ColumnsSeen(rows[..i])
    {
      var row := rows[i];
      var colName := SpecKey(row.group, row.name);
      specColumns := Put(specColumns, colName, ());
      if row.sku !in skuData.vals {
        skuData := Put(skuData, row.sku, MetaOf(row));
      }
      skuData := Put(skuData, row.sku, Put(skuData.vals[row.sku], colName, row.value));
      ReadStep(rows, i);
    }
    assert rows[..|rows|] == rows;
  }

  // ---------------------------------------------------------------------------------------
  // What a SKU's dictionary holds

  /** The value of the last of `ys` whose column is `col`, if any. */
  function LastValue(ys: seq<LongRow>, col: string): Option<string>
    decreases |ys|
  {
    if ys == [] then None
    else if ColumnOf(ys[|ys| - 1]) == col then Some(ys[|ys| - 1].value)
    else LastValue(ys[..|ys| - 1], col)
  }

  /** No metadata column name holds a `:`. */
  lemma MetaColsPlain()
    ensures forall m :: m in MetaCols ==> ':' !in m
  {
  }

  /** The metadata columns are six distinct names (of six different lengths). */
  lemma MetaColsDistinct()
    ensures Distinct(MetaCols)
  {
    var lengths := [3, 12, 11, 8, 6, 10];
    assert forall i :: 0 <= i < 6 ==> |MetaCols[i]| == lengths[i];
  }

  /** A SKU's dictionary: a key without `:` holds the metadata of the SKU's first row; a key
      with `:` holds the value of the SKU's last row in that column, and is absent if no row
      has it. */
  lemma {:induction false} AggWide(ys: seq<LongRow>, k: string)
    requires ys != []
    ensures Agg(ys, WideStep).Some?
    ensures Get(Agg(ys, WideStep).value, k) == if ':' in k then LastValue(ys, k) else Get(MetaOf(ys[0]), k)
    decreases |ys|
  {
    var init, last := ys[..|ys| - 1], ys[|ys| - 1];
    SpecKeyColon(last.group, last.name);
    MetaColsPlain();
    if init != [] {
      AggWide(init, k);
      assert init[0] == ys[0];
    } else {
      assert ys[0] == last;
    }
  }

  /** Entries: one per distinct SKU, in order of first appearance, each built from that SKU's
      rows: the six metadata fields of the first, and for each column the value of the last. */
  lemma WideDataSpec(rows: seq<LongRow>, sku: string, k: string)
    ensures Valid(WideData(rows))
    ensures WideData(rows).keys == Dedup(MapKeys(rows, SkuOf))
    ensures sku in WideData(rows).vals <==> RowsOf(rows, sku) != []
    ensures sku in WideData(rows).vals ==>
              var ys := RowsOf(rows, sku);
              Get(WideData(rows).vals[sku], k) == if ':' in k then LastValue(ys, k) else Get(MetaOf(ys[0]), k)
  {
    FoldUpsertSpec(rows, SkuOf, WideStep);
    FoldUpsertAt(rows, SkuOf, WideStep, sku, (r: LongRow) => r.sku == sku);
    var ys := RowsOf(rows, sku);
    if ys != [] {
      AggWide(ys, k);
    }
  }

  /** The metadata of a SKU, `scraped_at` included, is that of its first row. */
  lemma WideFirstRowMetadata(rows: seq<LongRow>, i: int, m: string)
    requires 0 <= i < |rows|
    requires forall j :: 0 <= j < i ==> rows[j].sku != rows[i].sku
    requires m in MetaCols
    ensures rows[i].sku in WideData(rows).vals
    ensures Get(WideData(rows).vals[rows[i].sku], m) == Get(MetaOf(rows[i]), m)
  {
    FilterFirstIs(rows, (r: LongRow) => r.sku == rows[i].sku, i);
    MetaColsPlain();
    WideDataSpec(rows, rows[i].sku, m);
  }

  /** The value the last row of a SKU in a column leaves in that column. */
  lemma {:induction false} LastValueIs(rows: seq<LongRow>, i: int)
    requires 0 <= i < |rows|
    requires forall j :: i < j < |rows| ==> !(rows[j].sku == rows[i].sku && ColumnOf(rows[j]) == ColumnOf(rows[i]))
    ensures LastValue(RowsOf(rows, rows[i].sku), ColumnOf(rows[i])) == Some(rows[i].value)
    decreases |rows|
  {
    var init, last := rows[..|rows| - 1], rows[|rows| - 1];
    var keep := (r: LongRow) => r.sku == rows[i].sku;
    if i < |rows| - 1 {
      LastValueIs(init, i);
      if keep(last) {
        assert Filter(rows, keep) == Filter(init, keep) + [last];
      } else {
        assert Filter(rows, keep) == Filter(init, keep);
      }
    } else {
      assert Filter(rows, keep) == Filter(init, keep) + [last];
    }
  }

  /** A spec cell holds the value of the last input row with that SKU and column. */
  lemma WideLastValueWins(rows: seq<LongRow>, i: int)
    requires 0 <= i < |rows|
    requires forall j :: i < j < |rows| ==> !(rows[j].sku == rows[i].sku && ColumnOf(rows[j]) == ColumnOf(rows[i]))
    ensures rows[i].sku in WideData(rows).vals
    ensures Get(WideData(rows).vals[rows[i].sku], ColumnOf(rows[i])) == Some(rows[i].value)
  {
    var keep := (r: LongRow) => r.sku == rows[i].sku;
    FilterMembers(rows, keep);
    assert rows[i] in rows;
    SpecKeyColon(rows[i].group, rows[i].name);
    WideDataSpec(rows, rows[i].sku, ColumnOf(rows[i]));
    LastValueIs(rows, i);
  }

  // ---------------------------------------------------------------------------------------
  // Column order

  /** `column_sort_key(col)[0]`: the position in the canonical order of the text before the
      first `:`, or the number of canonical groups when it is not one of them. */
  function ColumnRank(col: string): int
  {
    var group := Before(col, ":");
    if group in GroupOrder then IndexOf(GroupOrder, group) else |GroupOrder|
  }

  /** The text before the first `:` of a column is its group, when group names hold no `:`. */
  lemma GroupOfColumn(group: string, name: string)
    requires ':' !in group
    ensures Before(SpecKey(group, name), ":") == group
  {
    var col := SpecKey(group, name);
    SpecKeyColon(group, name);
    ContainsChar(col, ':');
    var b := Before(col, ":");
    ContainsChar(b, ':');
    assert col[..|group|] == group;
    assert col[|b|] == ':' by { assert col[|b|..|b| + 1] == ":"; }
    assert forall k :: 0 <= k < |group| ==> col[k] != ':' by {
      forall k | 0 <= k < |group| ensures col[k] != ':' { assert col[k] == group[k]; }
    }
    assert forall k :: 0 <= k < |b| ==> col[k] != ':' by {
      forall k | 0 <= k < |b| ensures col[k] != ':' { assert col[k] == b[k]; }
    }
    assert |b| == |group|;
  }

  /** A column ranks by its own group when group names hold no `:`. */
  lemma ColumnRankSpec(group: string, name: string)
    requires ':' !in group
    ensures ColumnRank(SpecKey(group, name)) == if group in GroupOrder then IndexOf(GroupOrder, group) else 9
  {
    GroupOfColumn(group, name);
    GroupOrderDistinct();
  }

  /** `sorted(spec_columns.keys(), key=column_sort_key)`: the columns are distinct, so the
      sort is by the two-part key on the set of columns. */
  function SortedColumns(rows: seq<LongRow>): seq<string>
  {
    SortBy((set c | c in ColumnsSeen(rows).keys), ColumnRank)
  }

  /** `meta_cols + sorted_spec_cols`. */
  function Header(rows: seq<LongRow>): seq<string>
  {
    MetaCols + SortedColumns(rows)
  }

  /** The spec columns: every distinct column of the input, in ascending order of (canonical
      group index, column), and each holding a `:`. */
  lemma SortedColumnsSpec(rows: seq<LongRow>, c: string)
    ensures c in SortedColumns(rows) <==> c in MapKeys(rows, ColumnOf)
    ensures SortedBy(SortedColumns(rows), ColumnRank)
    ensures c in SortedColumns(rows) ==> ':' in c
  {
    FoldUpsertSpec(rows, ColumnOf, NoValue);
    DedupSpec(MapKeys(rows, ColumnOf));
    if c in MapKeys(rows, ColumnOf) {
      var i :| 0 <= i < |rows| && MapKeys(rows, ColumnOf)[i] == c;
      SpecKeyColon(rows[i].group, rows[i].name);
    }
  }

  /** Sorted columns are distinct. */
  lemma SortedDistinct(cols: seq<string>, key: string -> int)
    requires SortedBy(cols, key)
    ensures Distinct(cols)
  {
    forall i, j | 0 <= i < j < |cols|
      ensures cols[i] != cols[j]
    {
      KeyLessAsymmetric(key, cols[i], cols[j]);
    }
  }

  /** The header: the metadata columns, then the spec columns; no column twice, and in
      particular no spec column named like a metadata column. */
  lemma HeaderSpec(rows: seq<LongRow>)
    ensures Header(rows)[..6] == MetaCols
    ensures Header(rows)[6..] == SortedColumns(rows)
    ensures Distinct(Header(rows))
  {
    var cols := SortedColumns(rows);
    SortedColumnsSpec(rows, "");
    SortedDistinct(cols, ColumnRank);
    SpecColumnsNotMeta(rows);
    MetaColsDistinct();
    DistinctConcat(MetaCols, cols);
  }

  lemma SpecColumnsNotMeta(rows: seq<LongRow>)
    ensures forall c :: c in SortedColumns(rows) ==> c !in MetaCols
  {
    forall c | c in SortedColumns(rows)
      ensures c !in MetaCols
    {
      SortedColumnsSpec(rows, c);
      MetaColsPlain();
    }
  }

  // ---------------------------------------------------------------------------------------
  // The output loop

  /** The fill loop's result: each column of `cols` missing from `d` added with `""`. */
  function Filled(d: ODict<string>, cols: seq<string>): ODict<string>
    decreases |cols|
  {
    if cols == [] then d
    else
      var e := Filled(d, cols[..|cols| - 1]);
      var c := cols[|cols| - 1];
      if c in e.vals then e else Put(e, c, "")
  }

  /** After filling, a key keeps its value, a missing column of `cols` holds `""`, and no other
      key appears. */
  lemma {:induction false} FilledSpec(d: ODict<string>, cols: seq<string>, k: string)
    ensures Get(Filled(d, cols), k) == if k in d.vals then Get(d, k) else if k in cols then Some("") else None
    decreases |cols|
  {
    if cols != [] {
      FilledSpec(d, cols[..|cols| - 1], k);
      assert cols == cols[..|cols| - 1] + [cols[|cols| - 1]];
    }
  }

  /** `for col in sorted_spec_cols: if col not in row_data: row_data[col] = ""`. */
  method FillMissing(rowData: ODict<string>, cols: seq<string>) returns (filled: ODict<string>)
    ensures filled == Filled(rowData, cols)
  {
    filled := rowData;
    for j := 0 to |cols|
      invariant filled == Filled(rowData, cols[..j])
    {
      assert cols[..j + 1][..j] == cols[..j];
      if cols[j] !in filled.vals {
        filled := Put(filled, cols[j], "");
      }
    }
    assert cols[..|cols|] == cols;
  }

  /** `writer.writerow(row_data)`: one cell per header column, `""` for a key the dictionary
      lacks (the writer's default), keys outside the header ignored. */
  function Cells(d: ODict<string>, header: seq<string>): (cells: seq<string>)
    ensures |cells| == |header|
  {
    seq(|header|, j requires 0 <= j < |header| => if header[j] in d.vals then d.vals[header[j]] else "")
  }

  /** The SKUs in output order: `sorted(sku_data.keys())`. */
  function SortedSkus(rows: seq<LongRow>): seq<string>
  {
    SortStrings(set s | s in WideData(rows).keys)
  }

  /** The output row of a SKU's dictionary. */
  function RowOf(data: ODict<ODict<string>>, cols: seq<string>, header: seq<string>, sku: string): seq<string>
  {
    Cells(Filled(if sku in data.vals then data.vals[sku] else Empty(), cols), header)
  }

  /** The output row of a SKU. */
  function RowFor(rows: seq<LongRow>, sku: string): seq<string>
  {
    RowOf(WideData(rows), SortedColumns(rows), Header(rows), sku)
  }

  /** The file `convert_long_to_wide` writes. */
  function Pivot(rows: seq<LongRow>): WideTable
  {
    var skus := SortedSkus(rows);
    WideTable(Header(rows), seq(|skus|, i requires 0 <= i < |skus| => RowFor(rows, skus[i])))
  }

  /** The output loop: for each SKU in order, fill its dictionary and write it. */
  method WriteRows(skuData: ODict<ODict<string>>, sortedSpecCols: seq<string>, allColumns: seq<string>,
                   skus: seq<string>) returns (out: seq<seq<string>>)
    requires forall s :: s in skus ==> s in skuData.vals
    ensures |out| == |skus|
    ensures forall k :: 0 <= k < |skus| ==> out[k] == RowOf(skuData, sortedSpecCols, allColumns, skus[k])
  {
    out := [];
    for i := 0 to |skus|
      invariant |out| == i
      invariant forall k :: 0 <= k < i ==> out[k] == RowOf(skuData, sortedSpecCols, allColumns, skus[k])
    {
      assert skus[i] in skus;
      var rowData := FillMissing(skuData.vals[skus[i]], sortedSpecCols);
      out := out + [Cells(rowData, allColumns)];
    }
  }

  /** `convert_long_to_wide` on the rows of the input file. */
  method ConvertLongToWide(rows: seq<LongRow>) returns (table: WideTable)
    ensures table == Pivot(rows)
  {
    var skuData, specColumns := ReadRows(rows);
    FoldUpsertSpec(rows, SkuOf, WideStep);
    var sortedSpecCols := SortBy((set c | c in specColumns.keys), ColumnRank);
    var allColumns := MetaCols + sortedSpecCols;
    var skus := SortStrings(set s | s in skuData.keys);
    assert sortedSpecCols == SortedColumns(rows) && allColumns == Header(rows) && skus == SortedSkus(rows);
    var out := WriteRows(skuData, sortedSpecCols, allColumns, skus);
    table := WideTable(allColumns, out);
    PivotIs(rows, out);
  }

  /** Rows that agree with `RowFor` on the sorted SKUs are the pivot's rows. */
  lemma PivotIs(rows: seq<LongRow>, out: seq<seq<string>>)
    requires |out| == |SortedSkus(rows)|
    requires forall k :: 0 <= k < |out| ==> out[k] == RowFor(rows, SortedSkus(rows)[k])
    ensures Pivot(rows) == WideTable(Header(rows), out)
  {
  }

  // ---------------------------------------------------------------------------------------
  // Properties of the output

  /** One row per distinct SKU, in ascending string order, each as wide as the header and
      starting with its SKU. */
  lemma PivotRows(rows: seq<LongRow>)
    ensures |Pivot(rows).rows| == |Dedup(MapKeys(rows, SkuOf))|
    ensures forall i :: 0 <= i < |Pivot(rows).rows| ==> |Pivot(rows).rows[i]| == |Pivot(rows).header|
    ensures forall s :: s in SortedSkus(rows) <==> s in MapKeys(rows, SkuOf)
    ensures forall i, j :: 0 <= i < j < |SortedSkus(rows)| ==> StrLess(SortedSkus(rows)[i], SortedSkus(rows)[j])
  {
    FoldUpsertSpec(rows, SkuOf, WideStep);
    DedupSpec(MapKeys(rows, SkuOf));
    DistinctCard(WideData(rows).keys);
  }

  /** A row's first cell is its SKU. */
  lemma PivotRowSku(rows: seq<LongRow>, i: int)
    requires 0 <= i < |SortedSkus(rows)|
    ensures Pivot(rows).rows[i][0] == SortedSkus(rows)[i]
  {
    var sku := SortedSkus(rows)[i];
    PivotMetaCell(rows, i, 0);
    var ys := RowsOf(rows, sku);
    FilterMembers(rows, (r: LongRow) => r.sku == sku);
    assert ys[0] in ys;
  }

  /** Every cell of a row is its SKU's value in that column, or `""` when it has none. */
  lemma PivotCellIs(rows: seq<LongRow>, i: int, j: int)
    requires 0 <= i < |SortedSkus(rows)| && 0 <= j < |Header(rows)|
    ensures SortedSkus(rows)[i] in WideData(rows).vals
    ensures Pivot(rows).rows[i][j]
         == match Get(WideData(rows).vals[SortedSkus(rows)[i]], Header(rows)[j]) case Some(v) => v case None => ""
  {
    var s := SortedSkus(rows);
    FoldUpsertSpec(rows, SkuOf, WideStep);
    assert s[i] in s;
    FillInvisible(WideData(rows).vals[s[i]], SortedColumns(rows), Header(rows));
  }

  /** A metadata cell holds the field of the SKU's first row. */
  lemma PivotMetaCell(rows: seq<LongRow>, i: int, j: int)
    requires 0 <= i < |SortedSkus(rows)| && 0 <= j < 6
    ensures RowsOf(rows, SortedSkus(rows)[i]) != []
    ensures Pivot(rows).rows[i][j] == MetaOf(RowsOf(rows, SortedSkus(rows)[i])[0]).vals[MetaCols[j]]
  {
    var sku := SortedSkus(rows)[i];
    HeaderSpec(rows);
    assert Header(rows)[j] == MetaCols[j];
    PivotCellIs(rows, i, j);
    MetaColsPlain();
    WideDataSpec(rows, sku, MetaCols[j]);
  }

  /** A spec cell holds the value of the SKU's last row in that column, or `""` when none of
      its rows has it. */
  lemma PivotSpecCell(rows: seq<LongRow>, i: int, j: int)
    requires 0 <= i < |SortedSkus(rows)| && 6 <= j < |Header(rows)|
    ensures Pivot(rows).rows[i][j]
         == match LastValue(RowsOf(rows, SortedSkus(rows)[i]), Header(rows)[j]) case Some(v) => v case None => ""
  {
    var sku := SortedSkus(rows)[i];
    var col := Header(rows)[j];
    HeaderSpec(rows);
    assert col in Header(rows)[6..];
    SortedColumnsSpec(rows, col);
    PivotCellIs(rows, i, j);
    WideDataSpec(rows, sku, col);
  }

  /** Filling changes no output cell: the writer already writes `""` for a missing key. */
  lemma FillInvisible(d: ODict<string>, cols: seq<string>, header: seq<string>)
    ensures Cells(Filled(d, cols), header) == Cells(d, header)
  {
    forall j | 0 <= j < |header|
      ensures Cells(Filled(d, cols), header)[j] == Cells(d, header)[j]
    {
      FilledSpec(d, cols, header[j]);
    }
  }

  /** After filling, the dictionary has a value for every spec column. */
  lemma FilledComplete(d: ODict<string>, cols: seq<string>, c: string)
    requires c in cols
    ensures c in Filled(d, cols).vals
  {
    FilledSpec(d, cols, c);
  }
}
