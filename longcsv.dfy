/** The long CSV as the two converters read it: one record per specification fact, with the
    nine columns the scraper writes. Reading the file (`csv.DictReader`) is not modelled; the
    converters receive the records in file order. */
module LongCsv {
  import opened Seqs

  datatype LongRow = LongRow(sku: string, productName: string, productUrl: string, category: string,
                             family: string, group: string, name: string, value: string, scrapedAt: string)

  function SkuOf(r: LongRow): string { r.sku }

  /** The rows of `sku`, in file order. */
  function RowsOf(rows: seq<LongRow>, sku: string): seq<LongRow>
  {
    Filter(rows, (r: LongRow) => r.sku == sku)
  }

  /** The key both converters give a specification: `f"{group}: {name}"`. */
  function SpecKey(group: string, name: string): string
  {
    group + ": " + name
  }

  /** A specification key always holds a `:`, right after the group name. */
  lemma SpecKeyColon(group: string, name: string)
    ensures |group| < |SpecKey(group, name)| && SpecKey(group, name)[|group|] == ':'
    ensures ':' in SpecKey(group, name)
  {
    assert SpecKey(group, name)[|group|] == ':';
  }

  /** When group names hold no `:`, the key determines the group (the text before the first
      `:`) and the name. */
  lemma SpecKeyInjective(g1: string, n1: string, g2: string, n2: string)
    requires ':' !in g1 && ':' !in g2
    ensures SpecKey(g1, n1) == SpecKey(g2, n2) ==> g1 == g2 && n1 == n2
  {
    if SpecKey(g1, n1) == SpecKey(g2, n2) {
      var k := SpecKey(g1, n1);
      assert k[|g1|] == ':' && k[|g2|] == ':';
      assert forall i :: 0 <= i < |g1| ==> k[i] == g1[i];
      assert forall i :: 0 <= i < |g2| ==> k[i] == g2[i];
      assert |g1| == |g2|;
      assert g1 == k[..|g1|] && g2 == k[..|g2|];
      assert n1 == k[|g1| + 2..] && n2 == k[|g2| + 2..];
    }
  }

  /** The canonical order of the specification groups on an ARK page, the same list in both
      converters. */
  const GroupOrder: seq<string> := [
    "Essentials",
    "CPU Specifications",
    "Supplemental Information",
    "Memory Specifications",
    "GPU Specifications",
    "Expansion Options",
    "Package Specifications",
    "Advanced Technologies",
    "Security & Reliability"
  ]

  /** The canonical groups are nine distinct names. */
  lemma GroupOrderDistinct()
    ensures |GroupOrder| == 9
    ensures Distinct(GroupOrder)
  {
  }
}
