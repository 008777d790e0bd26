/** The scraper's `write_csv_rows`: the long CSV is an append-only log. The file is a flag
    saying whether it exists and the sequence of its records, each a list of fields;
    CSV quoting and encoding are not modelled. */
module Sink {
  import opened ScrapeState

  /** The header row, written once when the file is created. */
  const Header: seq<string> :=
    ["sku", "product_name", "product_url", "category", "family", "spec_group", "spec_name", "spec_value", "scraped_at"]

  /** The data rows written for one product, in the order of its facts, all stamped with the
      same `scraped_at`. */
  function DataRows(sku: string, productName: string, productUrl: string, category: string, family: string,
                    facts: seq<SpecFact>, scrapedAt: string): (rows: seq<seq<string>>)
    ensures |rows| == |facts|
    ensures forall i :: 0 <= i < |facts| ==>
              && |rows[i]| == |Header|
              && rows[i][..5] == [sku, productName, productUrl, category, family]
              && rows[i][5..8] == [facts[i].group, facts[i].name, facts[i].value]
              && rows[i][8] == scrapedAt
    decreases |facts|
  {
    if facts == [] then []
    else
      var f := facts[|facts| - 1];
      DataRows(sku, productName, productUrl, category, family, facts[..|facts| - 1], scrapedAt)
        + [[sku, productName, productUrl, category, family, f.group, f.name, f.value, scrapedAt]]
  }

  /** Writing two runs of facts writes the rows of their concatenation: order is kept. */
  lemma {:induction false} DataRowsConcat(sku: string, productName: string, productUrl: string, category: string,
                                          family: string, a: seq<SpecFact>, b: seq<SpecFact>, scrapedAt: string)
    ensures DataRows(sku, productName, productUrl, category, family, a + b, scrapedAt)
         == DataRows(sku, productName, productUrl, category, family, a, scrapedAt)
          + DataRows(sku, productName, productUrl, category, family, b, scrapedAt)
    decreases |b|
  {
    if b == [] {
      assert a + b == a;
    } else {
      assert (a + b)[..|a + b| - 1] == a + b[..|b| - 1];
      DataRowsConcat(sku, productName, productUrl, category, family, a, b[..|b| - 1], scrapedAt);
    }
  }

  /** The output log. */
  class CsvFile {
    var present: bool
    var records: seq<seq<string>>

    ghost predicate Valid()
      reads this
    {
      !present ==> records == []
    }

    /** A log file that does not exist yet. */
    constructor ()
      ensures Valid() && !present && records == []
    {
      present, records := false, [];
    }

    /** `write_csv_rows`: the header only if the file did not exist, then one row per fact,
        appended after what was there; returns how many data rows it wrote. */
    method WriteCsvRows(sku: string, productName: string, productUrl: string, category: string, family: string,
                        specRows: seq<SpecFact>, scrapedAt: string) returns (count: nat)
      requires Valid()
      modifies this
      ensures Valid() && present
      ensures records == old(records) + (if old(present) then [] else [Header])
                         + DataRows(sku, productName, productUrl, category, family, specRows, scrapedAt)
      ensures count == |specRows|
    {
      var isNew := !present;
      present := true;
      if isNew {
        records := records + [Header];
      }
      ghost var start := records;
      count := 0;
      for i := 0 to |specRows|
        invariant records == start + DataRows(sku, productName, productUrl, category, family, specRows[..i], scrapedAt)
        invariant count == i && present
      {
        var f := specRows[i];
        assert specRows[..i + 1][..i] == specRows[..i];
        records := records + [[sku, productName, productUrl, category, family, f.group, f.name, f.value, scrapedAt]];
        count := count + 1;
      }
      assert specRows[..|specRows|] == specRows;
    }
  }
}
