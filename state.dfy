/** The scraper's SQLite state: three keyed tables and their two write rules.
    `discovered_series` (key `url`) and `discovered_skus` (key `sku`) are written with
    INSERT OR IGNORE, so the first row stored under a key stays; `scraped_skus` (key `sku`)
    is written with INSERT OR REPLACE, so it holds the latest attempt only. */
module ScrapeState {
  import opened Options

  /** A series link found on a category panel (`SeriesLink`). */
  datatype SeriesLink = SeriesLink(category: string, family: string, url: string)

  /** A product row found on a series page (`SkuLink`). */
  datatype SkuLink = SkuLink(sku: string, productName: string, category: string, family: string, specUrl: string)

  /** One specification fact `(group_name, label, value)` read from a detail page. */
  datatype SpecFact = SpecFact(group: string, name: string, value: string)

  /** The `status` column of `scraped_skus`; the scraper only ever writes `'ok'` and `'error'`. */
  datatype Status = Ok | Error

  /** A row of `scraped_skus` without its key. */
  datatype Outcome = Outcome(scrapedAt: string, status: Status, lastError: Option<string>)

  // ---------------------------------------------------------------------------------------
  // INSERT OR IGNORE

  /** One `INSERT OR IGNORE`: a key already present keeps its row. */
  function InsertIfAbsent<V>(m: map<string, V>, key: string, row: V): map<string, V>
  {
    if key in m then m else m[key := row]
  }

  /** `executemany` of `INSERT OR IGNORE` over a batch of `(key, row)` pairs, in order. */
  function InsertAllIfAbsent<V>(m: map<string, V>, batch: seq<(string, V)>): map<string, V>
    decreases |batch|
  {
    if batch == [] then m
    else
      var last := batch[|batch| - 1];
      InsertIfAbsent(InsertAllIfAbsent(m, batch[..|batch| - 1]), last.0, last.1)
  }

  /** The keys of a batch. */
  function BatchKeys<V>(batch: seq<(string, V)>): set<string>
  {
    set i | 0 <= i < |batch| :: batch[i].0
  }

  /** After the batch the table holds exactly the old keys and the batch's keys: new keys
      are added and nothing is removed. */
  lemma {:induction false} InsertAllKeys<V>(m: map<string, V>, batch: seq<(string, V)>)
    ensures InsertAllIfAbsent(m, batch).Keys == m.Keys + BatchKeys(batch)
    decreases |batch|
  {
    if batch != [] {
      var init := batch[..|batch| - 1];
      InsertAllKeys(m, init);
      assert BatchKeys(batch) == BatchKeys(init) + {batch[|batch| - 1].0} by {
        forall k | k in BatchKeys(batch) ensures k in BatchKeys(init) + {batch[|batch| - 1].0} {
          var i :| 0 <= i < |batch| && batch[i].0 == k;
          if i < |batch| - 1 { assert init[i] == batch[i]; }
        }
        forall k | k in BatchKeys(init) ensures k in BatchKeys(batch) {
          var i :| 0 <= i < |init| && init[i].0 == k;
          assert batch[i] == init[i];
        }
      }
    }
  }

  /** A key that was already present keeps its row, whatever the batch holds. */
  lemma {:induction false} InsertAllKeepsExisting<V>(m: map<string, V>, batch: seq<(string, V)>, key: string)
    requires key in m
    ensures key in InsertAllIfAbsent(m, batch) && InsertAllIfAbsent(m, batch)[key] == m[key]
    decreases |batch|
  {
    if batch != [] {
      InsertAllKeepsExisting(m, batch[..|batch| - 1], key);
    }
  }

  /** A new key gets the row of its first occurrence in the batch. */
  lemma {:induction false} InsertAllFirstWins<V>(m: map<string, V>, batch: seq<(string, V)>, i: nat)
    requires i < |batch| && batch[i].0 !in m
    requires forall j :: 0 <= j < i ==> batch[j].0 != batch[i].0
    ensures batch[i].0 in InsertAllIfAbsent(m, batch)
    ensures InsertAllIfAbsent(m, batch)[batch[i].0] == batch[i].1
    decreases |batch|
  {
    var init := batch[..|batch| - 1];
    var key := batch[i].0;
    if i == |batch| - 1 {
      InsertAllKeys(m, init);
      assert forall j :: 0 <= j < |init| ==> init[j] == batch[j];
      assert key !in BatchKeys(init);
    } else {
      assert init[i] == batch[i];
      InsertAllFirstWins(m, init, i);
    }
  }

  /** Two batches in turn store the same as their concatenation in one. */
  lemma {:induction false} InsertAllConcat<V>(m: map<string, V>, b1: seq<(string, V)>, b2: seq<(string, V)>)
    ensures InsertAllIfAbsent(InsertAllIfAbsent(m, b1), b2) == InsertAllIfAbsent(m, b1 + b2)
    decreases |b2|
  {
    if b2 == [] {
      assert b1 + b2 == b1;
    } else {
      var b := b1 + b2;
      assert b[..|b| - 1] == b1 + b2[..|b2| - 1];
      assert b[|b| - 1] == b2[|b2| - 1];
      InsertAllConcat(m, b1, b2[..|b2| - 1]);
    }
  }

  /** A batch all of whose keys are present changes nothing. */
  lemma {:induction false} InsertAllPresent<V>(m: map<string, V>, batch: seq<(string, V)>)
    requires BatchKeys(batch) <= m.Keys
    ensures InsertAllIfAbsent(m, batch) == m
    decreases |batch|
  {
    if batch != [] {
      var init := batch[..|batch| - 1];
      assert BatchKeys(init) <= BatchKeys(batch) by {
        forall k | k in BatchKeys(init) ensures k in BatchKeys(batch) {
          var j :| 0 <= j < |init| && init[j].0 == k;
          assert batch[j] == init[j];
        }
      }
      InsertAllPresent(m, init);
      assert batch[|batch| - 1].0 in BatchKeys(batch);
    }
  }

  /** Idempotent discovery: storing the same batch a second time changes nothing. */
  lemma InsertAllIdempotent<V>(m: map<string, V>, batch: seq<(string, V)>)
    ensures InsertAllIfAbsent(InsertAllIfAbsent(m, batch), batch) == InsertAllIfAbsent(m, batch)
  {
    InsertAllKeys(m, batch);
    InsertAllPresent(InsertAllIfAbsent(m, batch), batch);
  }

  /** The rows `store_series` inserts: `(url, link)`. */
  function SeriesEntries(links: seq<SeriesLink>): (es: seq<(string, SeriesLink)>)
    ensures |es| == |links| && forall i :: 0 <= i < |links| ==> es[i] == (links[i].url, links[i])
  {
    seq(|links|, i requires 0 <= i < |links| => (links[i].url, links[i]))
  }

  /** The rows `store_skus` inserts: `(sku, link)`. */
  function SkuEntries(links: seq<SkuLink>): (es: seq<(string, SkuLink)>)
    ensures |es| == |links| && forall i :: 0 <= i < |links| ==> es[i] == (links[i].sku, links[i])
  {
    seq(|links|, i requires 0 <= i < |links| => (links[i].sku, links[i]))
  }

  lemma SeriesEntriesConcat(a: seq<SeriesLink>, b: seq<SeriesLink>)
    ensures SeriesEntries(a + b) == SeriesEntries(a) + SeriesEntries(b)
  {
    assert forall i :: 0 <= i < |b| ==> (a + b)[|a| + i] == b[i];
  }

  lemma SkuEntriesConcat(a: seq<SkuLink>, b: seq<SkuLink>)
    ensures SkuEntries(a + b) == SkuEntries(a) + SkuEntries(b)
  {
    assert forall i :: 0 <= i < |b| ==> (a + b)[|a| + i] == b[i];
  }

  /** Every series row is stored under its own URL. */
  ghost predicate SeriesKeyed(series: map<string, SeriesLink>)
  {
    forall u :: u in series ==> series[u].url == u
  }

  /** Every SKU row is stored under its own SKU. */
  ghost predicate SkusKeyed(skus: map<string, SkuLink>)
  {
    forall k :: k in skus ==> skus[k].sku == k
  }

  lemma {:induction false} SeriesStayKeyed(m: map<string, SeriesLink>, links: seq<SeriesLink>)
    requires SeriesKeyed(m)
    ensures SeriesKeyed(InsertAllIfAbsent(m, SeriesEntries(links)))
    decreases |links|
  {
    if links != [] {
      var init := links[..|links| - 1];
      assert SeriesEntries(links)[..|links| - 1] == SeriesEntries(init);
      SeriesStayKeyed(m, init);
    }
  }

  lemma {:induction false} SkusStayKeyed(m: map<string, SkuLink>, links: seq<SkuLink>)
    requires SkusKeyed(m)
    ensures SkusKeyed(InsertAllIfAbsent(m, SkuEntries(links)))
    decreases |links|
  {
    if links != [] {
      var init := links[..|links| - 1];
      assert SkuEntries(links)[..|links| - 1] == SkuEntries(init);
      SkusStayKeyed(m, init);
    }
  }

  // ---------------------------------------------------------------------------------------
  // load_done_skus / load_failed_skus

  /** `SELECT sku FROM scraped_skus WHERE status = 'ok'`. */
  function DoneSkus(scraped: map<string, Outcome>): set<string>
  {
    set k | k in scraped && scraped[k].status == Ok
  }

  /** `SELECT sku FROM scraped_skus WHERE status = 'error'`. */
  function FailedSkus(scraped: map<string, Outcome>): set<string>
  {
    set k | k in scraped && scraped[k].status == Error
  }

  /** The done and failed sets never overlap, and together they are the outcome table's keys. */
  lemma OutcomeSetsPartition(scraped: map<string, Outcome>)
    ensures DoneSkus(scraped) !! FailedSkus(scraped)
    ensures DoneSkus(scraped) + FailedSkus(scraped) == scraped.Keys
  {
  }

  /** An upsert moves the SKU into the set of its new status and out of the other set, and
      leaves every other SKU where it was. */
  lemma MarkMovesSku(scraped: map<string, Outcome>, sku: string, o: Outcome)
    ensures DoneSkus(scraped[sku := o]) == if o.status == Ok then DoneSkus(scraped) + {sku} else DoneSkus(scraped) - {sku}
    ensures FailedSkus(scraped[sku := o]) == if o.status == Error then FailedSkus(scraped) + {sku} else FailedSkus(scraped) - {sku}
  {
  }

  // ---------------------------------------------------------------------------------------
  // the store

  /** The open state database. */
  class StateStore {
    var series: map<string, SeriesLink>
    var skus: map<string, SkuLink>
    var scraped: map<string, Outcome>

    ghost predicate Valid()
      reads this
    {
      SeriesKeyed(series) && SkusKeyed(skus)
    }

    /** `ensure_db` on a file that does not exist yet: three empty tables. */
    constructor ()
      ensures Valid()
      ensures series == map[] && skus == map[] && scraped == map[]
    {
      series, skus, scraped := map[], map[], map[];
    }

    /** `store_series`. */
    method StoreSeries(batch: seq<SeriesLink>)
      requires Valid()
      modifies this
      ensures Valid()
      ensures series == InsertAllIfAbsent(old(series), SeriesEntries(batch))
      ensures skus == old(skus) && scraped == old(scraped)
    {
      for i := 0 to |batch|
        invariant series == InsertAllIfAbsent(old(series), SeriesEntries(batch[..i]))
        invariant skus == old(skus) && scraped == old(scraped)
      {
        var s := batch[i];
        assert SeriesEntries(batch[..i + 1])[..i] == SeriesEntries(batch[..i]);
        if s.url !in series {
          series := series[s.url := s];
        }
      }
      assert batch[..|batch|] == batch;
      SeriesStayKeyed(old(series), batch);
    }

    /** `store_skus`: a SKU seen under several series keeps its first mapping. */
    method StoreSkus(batch: seq<SkuLink>)
      requires Valid()
      modifies this
      ensures Valid()
      ensures skus == InsertAllIfAbsent(old(skus), SkuEntries(batch))
      ensures series == old(series) && scraped == old(scraped)
    {
      for i := 0 to |batch|
        invariant skus == InsertAllIfAbsent(old(skus), SkuEntries(batch[..i]))
        invariant series == old(series) && scraped == old(scraped)
      {
        var s := batch[i];
        assert SkuEntries(batch[..i + 1])[..i] == SkuEntries(batch[..i]);
        if s.sku !in skus {
          skus := skus[s.sku := s];
        }
      }
      assert batch[..|batch|] == batch;
      SkusStayKeyed(old(skus), batch);
    }

    /** `mark_sku`: the outcome table maps `sku` to exactly this attempt; every other SKU's
        outcome is unchanged. */
    method MarkSku(sku: string, status: Status, error: Option<string>, now: string)
      requires Valid()
      modifies this
      ensures Valid()
      ensures scraped == old(scraped)[sku := Outcome(now, status, error)]
      ensures series == old(series) && skus == old(skus)
    {
      scraped := scraped[sku := Outcome(now, status, error)];
    }
  }
}
