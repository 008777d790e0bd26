/** One run of the scraper (`main`): the request filter installed on the page, the
    discovery walk over categories, series and series pages, the work queue derived from
    the state tables, and the per-SKU loop that writes rows and records outcomes. */
module ScrapeRun {
  import opened Options
  import opened Seqs
  import opened Ordering
  import opened Retry
  import opened ScrapeState
  import opened Discovery
  import opened Sink

  // ---------------------------------------------------------------------------------------
  // should_block_request

  /** `should_block_request`: images, media and fonts are aborted, everything else loads. */
  function ShouldBlockRequest(resourceType: string): (blocked: bool)
    ensures blocked <==> resourceType == "image" || resourceType == "media" || resourceType == "font"
  {
    resourceType in {"image", "media", "font"}
  }

  // ---------------------------------------------------------------------------------------
  // the work queue

  /** The rows of `SELECT sku, category, family, spec_url, product_name FROM discovered_skus
      ORDER BY sku`. */
  function SortedRows(skus: map<string, SkuLink>): seq<SkuLink>
  {
    var keys := SortStrings(skus.Keys);
    seq(|keys|, i requires 0 <= i < |keys| => skus[keys[i]])
  }

  /** Whether a SKU is queued, given the done and failed sets loaded when the run starts. */
  predicate Eligible(sku: string, done: set<string>, failed: set<string>, retryErrors: bool)
  {
    if retryErrors then sku !in done else sku !in done && sku !in failed
  }

  /** The queue before the cap: the eligible rows in SKU order. */
  function Uncapped(skus: map<string, SkuLink>, done: set<string>, failed: set<string>, retryErrors: bool): seq<SkuLink>
  {
    Filter(SortedRows(skus), (r: SkuLink) => Eligible(r.sku, done, failed, retryErrors))
  }

  /** `pending[: max_skus]` when `max_skus` is positive, `pending` otherwise. */
  function Cap(p: seq<SkuLink>, maxSkus: int): seq<SkuLink>
  {
    if maxSkus > 0 && maxSkus < |p| then p[..maxSkus] else p
  }

  /** The work queue of a run. */
  function Pending(skus: map<string, SkuLink>, done: set<string>, failed: set<string>, retryErrors: bool,
                   maxSkus: int): seq<SkuLink>
  {
    Cap(Uncapped(skus, done, failed, retryErrors), maxSkus)
  }

  /** `p` is ascending by SKU, so no SKU occurs twice. */
  predicate AscendingSkus(p: seq<SkuLink>)
  {
    forall i, j :: 0 <= i < j < |p| ==> StrLess(p[i].sku, p[j].sku)
  }

  /** The table in SKU order: every row once, each stored under its own SKU. */
  lemma SortedRowsSpec(skus: map<string, SkuLink>)
    requires SkusKeyed(skus)
    ensures forall x :: x in SortedRows(skus) <==> x.sku in skus && skus[x.sku] == x
    ensures AscendingSkus(SortedRows(skus))
  {
    var keys := SortStrings(skus.Keys);
    var rows := SortedRows(skus);
    assert forall i :: 0 <= i < |rows| ==> rows[i].sku == keys[i];
    forall x: SkuLink | x.sku in skus && skus[x.sku] == x
      ensures x in rows
    {
      assert x.sku in keys;
      var i :| 0 <= i < |keys| && keys[i] == x.sku;
      assert rows[i] == x;
    }
  }

  /** The uncapped queue holds exactly the eligible rows of the table, in ascending SKU
      order. */
  lemma UncappedSpec(skus: map<string, SkuLink>, done: set<string>, failed: set<string>, retryErrors: bool)
    requires SkusKeyed(skus)
    ensures forall x :: x in Uncapped(skus, done, failed, retryErrors) <==>
              x.sku in skus && skus[x.sku] == x && Eligible(x.sku, done, failed, retryErrors)
    ensures AscendingSkus(Uncapped(skus, done, failed, retryErrors))
  {
    var keep := (r: SkuLink) => Eligible(r.sku, done, failed, retryErrors);
    SortedRowsSpec(skus);
    FilterMembers(SortedRows(skus), keep);
    FilterKeepsOrder(SortedRows(skus), keep, (a: SkuLink, b: SkuLink) => StrLess(a.sku, b.sku));
  }

  /** The work queue: table rows stored under their SKU, eligible, in ascending SKU order, at
      most `max_skus` of them when that is positive, and a prefix of the uncapped queue; an
      eligible SKU is left out only by the cap, after every queued one. */
  lemma PendingSpec(skus: map<string, SkuLink>, done: set<string>, failed: set<string>, retryErrors: bool,
                    maxSkus: int)
    requires SkusKeyed(skus)
    ensures var p := Pending(skus, done, failed, retryErrors, maxSkus);
            var u := Uncapped(skus, done, failed, retryErrors);
            && (forall i :: 0 <= i < |p| ==>
                  p[i].sku in skus && skus[p[i].sku] == p[i] && Eligible(p[i].sku, done, failed, retryErrors))
            && AscendingSkus(p)
            && p == u[..|p|]
            && |p| == (if maxSkus > 0 && maxSkus < |u| then maxSkus else |u|)
            && (forall k :: k in skus && Eligible(k, done, failed, retryErrors) && skus[k] !in p ==>
                  maxSkus > 0 && |p| == maxSkus && forall i :: 0 <= i < |p| ==> StrLess(p[i].sku, k))
  {
    var p := Pending(skus, done, failed, retryErrors, maxSkus);
    var u := Uncapped(skus, done, failed, retryErrors);
    UncappedSpec(skus, done, failed, retryErrors);
    assert forall i :: 0 <= i < |p| ==> p[i] == u[i] && u[i] in u;
    forall k | k in skus && Eligible(k, done, failed, retryErrors) && skus[k] !in p
      ensures maxSkus > 0 && |p| == maxSkus && forall i :: 0 <= i < |p| ==> StrLess(p[i].sku, k)
    {
      assert skus[k] in u;
      var j :| 0 <= j < |u| && u[j] == skus[k];
      assert j >= |p|;
    }
  }

  /** Resumability: once every discovered SKU is done, nothing is queued, whatever the
      flags. */
  lemma AllDoneNothingPending(skus: map<string, SkuLink>, scraped: map<string, Outcome>, retryErrors: bool,
                              maxSkus: int)
    requires SkusKeyed(skus)
    requires forall k :: k in skus ==> k in DoneSkus(scraped)
    ensures Pending(skus, DoneSkus(scraped), FailedSkus(scraped), retryErrors, maxSkus) == []
  {
    var rows := SortedRows(skus);
    var keep := (r: SkuLink) => Eligible(r.sku, DoneSkus(scraped), FailedSkus(scraped), retryErrors);
    var keys := SortStrings(skus.Keys);
    forall i | 0 <= i < |rows|
      ensures !keep(rows[i])
    {
      assert keys[i] in skus && rows[i] == skus[keys[i]];
    }
    FilterNone(rows, keep);
  }

  /** The keys `{A, B, C}` sort in that order. */
  lemma ThreeKeysSorted()
    ensures SortStrings({"A", "B", "C"}) == ["A", "B", "C"]
  {
    var key: string -> int := _ => 0;
    assert KeyLess(key, "A", "B") && KeyLess(key, "B", "C") && KeyLess(key, "A", "C");
    assert SortedBy(["A", "B", "C"], key);
    SortByIsUnique({"A", "B", "C"}, key, ["A", "B", "C"]);
  }

  /** The table `{A, B, C}` is listed in that order. */
  lemma ThreeRowsSorted(a: SkuLink, b: SkuLink, c: SkuLink)
    requires a.sku == "A" && b.sku == "B" && c.sku == "C"
    ensures SortedRows(map["A" := a, "B" := b, "C" := c]) == [a, b, c]
  {
    var skus := map["A" := a, "B" := b, "C" := c];
    assert skus.Keys == {"A", "B", "C"};
    ThreeKeysSorted();
    var rows := SortedRows(skus);
    assert |rows| == 3;
    assert rows[0] == skus["A"] && rows[1] == skus["B"] && rows[2] == skus["C"];
  }

  /** The example of retry semantics: with `A` done, `B` failed and `C` never tried, the
      queue is `[C]`. */
  lemma FailedNotRetried(a: SkuLink, b: SkuLink, c: SkuLink, t: string, e: string)
    requires a.sku == "A" && b.sku == "B" && c.sku == "C"
    ensures var skus := map["A" := a, "B" := b, "C" := c];
            var scraped := map["A" := Outcome(t, Ok, None), "B" := Outcome(t, Error, Some(e))];
            Pending(skus, DoneSkus(scraped), FailedSkus(scraped), false, 0) == [c]
  {
    var scraped := map["A" := Outcome(t, Ok, None), "B" := Outcome(t, Error, Some(e))];
    assert DoneSkus(scraped) == {"A"} && FailedSkus(scraped) == {"B"};
    assert !Eligible("A", {"A"}, {"B"}, false) && !Eligible("B", {"A"}, {"B"}, false) && Eligible("C", {"A"}, {"B"}, false);
    ThreeRowsSorted(a, b, c);
    FilterOfThree(a, b, c);
    assert [c][..0] == [];
  }

  /** And `[B, C]` when errors are retried. */
  lemma FailedRetried(a: SkuLink, b: SkuLink, c: SkuLink, t: string, e: string)
    requires a.sku == "A" && b.sku == "B" && c.sku == "C"
    ensures var skus := map["A" := a, "B" := b, "C" := c];
            var scraped := map["A" := Outcome(t, Ok, None), "B" := Outcome(t, Error, Some(e))];
            Pending(skus, DoneSkus(scraped), FailedSkus(scraped), true, 0) == [b, c]
  {
    var scraped := map["A" := Outcome(t, Ok, None), "B" := Outcome(t, Error, Some(e))];
    assert DoneSkus(scraped) == {"A"} && FailedSkus(scraped) == {"B"};
    assert !Eligible("A", {"A"}, {"B"}, true) && Eligible("B", {"A"}, {"B"}, true) && Eligible("C", {"A"}, {"B"}, true);
    ThreeRowsSorted(a, b, c);
    FilterOfThree(a, b, c);
    assert [b, c][..1] == [b];
  }

  lemma FilterOfThree<T>(x: T, y: T, z: T)
    ensures forall keep: T -> bool {:trigger Filter([x, y, z], keep)} :: Filter([x, y, z], keep) ==
              (if keep(x) then [x] else []) + (if keep(y) then [y] else []) + (if keep(z) then [z] else [])
  {
    forall keep: T -> bool
      ensures Filter([x, y, z], keep) ==
                (if keep(x) then [x] else []) + (if keep(y) then [y] else []) + (if keep(z) then [z] else [])
    {
      assert [x, y, z][..2] == [x, y] && [x, y][..1] == [x] && [x][..0] == [];
      assert Filter([x], keep) == if keep(x) then [x] else [];
      assert Filter([x, y], keep) == Filter([x], keep) + if keep(y) then [y] else [];
      assert Filter([x, y, z], keep) == Filter([x, y], keep) + if keep(z) then [z] else [];
    }
  }

  // ---------------------------------------------------------------------------------------
  // the per-SKU loop

  /** Cookies are saved after the SKU at each queue position (counted from 1) that is a
      multiple of 25, when that SKU's page was read; positions whose page failed save nothing. */
  const CheckpointEvery: int := 25

  /** What the outside world contributes to the loop: the detail page behind each URL (one
      page per URL, so SKUs sharing a `spec_url` see the same page), how
      the cookie checkpoint after the SKU at position `idx` (from 1) ends, and the clock
      readings for that SKU's rows, its `ok` mark and its `error` mark. */
  datatype World = World(pages: string -> DetailPage, checkpoint: nat -> Attempt,
                         rowsAt: nat -> string, okAt: nat -> string, errorAt: nat -> string)

  /** `product_name or fallback_name`: the detail page's name, else the one found during
      discovery. */
  function RowName(pageName: string, link: SkuLink): string
  {
    if pageName != "" then pageName else link.productName
  }

  /** Whether the detail page of a SKU was read. */
  predicate Read(link: SkuLink, w: World)
  {
    Scraped(w.pages(link.specUrl)).Success?
  }

  /** The outcome left in `scraped_skus` by the SKU at position `idx`: `error` with the
      message when its page fails; otherwise `ok`, unless the cookie checkpoint after it
      raises, in which case the second mark, `error`, replaces the first. */
  function ItemOutcome(idx: nat, link: SkuLink, w: World): Outcome
  {
    match Scraped(w.pages(link.specUrl))
    case Failure(e) => Outcome(w.errorAt(idx), Error, Some(e))
    case Success(_) =>
      if idx % CheckpointEvery == 0 && w.checkpoint(idx).Failed?
      then Outcome(w.errorAt(idx), Error, Some(w.checkpoint(idx).error))
      else Outcome(w.okAt(idx), Ok, None)
  }

  /** The data rows the SKU at position `idx` appends: none when its page fails. */
  function ItemRows(idx: nat, link: SkuLink, w: World): seq<seq<string>>
  {
    match Scraped(w.pages(link.specUrl))
    case Failure(_) => []
    case Success(r) => DataRows(link.sku, RowName(r.0, link), link.specUrl, link.category, link.family, r.1, w.rowsAt(idx))
  }

  /** The outcome table after the loop over `pending`. */
  function Marked(scraped: map<string, Outcome>, pending: seq<SkuLink>, w: World): map<string, Outcome>
    decreases |pending|
  {
    if pending == [] then scraped
    else
      var n := |pending|;
      Marked(scraped, pending[..n - 1], w)[pending[n - 1].sku := ItemOutcome(n, pending[n - 1], w)]
  }

  /** The data rows appended by the loop over `pending`, SKU by SKU. */
  function Logged(pending: seq<SkuLink>, w: World): seq<seq<string>>
    decreases |pending|
  {
    if pending == [] then []
    else
      var n := |pending|;
      Logged(pending[..n - 1], w) + ItemRows(n, pending[n - 1], w)
  }

  /** Whether some page of the queue was read, so that the log file was written to. */
  predicate AnyRead(pending: seq<SkuLink>, w: World)
  {
    exists i :: 0 <= i < |pending| && Read(pending[i], w)
  }

  /** The positions after which cookies were saved. */
  function Checkpoints(pending: seq<SkuLink>, w: World): seq<nat>
    decreases |pending|
  {
    if pending == [] then []
    else
      var n := |pending|;
      Checkpoints(pending[..n - 1], w) + if Read(pending[n - 1], w) && n % CheckpointEvery == 0 then [n] else []
  }

  /** The outcome table and the checkpoints after one more queue position. */
  lemma QueueStep(scraped: map<string, Outcome>, pending: seq<SkuLink>, i: nat, w: World)
    requires i < |pending|
    ensures Marked(scraped, pending[..i + 1], w) == Marked(scraped, pending[..i], w)[pending[i].sku := ItemOutcome(i + 1, pending[i], w)]
    ensures Checkpoints(pending[..i + 1], w)
         == Checkpoints(pending[..i], w) + if Read(pending[i], w) && (i + 1) % CheckpointEvery == 0 then [i + 1] else []
  {
    assert pending[..i + 1][..i] == pending[..i] && pending[..i + 1][i] == pending[i];
  }

  lemma AnyReadStep(pending: seq<SkuLink>, i: nat, w: World)
    requires i < |pending|
    ensures AnyRead(pending[..i + 1], w) == (AnyRead(pending[..i], w) || Read(pending[i], w))
  {
    assert forall j :: 0 <= j < i ==> pending[..i + 1][j] == pending[..i][j];
    assert pending[..i + 1][i] == pending[i];
  }

  lemma {:induction false} LoggedNothing(pending: seq<SkuLink>, w: World)
    requires !AnyRead(pending, w)
    ensures Logged(pending, w) == []
    decreases |pending|
  {
    if pending != [] {
      var n := |pending|;
      assert !Read(pending[n - 1], w);
      assert forall j :: 0 <= j < n - 1 ==> pending[..n - 1][j] == pending[j];
      LoggedNothing(pending[..n - 1], w);
    }
  }

  /** One step of the header-once rule: appending `rows` (from a read page when `read`) to a
      log that holds the header exactly when some earlier page was read leaves the header in
      its one place, before the first data rows. `ScrapeQueue` applies it at every position. */
  lemma HeaderOnce(records0: seq<seq<string>>, present0: bool, anyRead: bool, logged: seq<seq<string>>,
                   read: bool, rows: seq<seq<string>>)
    requires !anyRead ==> logged == []
    ensures (records0 + (if !present0 && anyRead then [Header] else []) + logged)
            + (if !(present0 || anyRead) && read then [Header] else []) + rows
            == records0 + (if !present0 && (anyRead || read) then [Header] else []) + (logged + rows)
  {
  }

  /** The log after one more SKU: the header comes first exactly when the file is created by
      this SKU's rows. */
  lemma LogStep(records0: seq<seq<string>>, present0: bool, pending: seq<SkuLink>, i: nat, w: World)
    requires i < |pending|
    ensures var before := records0 + (if !present0 && AnyRead(pending[..i], w) then [Header] else [])
                          + Logged(pending[..i], w);
            before + (if !(present0 || AnyRead(pending[..i], w)) && Read(pending[i], w) then [Header] else [])
                   + ItemRows(i + 1, pending[i], w)
            == records0 + (if !present0 && AnyRead(pending[..i + 1], w) then [Header] else []) + Logged(pending[..i + 1], w)
  {
    AnyReadStep(pending, i, w);
    assert pending[..i + 1][..i] == pending[..i] && pending[..i + 1][i] == pending[i];
    assert Logged(pending[..i + 1], w) == Logged(pending[..i], w) + ItemRows(i + 1, pending[i], w);
    if !AnyRead(pending[..i], w) {
      LoggedNothing(pending[..i], w);
    }
    HeaderOnce(records0, present0, AnyRead(pending[..i], w), Logged(pending[..i], w), Read(pending[i], w),
               ItemRows(i + 1, pending[i], w));
  }

  /** One pass of the loop body: read the detail page, append its rows and mark the SKU
      `ok`, save cookies when its queue position is a multiple of 25, and mark it `error` when
      anything raises; `saved` says whether cookies were saved. */
  method ScrapeOne(store: StateStore, csv: CsvFile, link: SkuLink, idx: nat, w: World) returns (saved: bool)
    requires store.Valid() && csv.Valid()
    modifies store, csv
    ensures store.Valid() && csv.Valid()
    ensures store.scraped == old(store.scraped)[link.sku := ItemOutcome(idx, link, w)]
    ensures store.series == old(store.series) && store.skus == old(store.skus)
    ensures csv.records == old(csv.records) + (if !old(csv.present) && Read(link, w) then [Header] else [])
                           + ItemRows(idx, link, w)
    ensures csv.present == (old(csv.present) || Read(link, w))
    ensures saved == (Read(link, w) && idx % CheckpointEvery == 0)
  {
    saved := false;
    var result := ScrapeSpecRows(w.pages(link.specUrl));
    if result.Failure? {
      store.MarkSku(link.sku, Error, Some(result.message), w.errorAt(idx));
    } else {
      var productName := RowName(result.value.0, link);
      var _ := csv.WriteCsvRows(link.sku, productName, link.specUrl, link.category, link.family,
                                result.value.1, w.rowsAt(idx));
      store.MarkSku(link.sku, Ok, None, w.okAt(idx));
      if idx % CheckpointEvery == 0 {
        saved := true;
        var attempt := w.checkpoint(idx);
        if attempt.Failed? {
          store.MarkSku(link.sku, Error, Some(attempt.error), w.errorAt(idx));
        }
      }
    }
  }

  /** The loop of `main` over the queue: a SKU whose page is read gets its rows appended and
      is marked `ok`; any failure marks it `error` with the message, and the loop goes on.
      The positions after which cookies were saved are returned. */
  method ScrapeQueue(store: StateStore, csv: CsvFile, pending: seq<SkuLink>, w: World) returns (saves: seq<nat>)
    requires store.Valid() && csv.Valid()
    modifies store, csv
    ensures store.Valid() && csv.Valid()
    ensures store.scraped == Marked(old(store.scraped), pending, w)
    ensures store.series == old(store.series) && store.skus == old(store.skus)
    ensures csv.records == old(csv.records) + (if !old(csv.present) && AnyRead(pending, w) then [Header] else [])
                           + Logged(pending, w)
    ensures csv.present == (old(csv.present) || AnyRead(pending, w))
    ensures saves == Checkpoints(pending, w)
  {
    saves := [];
    for i := 0 to |pending|
      invariant store.Valid() && csv.Valid()
      invariant store.scraped == Marked(old(store.scraped), pending[..i], w)
      invariant store.series == old(store.series) && store.skus == old(store.skus)
      invariant csv.records == old(csv.records) + (if !old(csv.present) && AnyRead(pending[..i], w) then [Header] else [])
                               + Logged(pending[..i], w)
      invariant csv.present == (old(csv.present) || AnyRead(pending[..i], w))
      invariant saves == Checkpoints(pending[..i], w)
    {
      var link := pending[i];
      QueueStep(old(store.scraped), pending, i, w);
      AnyReadStep(pending, i, w);
      LogStep(old(csv.records), old(csv.present), pending, i, w);
      var saved := ScrapeOne(store, csv, link, i + 1, w);
      if saved {
        saves := saves + [i + 1];
      }
    }
    assert pending[..|pending|] == pending;
  }

  // ---------------------------------------------------------------------------------------
  // what a run leaves behind

  /** The SKUs of a queue. */
  function QueueSkus(pending: seq<SkuLink>): set<string>
  {
    set i | 0 <= i < |pending| :: pending[i].sku
  }

  lemma QueueSkusStep(pending: seq<SkuLink>)
    requires pending != []
    ensures QueueSkus(pending) == QueueSkus(pending[..|pending| - 1]) + {pending[|pending| - 1].sku}
  {
    var init := pending[..|pending| - 1];
    assert forall i :: 0 <= i < |init| ==> init[i] == pending[i];
    forall k | k in QueueSkus(pending) ensures k in QueueSkus(init) + {pending[|pending| - 1].sku} {
      var i :| 0 <= i < |pending| && pending[i].sku == k;
      if i < |init| { assert init[i].sku == k; }
    }
  }

  /** After the loop the table holds the old SKUs and the queued ones. */
  lemma {:induction false} MarkedKeys(scraped: map<string, Outcome>, pending: seq<SkuLink>, w: World)
    ensures Marked(scraped, pending, w).Keys == scraped.Keys + QueueSkus(pending)
    decreases |pending|
  {
    if pending != [] {
      MarkedKeys(scraped, pending[..|pending| - 1], w);
      QueueSkusStep(pending);
    }
  }

  /** A SKU the run did not queue keeps its old outcome. */
  lemma {:induction false} MarkedElsewhere(scraped: map<string, Outcome>, pending: seq<SkuLink>, w: World, k: string)
    requires k in scraped && k !in QueueSkus(pending)
    ensures k in Marked(scraped, pending, w) && Marked(scraped, pending, w)[k] == scraped[k]
    decreases |pending|
  {
    if pending != [] {
      QueueSkusStep(pending);
      MarkedElsewhere(scraped, pending[..|pending| - 1], w, k);
    }
  }

  /** In a queue without repeated SKUs, each queued SKU holds the outcome of its own
      position. */
  lemma {:induction false} MarkedAt(scraped: map<string, Outcome>, pending: seq<SkuLink>, w: World, i: int)
    requires AscendingSkus(pending) && 0 <= i < |pending|
    ensures pending[i].sku in Marked(scraped, pending, w)
    ensures Marked(scraped, pending, w)[pending[i].sku] == ItemOutcome(i + 1, pending[i], w)
    decreases |pending|
  {
    var n := |pending|;
    if i < n - 1 {
      var init := pending[..n - 1];
      assert init[i] == pending[i];
      assert AscendingSkus(init) by {
        forall a, b | 0 <= a < b < |init| ensures StrLess(init[a].sku, init[b].sku) {
          assert init[a] == pending[a] && init[b] == pending[b];
        }
      }
      MarkedAt(scraped, init, w, i);
      StrLessIrreflexive(pending[i].sku);
      assert StrLess(pending[i].sku, pending[n - 1].sku);
    }
  }

  /** Without `--retry-errors`, a SKU the run has processed is never queued again: it is
      either done or failed now. */
  lemma ProcessedNotRequeued(scraped: map<string, Outcome>, pending: seq<SkuLink>, w: World, i: int)
    requires AscendingSkus(pending) && 0 <= i < |pending|
    ensures var after := Marked(scraped, pending, w);
            !Eligible(pending[i].sku, DoneSkus(after), FailedSkus(after), false)
            && (pending[i].sku in DoneSkus(after) <==> ItemOutcome(i + 1, pending[i], w).status == Ok)
  {
    var after := Marked(scraped, pending, w);
    MarkedAt(scraped, pending, w, i);
    OutcomeSetsPartition(after);
  }

  /** Two queues ascending by SKU with the same rows are the same queue. */
  lemma {:induction false} AscendingUnique(a: seq<SkuLink>, b: seq<SkuLink>)
    requires AscendingSkus(a) && AscendingSkus(b)
    requires forall x :: x in a <==> x in b
    ensures a == b
    decreases |a|
  {
    if a != [] {
      AscendingSameHead(a, b);
      forall x
        ensures x in a[1..] <==> x in b[1..]
      {
        AscendingTailMember(a, b, x);
        AscendingTailMember(b, a, x);
      }
      AscendingUnique(a[1..], b[1..]);
      assert a == [a[0]] + a[1..] && b == [b[0]] + b[1..];
    } else {
      HeadIsMember(b);
    }
  }

  /** Both start with the row of the least SKU. */
  lemma AscendingSameHead(a: seq<SkuLink>, b: seq<SkuLink>)
    requires AscendingSkus(a) && AscendingSkus(b)
    requires forall x :: x in a <==> x in b
    requires a != []
    ensures b != [] && a[0] == b[0]
  {
    assert a[0] in b;
    assert b[0] in a;
    if a[0] != b[0] {
      var i :| 0 <= i < |b| && b[i] == a[0];
      var j :| 0 <= j < |a| && a[j] == b[0];
      assert StrLess(b[0].sku, a[0].sku) && StrLess(a[0].sku, b[0].sku);
      StrLessAsymmetric(a[0].sku, b[0].sku);
    }
  }

  /** A row after the head of one queue is after the head of the other. */
  lemma AscendingTailMember(a: seq<SkuLink>, b: seq<SkuLink>, x: SkuLink)
    requires AscendingSkus(a) && AscendingSkus(b)
    requires forall y :: y in a <==> y in b
    requires a != [] && b != [] && a[0] == b[0]
    ensures x in a[1..] ==> x in b[1..]
  {
    if x in a[1..] {
      var i :| 1 <= i < |a| && a[i] == x;
      StrLessIrreflexive(x.sku);
      assert x in a && x in b;
      var j :| 0 <= j < |b| && b[j] == x;
      assert b[1..][j - 1] == x;
    }
  }

  /** A SKU the run did not queue is done or failed afterwards exactly when it was before. */
  lemma UnqueuedKeepsStatus(scraped: map<string, Outcome>, pending: seq<SkuLink>, w: World, k: string)
    requires k !in QueueSkus(pending)
    ensures var after := Marked(scraped, pending, w);
            (k in DoneSkus(after) <==> k in DoneSkus(scraped)) && (k in FailedSkus(after) <==> k in FailedSkus(scraped))
  {
    MarkedKeys(scraped, pending, w);
    if k in scraped {
      MarkedElsewhere(scraped, pending, w, k);
    }
  }

  /** Without `--retry-errors`, a SKU is eligible after the run exactly when it was eligible
      before and the run did not queue it. */
  lemma EligibleAfter(scraped: map<string, Outcome>, pending: seq<SkuLink>, w: World, k: string)
    requires AscendingSkus(pending)
    ensures var after := Marked(scraped, pending, w);
            (Eligible(k, DoneSkus(after), FailedSkus(after), false)
             <==> Eligible(k, DoneSkus(scraped), FailedSkus(scraped), false) && k !in QueueSkus(pending))
  {
    if k in QueueSkus(pending) {
      var i :| 0 <= i < |pending| && pending[i].sku == k;
      ProcessedNotRequeued(scraped, pending, w, i);
    } else {
      UnqueuedKeepsStatus(scraped, pending, w, k);
    }
  }

  /** A row within the first `n` of an ascending queue has a SKU no later row has. */
  lemma QueuedRowIsUnique(u: seq<SkuLink>, n: int, i: int, j: int)
    requires AscendingSkus(u) && 0 <= i < n <= j < |u|
    ensures u[i].sku != u[j].sku
  {
    StrLessIrreflexive(u[i].sku);
  }

  /** An ascending queue whose rows are those of `u` whose SKU is not among the first `n` is
      `u` without its first `n` rows. */
  lemma DropFront(u: seq<SkuLink>, n: int, next: seq<SkuLink>)
    requires AscendingSkus(u) && AscendingSkus(next) && 0 <= n <= |u|
    requires forall x :: x in next <==> x in u && x.sku !in QueueSkus(u[..n])
    ensures next == u[n..]
  {
    var rest := u[n..];
    assert AscendingSkus(rest) by {
      forall i, j | 0 <= i < j < |rest| ensures StrLess(rest[i].sku, rest[j].sku) {
        assert rest[i] == u[n + i] && rest[j] == u[n + j];
      }
    }
    forall x
      ensures x in next <==> x in rest
    {
      if x in rest {
        var j :| 0 <= j < |rest| && rest[j] == x;
        assert u[n + j] == x;
        forall i | 0 <= i < n ensures u[..n][i].sku != x.sku {
          assert u[..n][i] == u[i];
          QueuedRowIsUnique(u, n, i, n + j);
        }
      }
      if x in next {
        var j :| 0 <= j < |u| && u[j] == x;
        forall i | 0 <= i < n ensures u[i] != x {
          assert u[..n][i].sku in QueueSkus(u[..n]);
        }
        assert rest[j - n] == x;
      }
    }
    AscendingUnique(next, rest);
  }

  /** Resumability: without `--retry-errors`, the next run's uncapped queue is this run's
      uncapped queue with the processed SKUs taken off the front, so a capped run continues
      exactly where it stopped. */
  lemma NextRunResumes(skus: map<string, SkuLink>, scraped: map<string, Outcome>, maxSkus: int, w: World)
    requires SkusKeyed(skus)
    ensures var pending := Pending(skus, DoneSkus(scraped), FailedSkus(scraped), false, maxSkus);
            var after := Marked(scraped, pending, w);
            Uncapped(skus, DoneSkus(after), FailedSkus(after), false)
              == Uncapped(skus, DoneSkus(scraped), FailedSkus(scraped), false)[|pending|..]
  {
    var done, failed := DoneSkus(scraped), FailedSkus(scraped);
    var pending := Pending(skus, done, failed, false, maxSkus);
    var after := Marked(scraped, pending, w);
    var u := Uncapped(skus, done, failed, false);
    var next := Uncapped(skus, DoneSkus(after), FailedSkus(after), false);
    PendingSpec(skus, done, failed, false, maxSkus);
    UncappedSpec(skus, done, failed, false);
    UncappedSpec(skus, DoneSkus(after), FailedSkus(after), false);
    assert pending == u[..|pending|];
    forall x
      ensures x in next <==> x in u && x.sku !in QueueSkus(pending)
    {
      EligibleAfter(scraped, pending, w, x.sku);
    }
    DropFront(u, |pending|, next);
  }

  // ---------------------------------------------------------------------------------------
  // the outcome of one queued SKU

  /** A queued SKU ends `ok` exactly when its page was read and the cookie checkpoint after it,
      if any, did not raise. So an `error` SKU may already have rows in the log: the checkpoint
      at every 25th position raises after the rows were appended. */
  lemma ItemOutcomeSpec(idx: nat, link: SkuLink, w: World)
    ensures ItemOutcome(idx, link, w).status == Ok
            <==> Read(link, w) && !(idx % CheckpointEvery == 0 && w.checkpoint(idx).Failed?)
    ensures ItemOutcome(idx, link, w).status == Ok <==> ItemOutcome(idx, link, w).lastError.None?
    ensures !Read(link, w) ==> ItemRows(idx, link, w) == []
    ensures Read(link, w) ==> |ItemRows(idx, link, w)| == |Scraped(w.pages(link.specUrl)).value.1|
  {
  }

  /** The rows of an earlier queue position come before those of a later one. */
  lemma {:induction false} LoggedPrefix(pending: seq<SkuLink>, w: World, i: int)
    requires 0 <= i <= |pending|
    ensures Logged(pending[..i], w) <= Logged(pending, w)
    decreases |pending| - i
  {
    if i < |pending| {
      LoggedPrefix(pending, w, i + 1);
      assert pending[..i + 1][..i] == pending[..i];
    } else {
      assert pending[..i] == pending;
    }
  }

  /** Every SKU the run marks `ok` has its rows in the log, right after those of the SKUs
      queued before it. */
  lemma OkSkuIsLogged(scraped: map<string, Outcome>, pending: seq<SkuLink>, w: World, i: int)
    requires AscendingSkus(pending) && 0 <= i < |pending|
    requires pending[i].sku in Marked(scraped, pending, w) && Marked(scraped, pending, w)[pending[i].sku].status == Ok
    ensures Read(pending[i], w)
    ensures Logged(pending[..i], w) + ItemRows(i + 1, pending[i], w) <= Logged(pending, w)
  {
    MarkedAt(scraped, pending, w, i);
    ItemOutcomeSpec(i + 1, pending[i], w);
    LoggedPrefix(pending, w, i + 1);
    LoggedStep(pending, w, i);
  }

  /** The log after one more queue position. */
  lemma LoggedStep(pending: seq<SkuLink>, w: World, i: int)
    requires 0 <= i < |pending|
    ensures Logged(pending[..i + 1], w) == Logged(pending[..i], w) + ItemRows(i + 1, pending[i], w)
  {
    assert pending[..i + 1][..i] == pending[..i] && pending[..i + 1][i] == pending[i];
  }

  // ---------------------------------------------------------------------------------------
  // the discovery walk

  /** What a walk over pages collected before it stopped, and the error it stopped on. */
  datatype Walk<R> = Walk(found: seq<R>, error: Option<string>)

  /** A `for` loop that visits one page per item and extends a list with what each page
      gather; the first visit that raises ends the loop, and the exception propagates out of
      `main`. */
  function WalkPages<T, R>(items: seq<T>, visit: T -> Attempt, gather: T -> seq<R>): Walk<R>
    decreases |items|
  {
    if items == [] then Walk([], None)
    else
      var prev := WalkPages(items[..|items| - 1], visit, gather);
      var last := items[|items| - 1];
      if prev.error.Some? then prev
      else match visit(last)
        case Failed(e) => Walk(prev.found, Some(e))
        case Succeeded => Walk(prev.found + gather(last), None)
  }

  /** The walk finishes when every visit succeeds and has then collected every item's yield;
      otherwise it stops at the first failing item with that item's error, having collected
      the gather of the items before it. */
  lemma WalkPagesSpec<T, R>(items: seq<T>, visit: T -> Attempt, gather: T -> seq<R>)
    ensures var r := WalkPages(items, visit, gather);
            && (r.error.None? <==> forall i :: 0 <= i < |items| ==> visit(items[i]).Succeeded?)
            && (r.error.None? ==> r.found == FlatMap(items, gather))
            && (r.error.Some? ==>
                  exists f :: (0 <= f < |items|
                               && (forall i :: 0 <= i < f ==> visit(items[i]).Succeeded?)
                               && visit(items[f]).Failed? && r.error == Some(visit(items[f]).error)
                               && r.found == FlatMap(items[..f], gather)))
  {
    WalkPagesDone(items, visit, gather);
    WalkPagesStopped(items, visit, gather);
  }

  lemma {:induction false} WalkPagesDone<T, R>(items: seq<T>, visit: T -> Attempt, gather: T -> seq<R>)
    ensures var r := WalkPages(items, visit, gather);
            && (r.error.None? <==> forall i :: 0 <= i < |items| ==> visit(items[i]).Succeeded?)
            && (r.error.None? ==> r.found == FlatMap(items, gather))
    decreases |items|
  {
    if items != [] {
      var n := |items|;
      var init, last := items[..n - 1], items[n - 1];
      assert items == init + [last];
      WalkPagesDone(init, visit, gather);
      var prev := WalkPages(init, visit, gather);
      if prev.error.Some? {
        var f :| 0 <= f < n - 1 && visit(init[f]).Failed?;
        assert visit(items[f]).Failed?;
      } else if visit(last).Failed? {
        assert visit(items[n - 1]).Failed?;
      } else {
        assert forall i :: 0 <= i < n ==> visit(items[i]).Succeeded? by {
          assert forall i :: 0 <= i < n - 1 ==> init[i] == items[i] && visit(init[i]).Succeeded?;
        }
        FlatMapSnoc(init, last, gather);
      }
    }
  }

  lemma {:induction false} WalkPagesStopped<T, R>(items: seq<T>, visit: T -> Attempt, gather: T -> seq<R>)
    ensures var r := WalkPages(items, visit, gather);
            r.error.Some? ==>
              exists f :: (0 <= f < |items|
                           && (forall i :: 0 <= i < f ==> visit(items[i]).Succeeded?)
                           && visit(items[f]).Failed? && r.error == Some(visit(items[f]).error)
                           && r.found == FlatMap(items[..f], gather))
    decreases |items|
  {
    if items != [] {
      var n := |items|;
      var init, last := items[..n - 1], items[n - 1];
      WalkPagesStopped(init, visit, gather);
      var prev := WalkPages(init, visit, gather);
      if prev.error.Some? {
        var f :| 0 <= f < |init| && (forall i :: 0 <= i < f ==> visit(init[i]).Succeeded?)
                 && visit(init[f]).Failed? && prev.error == Some(visit(init[f]).error)
                 && prev.found == FlatMap(init[..f], gather);
        assert init[..f] == items[..f] && init[f] == items[f];
        assert forall i :: 0 <= i < f ==> init[i] == items[i];
      } else if visit(last).Failed? {
        WalkPagesDone(init, visit, gather);
        assert forall i :: 0 <= i < n - 1 ==> init[i] == items[i];
      }
    }
  }

  /** Once the walk has stopped, later items change nothing. */
  lemma {:induction false} WalkPagesStops<T, R>(items: seq<T>, k: int, visit: T -> Attempt, gather: T -> seq<R>)
    requires 0 <= k <= |items| && WalkPages(items[..k], visit, gather).error.Some?
    ensures WalkPages(items, visit, gather) == WalkPages(items[..k], visit, gather)
    decreases |items| - k
  {
    if k < |items| {
      assert items[..k + 1][..k] == items[..k];
      WalkPagesStops(items, k + 1, visit, gather);
    } else {
      assert items[..k] == items;
    }
  }

  /** The site as the walk sees it: the processors panel, the series links shown after
      clicking each category, the listing behind each series URL, and `to_abs_url`. */
  datatype Site = Site(panel: Listing<Option<string>>, categoryPages: string -> Listing<RawLink>,
                       seriesPages: string -> Listing<RawSkuRow>, absUrl: string -> string)

  function CategoryVisit(site: Site): string -> Attempt
  {
    c => Visit(site.categoryPages(c).goto, site.categoryPages(c).wait)
  }

  function CategorySeries(site: Site): string -> seq<SeriesLink>
  {
    c => SeriesOf(c, site.categoryPages(c).records, site.absUrl)
  }

  function SeriesVisit(site: Site): SeriesLink -> Attempt
  {
    (s: SeriesLink) => Visit(site.seriesPages(s.url).goto, site.seriesPages(s.url).wait)
  }

  function SeriesSkus(site: Site): SeriesLink -> seq<SkuLink>
  {
    (s: SeriesLink) => SkusOf(s.category, s.family, site.seriesPages(s.url).records, site.absUrl)
  }

  /** The series and SKUs the discovery phase stores, and the error that ends it early. */
  datatype Discovered = Discovered(series: seq<SeriesLink>, skus: seq<SkuLink>, error: Option<string>)

  function DiscoveryOf(site: Site): Discovered
  {
    match Visit(site.panel.goto, site.panel.wait)
    case Failed(e) => Discovered([], [], Some(e))
    case Succeeded =>
      var series := WalkPages(CategoryNames(site.panel.records), CategoryVisit(site), CategorySeries(site));
      if series.error.Some? then Discovered(series.found, [], series.error)
      else
        var skus := WalkPages(series.found, SeriesVisit(site), SeriesSkus(site));
        Discovered(series.found, skus.found, skus.error)
  }

  /** Everything a walk collected comes from one of its items. */
  lemma WalkFoundFrom<T, R>(items: seq<T>, visit: T -> Attempt, gather: T -> seq<R>, y: R)
    requires y in WalkPages(items, visit, gather).found
    ensures exists i :: 0 <= i < |items| && y in gather(items[i])
  {
    WalkPagesSpec(items, visit, gather);
    var r := WalkPages(items, visit, gather);
    if r.error.None? {
      FlatMapFrom(items, gather, y);
    } else {
      var f :| 0 <= f < |items| && r.found == FlatMap(items[..f], gather);
      FlatMapFrom(items[..f], gather, y);
      var i :| 0 <= i < f && y in gather(items[..f][i]);
      assert items[..f][i] == items[i];
    }
  }

  /** The discovery phase completes exactly when the panel, every category and every series
      page can be read, and then it has found the series of every category and the SKUs of
      every series, in page order. */
  lemma DiscoverySpec(site: Site)
    ensures var d := DiscoveryOf(site);
            var cats := CategoryNames(site.panel.records);
            && (Visit(site.panel.goto, site.panel.wait).Failed? ==>
                  d == Discovered([], [], Some(Visit(site.panel.goto, site.panel.wait).error)))
            && (d.error.None? <==> Visit(site.panel.goto, site.panel.wait).Succeeded?
                                   && (forall i :: 0 <= i < |cats| ==> CategoryVisit(site)(cats[i]).Succeeded?)
                                   && (forall j :: 0 <= j < |d.series| ==> SeriesVisit(site)(d.series[j]).Succeeded?))
            && (d.error.None? ==> d.series == FlatMap(cats, CategorySeries(site))
                                  && d.skus == FlatMap(d.series, SeriesSkus(site)))
  {
    var cats := CategoryNames(site.panel.records);
    WalkPagesSpec(cats, CategoryVisit(site), CategorySeries(site));
    var series := WalkPages(cats, CategoryVisit(site), CategorySeries(site));
    WalkPagesSpec(series.found, SeriesVisit(site), SeriesSkus(site));
  }

  lemma SeriesHasCategory(site: Site, s: SeriesLink)
    requires s in DiscoveryOf(site).series
    ensures s.category in CategoryNames(site.panel.records)
  {
    var cats := CategoryNames(site.panel.records);
    WalkFoundFrom(cats, CategoryVisit(site), CategorySeries(site), s);
    var i :| 0 <= i < |cats| && s in CategorySeries(site)(cats[i]);
    SeriesOfBelong(cats[i], site.categoryPages(cats[i]).records, site.absUrl, s);
  }

  lemma SkuHasSeries(site: Site, x: SkuLink)
    requires x in DiscoveryOf(site).skus
    ensures exists s :: s in DiscoveryOf(site).series && x.category == s.category && x.family == s.family
  {
    var series := DiscoveryOf(site).series;
    WalkFoundFrom(series, SeriesVisit(site), SeriesSkus(site), x);
    var j :| 0 <= j < |series| && x in SeriesSkus(site)(series[j]);
    var s := series[j];
    SkusOfBelong(s.category, s.family, site.seriesPages(s.url).records, site.absUrl, x);
  }

  /** What discovery stores hangs together: every series belongs to a category of the panel,
      and every SKU to the category and family of a discovered series. */
  lemma DiscoveryTraces(site: Site)
    ensures var d := DiscoveryOf(site);
            && (forall s :: s in d.series ==> s.category in CategoryNames(site.panel.records))
            && (forall x :: x in d.skus ==> exists s :: s in d.series && x.category == s.category && x.family == s.family)
  {
    forall s | s in DiscoveryOf(site).series
      ensures s.category in CategoryNames(site.panel.records)
    {
      SeriesHasCategory(site, s);
    }
    forall x | x in DiscoveryOf(site).skus
      ensures exists s :: s in DiscoveryOf(site).series && x.category == s.category && x.family == s.family
    {
      SkuHasSeries(site, x);
    }
  }

  /** Discovery is idempotent: storing what a walk found a second time changes neither table. */
  lemma DiscoveryIdempotent(series: map<string, SeriesLink>, skus: map<string, SkuLink>, site: Site)
    ensures var d := DiscoveryOf(site);
            var series1 := InsertAllIfAbsent(series, SeriesEntries(d.series));
            var skus1 := InsertAllIfAbsent(skus, SkuEntries(d.skus));
            InsertAllIfAbsent(series1, SeriesEntries(d.series)) == series1
            && InsertAllIfAbsent(skus1, SkuEntries(d.skus)) == skus1
  {
    var d := DiscoveryOf(site);
    InsertAllIdempotent(series, SeriesEntries(d.series));
    InsertAllIdempotent(skus, SkuEntries(d.skus));
  }

  /** The category loop of the discovery phase: the series of each category, stored after
      each category; the first category page that fails ends the loop. */
  method StoreSeriesWalk(store: StateStore, site: Site, cats: seq<string>) returns (r: Walk<SeriesLink>)
    requires store.Valid()
    modifies store
    ensures store.Valid()
    ensures r == WalkPages(cats, CategoryVisit(site), CategorySeries(site))
    ensures store.series == InsertAllIfAbsent(old(store.series), SeriesEntries(r.found))
    ensures store.skus == old(store.skus) && store.scraped == old(store.scraped)
  {
    var allSeries: seq<SeriesLink> := [];
    for i := 0 to |cats|
      invariant WalkPages(cats[..i], CategoryVisit(site), CategorySeries(site)) == Walk(allSeries, None)
      invariant store.Valid() && store.series == InsertAllIfAbsent(old(store.series), SeriesEntries(allSeries))
      invariant store.skus == old(store.skus) && store.scraped == old(store.scraped)
    {
      var c := cats[i];
      assert cats[..i + 1][..i] == cats[..i] && cats[..i + 1][i] == c;
      var found := DiscoverSeriesForCategory(site.categoryPages(c), c, site.absUrl);
      if found.Failure? {
        WalkPagesStops(cats, i + 1, CategoryVisit(site), CategorySeries(site));
        return Walk(allSeries, Some(found.message));
      }
      InsertAllConcat(old(store.series), SeriesEntries(allSeries), SeriesEntries(found.value));
      SeriesEntriesConcat(allSeries, found.value);
      store.StoreSeries(found.value);
      allSeries := allSeries + found.value;
    }
    assert cats[..|cats|] == cats;
    return Walk(allSeries, None);
  }

  /** The series loop of the discovery phase: the SKUs of each series, stored after each
      series; the first series page that fails ends the loop. */
  method StoreSkusWalk(store: StateStore, site: Site, allSeries: seq<SeriesLink>) returns (r: Walk<SkuLink>)
    requires store.Valid()
    modifies store
    ensures store.Valid()
    ensures r == WalkPages(allSeries, SeriesVisit(site), SeriesSkus(site))
    ensures store.skus == InsertAllIfAbsent(old(store.skus), SkuEntries(r.found))
    ensures store.series == old(store.series) && store.scraped == old(store.scraped)
  {
    var allSkus: seq<SkuLink> := [];
    for i := 0 to |allSeries|
      invariant WalkPages(allSeries[..i], SeriesVisit(site), SeriesSkus(site)) == Walk(allSkus, None)
      invariant store.Valid() && store.skus == InsertAllIfAbsent(old(store.skus), SkuEntries(allSkus))
      invariant store.series == old(store.series) && store.scraped == old(store.scraped)
    {
      var s := allSeries[i];
      assert allSeries[..i + 1][..i] == allSeries[..i] && allSeries[..i + 1][i] == s;
      var found := ExtractSkusFromSeriesPage(site.seriesPages(s.url), s.category, s.family, site.absUrl);
      if found.Failure? {
        WalkPagesStops(allSeries, i + 1, SeriesVisit(site), SeriesSkus(site));
        return Walk(allSkus, Some(found.message));
      }
      InsertAllConcat(old(store.skus), SkuEntries(allSkus), SkuEntries(found.value));
      SkuEntriesConcat(allSkus, found.value);
      store.StoreSkus(found.value);
      allSkus := allSkus + found.value;
    }
    assert allSeries[..|allSeries|] == allSeries;
    return Walk(allSkus, None);
  }

  /** The discovery phase of `main`: the categories of the processors panel, the series of
      each category (stored after each category), then the SKUs of each series (stored after
      each series). The first page that fails ends the phase with its error, keeping what was
      stored before it. */
  method DiscoverAll(store: StateStore, site: Site) returns (error: Option<string>)
    requires store.Valid()
    modifies store
    ensures store.Valid()
    ensures error == DiscoveryOf(site).error
    ensures store.series == InsertAllIfAbsent(old(store.series), SeriesEntries(DiscoveryOf(site).series))
    ensures store.skus == InsertAllIfAbsent(old(store.skus), SkuEntries(DiscoveryOf(site).skus))
    ensures store.scraped == old(store.scraped)
  {
    var categories := DiscoverProcessorCategories(site.panel);
    if categories.Failure? {
      return Some(categories.message);
    }
    var series := StoreSeriesWalk(store, site, categories.value);
    if series.error.Some? {
      return series.error;
    }
    var skus := StoreSkusWalk(store, site, series.found);
    return skus.error;
  }

  // ---------------------------------------------------------------------------------------
  // main

  /** The skus table after the discovery phase, when it ran to the end or was skipped. */
  function SkusAfterDiscovery(skus: map<string, SkuLink>, site: Site, skipDiscovery: bool): map<string, SkuLink>
  {
    if skipDiscovery then skus else InsertAllIfAbsent(skus, SkuEntries(DiscoveryOf(site).skus))
  }

  /** One run of `main` after the database is open: the done and failed sets are read first,
      then discovery runs unless skipped (a page that fails ends the run with its error), then
      the queue of the SKU table is scraped. The final cookie save is not modelled. */
  method RunScraper(store: StateStore, csv: CsvFile, site: Site, w: World, skipDiscovery: bool, retryErrors: bool,
                    maxSkus: int) returns (error: Option<string>, saves: seq<nat>)
    requires store.Valid() && csv.Valid()
    modifies store, csv
    ensures store.Valid() && csv.Valid()
    ensures error == if skipDiscovery then None else DiscoveryOf(site).error
    ensures error.None? ==> store.skus == SkusAfterDiscovery(old(store.skus), site, skipDiscovery)
    ensures error.None? ==>
              var pending := Pending(store.skus, DoneSkus(old(store.scraped)), FailedSkus(old(store.scraped)),
                                     retryErrors, maxSkus);
              && store.scraped == Marked(old(store.scraped), pending, w)
              && csv.records == old(csv.records) + (if !old(csv.present) && AnyRead(pending, w) then [Header] else [])
                                + Logged(pending, w)
              && saves == Checkpoints(pending, w)
    ensures error.Some? ==>
              store.scraped == old(store.scraped) && csv.records == old(csv.records) && csv.present == old(csv.present)
              && saves == []
    ensures error.None? ==>
              var pending := Pending(store.skus, DoneSkus(old(store.scraped)), FailedSkus(old(store.scraped)),
                                     retryErrors, maxSkus);
              csv.present == (old(csv.present) || AnyRead(pending, w))
    ensures skipDiscovery ==> store.series == old(store.series) && store.skus == old(store.skus)
    ensures !skipDiscovery ==>
              && store.series == InsertAllIfAbsent(old(store.series), SeriesEntries(DiscoveryOf(site).series))
              && store.skus == InsertAllIfAbsent(old(store.skus), SkuEntries(DiscoveryOf(site).skus))
  {
    var done, failed := DoneSkus(store.scraped), FailedSkus(store.scraped);
    saves := [];
    error := None;
    if !skipDiscovery {
      error := DiscoverAll(store, site);
      if error.Some? {
        return;
      }
    }
    var pending := Pending(store.skus, done, failed, retryErrors, maxSkus);
    saves := ScrapeQueue(store, csv, pending, w);
  }
}
