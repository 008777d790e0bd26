/** The scraper's page readers: `discover_processor_categories`,
    `discover_series_for_category`, `extract_skus_from_series_page` and `scrape_spec_rows`.
    The browser is an oracle: a visited page says how each `goto` attempt ends, whether the
    element the reader waits for appears, and which raw records its in-page script returns.
    What is modelled is what the Python code does with those records: the filters, the
    normalisation, and the order of what it keeps. */
module Discovery {
  import opened Options
  import opened PyText
  import opened Retry
  import opened ScrapeState
  import opened Seqs

  /** How a `wait_for_selector` (or, on the category panel, the tile click) ends. */
  datatype Wait = Appeared | TimedOut(error: string)

  /** A listing page as the browser plays it: `goto` outcomes per attempt, the wait for the
      page's content, and the records `eval_on_selector_all` returns. A `TimedOut` wait also
      stands for a failure of that script call, which ends the reader the same way. */
  datatype Listing<T> = Listing(goto: nat -> Attempt, wait: Wait, records: seq<T>)

  /** A `{href, text}` record of a category panel's link list. */
  datatype RawLink = RawLink(href: Option<string>, text: Option<string>)

  /** A `{sku, name, href}` record of a series page's product table. */
  datatype RawSkuRow = RawSkuRow(sku: Option<string>, name: Option<string>, href: Option<string>)

  /** A `{label, value}` record of one specification row. */
  datatype RawPair = RawPair(labelText: Option<string>, value: Option<string>)

  /** One `div.tech-section`: the text of its heading and its rows. */
  datatype RawSection = RawSection(heading: Option<string>, pairs: seq<RawPair>)

  /** A product's detail page: navigation, the wait for the specification panel, the
      `data-title-start` attribute, the page title and the sections in page order. A `TimedOut`
      wait stands for every failure while the page is read, not only the wait itself: the
      title attribute, the section list, a heading's `text_content` (a section without an
      `h3` waits for one until the timeout) and the row records can each raise, and each ends
      the SKU the same way, with the error recorded and no rows written. */
  datatype DetailPage = DetailPage(goto: nat -> Attempt, wait: Wait, titleAttr: Option<string>,
                                   pageTitle: string, sections: seq<RawSection>)

  /** Every reader navigates with `goto_with_retry` and its default of three attempts. */
  const GotoAttempts: int := 3

  const SeriesPattern: string := "/ark/products/series/"
  const SpecPattern: string := "specifications.html"

  /** Python's `x or ""` on an optional string. */
  function OrEmpty(o: Option<string>): string
  {
    if o.Some? then o.value else ""
  }

  /** Python truthiness of an optional string: present and non-empty. */
  predicate Truthy(o: Option<string>)
  {
    o.Some? && o.value != ""
  }

  /** Navigation followed by the page's wait: the first exception raised, if any. */
  function Visit(goto: nat -> Attempt, wait: Wait): Attempt
  {
    match Retried(goto, 1, GotoAttempts)
    case Failed(e) => Failed(e)
    case Succeeded => if wait.TimedOut? then Failed(wait.error) else Succeeded
  }

  method Open(goto: nat -> Attempt, wait: Wait) returns (a: Attempt)
    ensures a == Visit(goto, wait)
  {
    var outcome, _, _ := GotoWithRetry(goto, GotoAttempts);
    if outcome.Failed? {
      return outcome;
    }
    a := if wait.TimedOut? then Failed(wait.error) else Succeeded;
  }

  // ---------------------------------------------------------------------------------------
  // discover_processor_categories

  /** One entry of `[normalize_text(n) for n in category_names if n]`. */
  function CategoryName(n: Option<string>): seq<string>
  {
    if Truthy(n) then [NormalizeText(n.value)] else []
  }

  /** The category names read from the processors panel, in panel order. */
  function CategoryNames(names: seq<Option<string>>): seq<string>
  {
    FlatMap(names, CategoryName)
  }

  /** A category name is kept for every non-empty raw name, normalised, in panel order. */
  lemma CategoryNamesSpec(names: seq<Option<string>>)
    ensures |CategoryNames(names)| <= |names|
    ensures forall c :: c in CategoryNames(names) ==> Normalized(c) && exists i :: 0 <= i < |names| && Truthy(names[i]) && c == NormalizeText(names[i].value)
    ensures forall i :: 0 <= i < |names| && Truthy(names[i]) ==> NormalizeText(names[i].value) in CategoryNames(names)
  {
    FlatMapLength(names, CategoryName, 1);
    forall c | c in CategoryNames(names)
      ensures Normalized(c) && exists i :: 0 <= i < |names| && Truthy(names[i]) && c == NormalizeText(names[i].value)
    {
      FlatMapFrom(names, CategoryName, c);
      var i :| 0 <= i < |names| && c in CategoryName(names[i]);
      NormalizeTextNormalized(names[i].value);
    }
    forall i | 0 <= i < |names| && Truthy(names[i])
      ensures NormalizeText(names[i].value) in CategoryNames(names)
    {
      FlatMapHas(names, CategoryName, i, NormalizeText(names[i].value));
    }
  }

  /** `discover_processor_categories`: raises when the panel page cannot be opened. */
  method DiscoverProcessorCategories(page: Listing<Option<string>>) returns (r: Result<seq<string>>)
    ensures Visit(page.goto, page.wait).Failed? ==> r == Failure(Visit(page.goto, page.wait).error)
    ensures Visit(page.goto, page.wait).Succeeded? ==> r == Success(CategoryNames(page.records))
  {
    var visit := Open(page.goto, page.wait);
    if visit.Failed? {
      return Failure(visit.error);
    }
    var names := page.records;
    var result: seq<string> := [];
    for i := 0 to |names|
      invariant result == CategoryNames(names[..i])
    {
      FlatMapSnoc(names[..i], names[i], CategoryName);
      assert names[..i + 1] == names[..i] + [names[i]];
      if Truthy(names[i]) {
        result := result + [NormalizeText(names[i].value)];
      }
    }
    assert names[..|names|] == names;
    r := Success(result);
  }

  // ---------------------------------------------------------------------------------------
  // discover_series_for_category

  /** A link is kept when it has an `href`, a non-empty normalised text, and points at a
      series page. */
  predicate KeepsSeriesLink(l: RawLink)
  {
    Truthy(l.href) && NormalizeText(OrEmpty(l.text)) != "" && Contains(l.href.value, SeriesPattern)
  }

  /** The series a kept link stands for. */
  function SeriesLinkOf(category: string, l: RawLink, absUrl: string -> string): seq<SeriesLink>
  {
    if KeepsSeriesLink(l) then [SeriesLink(category, NormalizeText(OrEmpty(l.text)), absUrl(l.href.value))] else []
  }

  /** What a kept link yields. */
  lemma SeriesLinkOfSpec(category: string, l: RawLink, absUrl: string -> string)
    ensures forall x :: x in SeriesLinkOf(category, l, absUrl) ==>
              && x.category == category && x.family != "" && Normalized(x.family) && KeepsSeriesLink(l)
              && x.family == NormalizeText(OrEmpty(l.text)) && x.url == absUrl(l.href.value)
  {
    NormalizeTextNormalized(OrEmpty(l.text));
  }

  /** The series links kept from a category's link list, in list order. */
  function SeriesOf(category: string, links: seq<RawLink>, absUrl: string -> string): seq<SeriesLink>
  {
    FlatMap(links, l => SeriesLinkOf(category, l, absUrl))
  }

  /** A kept series link belongs to the category it was read from. */
  lemma SeriesOfBelong(category: string, links: seq<RawLink>, absUrl: string -> string, x: SeriesLink)
    requires x in SeriesOf(category, links, absUrl)
    ensures x.category == category
  {
    FlatMapFrom(links, l => SeriesLinkOf(category, l, absUrl), x);
  }

  /** Every kept series belongs to the category, has a non-empty normalised family name and
      comes from a link that passes the filter; every such link is kept. */
  lemma SeriesOfSpec(category: string, links: seq<RawLink>, absUrl: string -> string)
    ensures |SeriesOf(category, links, absUrl)| <= |links|
    ensures forall x :: x in SeriesOf(category, links, absUrl) ==>
              && x.category == category && x.family != "" && Normalized(x.family)
              && exists i :: 0 <= i < |links| && KeepsSeriesLink(links[i]) && x.family == NormalizeText(OrEmpty(links[i].text))
                                              && x.url == absUrl(links[i].href.value)
    ensures forall i :: 0 <= i < |links| && KeepsSeriesLink(links[i]) ==>
              SeriesLink(category, NormalizeText(OrEmpty(links[i].text)), absUrl(links[i].href.value)) in SeriesOf(category, links, absUrl)
  {
    var f := l => SeriesLinkOf(category, l, absUrl);
    FlatMapLength(links, f, 1);
    forall x | x in SeriesOf(category, links, absUrl)
      ensures && x.category == category && x.family != "" && Normalized(x.family)
              && exists i :: 0 <= i < |links| && KeepsSeriesLink(links[i]) && x.family == NormalizeText(OrEmpty(links[i].text))
                                              && x.url == absUrl(links[i].href.value)
    {
      FlatMapFrom(links, f, x);
      var i :| 0 <= i < |links| && x in f(links[i]);
      SeriesLinkOfSpec(category, links[i], absUrl);
    }
    forall i | 0 <= i < |links| && KeepsSeriesLink(links[i])
      ensures SeriesLink(category, NormalizeText(OrEmpty(links[i].text)), absUrl(links[i].href.value)) in SeriesOf(category, links, absUrl)
    {
      FlatMapHas(links, f, i, SeriesLink(category, NormalizeText(OrEmpty(links[i].text)), absUrl(links[i].href.value)));
    }
  }

  /** Each link is judged by itself and the kept ones stay in order: the result for a list
      is the result for its first part followed by the result for the rest. */
  lemma SeriesOfConcat(category: string, a: seq<RawLink>, b: seq<RawLink>, absUrl: string -> string)
    ensures SeriesOf(category, a + b, absUrl) == SeriesOf(category, a, absUrl) + SeriesOf(category, b, absUrl)
  {
    FlatMapConcat(a, b, l => SeriesLinkOf(category, l, absUrl));
  }

  /** `discover_series_for_category`: after the panel opens, a malformed link is skipped and
      never aborts the walk. */
  method DiscoverSeriesForCategory(page: Listing<RawLink>, categoryName: string, absUrl: string -> string)
    returns (r: Result<seq<SeriesLink>>)
    ensures Visit(page.goto, page.wait).Failed? ==> r == Failure(Visit(page.goto, page.wait).error)
    ensures Visit(page.goto, page.wait).Succeeded? ==> r == Success(SeriesOf(categoryName, page.records, absUrl))
  {
    var visit := Open(page.goto, page.wait);
    if visit.Failed? {
      return Failure(visit.error);
    }
    var links := page.records;
    var series: seq<SeriesLink> := [];
    for i := 0 to |links|
      invariant series == SeriesOf(categoryName, links[..i], absUrl)
    {
      var item := links[i];
      FlatMapSnoc(links[..i], item, l => SeriesLinkOf(categoryName, l, absUrl));
      assert links[..i + 1] == links[..i] + [item];
      var text := NormalizeText(OrEmpty(item.text));
      if !Truthy(item.href) || text == "" {
        continue;
      }
      if !Contains(item.href.value, SeriesPattern) {
        continue;
      }
      series := series + [SeriesLink(categoryName, text, absUrl(item.href.value))];
    }
    assert links[..|links|] == links;
    r := Success(series);
  }

  // ---------------------------------------------------------------------------------------
  // extract_skus_from_series_page

  /** A product row is kept when its stripped `data-product-id` is non-empty and it has a
      link to a specifications page. */
  predicate KeepsSkuRow(row: RawSkuRow)
  {
    Strip(OrEmpty(row.sku)) != "" && Truthy(row.href) && Contains(row.href.value, SpecPattern)
  }

  /** The SKU link a kept row stands for. */
  function SkuLinkOf(category: string, family: string, row: RawSkuRow, absUrl: string -> string): seq<SkuLink>
  {
    if KeepsSkuRow(row)
    then [SkuLink(Strip(OrEmpty(row.sku)), NormalizeText(OrEmpty(row.name)), category, family, absUrl(row.href.value))]
    else []
  }

  /** What a kept row yields. */
  lemma SkuLinkOfSpec(category: string, family: string, row: RawSkuRow, absUrl: string -> string)
    ensures forall x :: x in SkuLinkOf(category, family, row, absUrl) ==>
              && x.category == category && x.family == family
              && x.sku != "" && !IsSpace(x.sku[0]) && !IsSpace(x.sku[|x.sku| - 1])
              && Normalized(x.productName)
              && KeepsSkuRow(row) && x.sku == Strip(OrEmpty(row.sku))
  {
    NormalizeTextNormalized(OrEmpty(row.name));
  }

  /** The SKU links kept from a series page's product table, in table order. */
  function SkusOf(category: string, family: string, rows: seq<RawSkuRow>, absUrl: string -> string): seq<SkuLink>
  {
    FlatMap(rows, row => SkuLinkOf(category, family, row, absUrl))
  }

  /** A kept SKU link belongs to the series it was read from. */
  lemma SkusOfBelong(category: string, family: string, rows: seq<RawSkuRow>, absUrl: string -> string, x: SkuLink)
    requires x in SkusOf(category, family, rows, absUrl)
    ensures x.category == category && x.family == family
  {
    FlatMapFrom(rows, row => SkuLinkOf(category, family, row, absUrl), x);
  }

  /** Every kept SKU link carries the series' category and family, a stripped non-empty SKU
      and a normalised product name, and comes from a row that passes the filter; every such
      row is kept. */
  lemma SkusOfSpec(category: string, family: string, rows: seq<RawSkuRow>, absUrl: string -> string)
    ensures |SkusOf(category, family, rows, absUrl)| <= |rows|
    ensures forall x :: x in SkusOf(category, family, rows, absUrl) ==>
              && x.category == category && x.family == family
              && x.sku != "" && !IsSpace(x.sku[0]) && !IsSpace(x.sku[|x.sku| - 1])
              && Normalized(x.productName)
              && exists i :: 0 <= i < |rows| && KeepsSkuRow(rows[i]) && x.sku == Strip(OrEmpty(rows[i].sku))
    ensures forall i :: 0 <= i < |rows| && KeepsSkuRow(rows[i]) ==>
              SkuLinkOf(category, family, rows[i], absUrl)[0] in SkusOf(category, family, rows, absUrl)
  {
    var f := row => SkuLinkOf(category, family, row, absUrl);
    FlatMapLength(rows, f, 1);
    forall x | x in SkusOf(category, family, rows, absUrl)
      ensures && x.category == category && x.family == family
              && x.sku != "" && !IsSpace(x.sku[0]) && !IsSpace(x.sku[|x.sku| - 1])
              && Normalized(x.productName)
              && exists i :: 0 <= i < |rows| && KeepsSkuRow(rows[i]) && x.sku == Strip(OrEmpty(rows[i].sku))
    {
      FlatMapFrom(rows, f, x);
      var i :| 0 <= i < |rows| && x in f(rows[i]);
      SkuLinkOfSpec(category, family, rows[i], absUrl);
    }
    forall i | 0 <= i < |rows| && KeepsSkuRow(rows[i])
      ensures SkuLinkOf(category, family, rows[i], absUrl)[0] in SkusOf(category, family, rows, absUrl)
    {
      FlatMapHas(rows, f, i, SkuLinkOf(category, family, rows[i], absUrl)[0]);
    }
  }

  lemma SkusOfConcat(category: string, family: string, a: seq<RawSkuRow>, b: seq<RawSkuRow>, absUrl: string -> string)
    ensures SkusOf(category, family, a + b, absUrl) == SkusOf(category, family, a, absUrl) + SkusOf(category, family, b, absUrl)
  {
    FlatMapConcat(a, b, row => SkuLinkOf(category, family, row, absUrl));
  }

  /** `extract_skus_from_series_page`: a row without an id or a specifications link is
      skipped and never aborts the walk. */
  method ExtractSkusFromSeriesPage(page: Listing<RawSkuRow>, category: string, family: string, absUrl: string -> string)
    returns (r: Result<seq<SkuLink>>)
    ensures Visit(page.goto, page.wait).Failed? ==> r == Failure(Visit(page.goto, page.wait).error)
    ensures Visit(page.goto, page.wait).Succeeded? ==> r == Success(SkusOf(category, family, page.records, absUrl))
  {
    var visit := Open(page.goto, page.wait);
    if visit.Failed? {
      return Failure(visit.error);
    }
    var results := CollectSkuLinks(page.records, category, family, absUrl);
    r := Success(results);
  }

  /** The row loop of `extract_skus_from_series_page`. */
  method CollectSkuLinks(items: seq<RawSkuRow>, category: string, family: string, absUrl: string -> string)
    returns (results: seq<SkuLink>)
    ensures results == SkusOf(category, family, items, absUrl)
  {
    results := [];
    for i := 0 to |items|
      invariant results == SkusOf(category, family, items[..i], absUrl)
    {
      var item := items[i];
      SkusOfPrefix(category, family, items, i, absUrl);
      var sku := Strip(OrEmpty(item.sku));
      var name := NormalizeText(OrEmpty(item.name));
      if sku == "" || !Truthy(item.href) {
        assert SkuLinkOf(category, family, item, absUrl) == [];
        continue;
      }
      if !Contains(item.href.value, SpecPattern) {
        assert SkuLinkOf(category, family, item, absUrl) == [];
        continue;
      }
      assert SkuLinkOf(category, family, item, absUrl) == [SkuLink(sku, name, category, family, absUrl(item.href.value))];
      results := results + [SkuLink(sku, name, category, family, absUrl(item.href.value))];
    }
    assert items[..|items|] == items;
  }

  /** One more row of the listing, one more row's yield. */
  lemma SkusOfPrefix(category: string, family: string, items: seq<RawSkuRow>, i: int, absUrl: string -> string)
    requires 0 <= i < |items|
    ensures SkusOf(category, family, items[..i + 1], absUrl)
         == SkusOf(category, family, items[..i], absUrl) + SkuLinkOf(category, family, items[i], absUrl)
  {
    FlatMapPrefix(items, i, row => SkuLinkOf(category, family, row, absUrl));
  }

  // ---------------------------------------------------------------------------------------
  // scrape_spec_rows

  /** The normalised label of a specification row. */
  function RowLabel(p: RawPair): string
  {
    NormalizeText(OrEmpty(p.labelText))
  }

  /** The normalised value of a specification row. */
  function RowValue(p: RawPair): string
  {
    NormalizeText(OrEmpty(p.value))
  }

  /** The fact of one specification row under the group name `group`: none when the
      normalised label or value is empty. */
  function PairFact(group: string, p: RawPair): seq<SpecFact>
  {
    if RowLabel(p) == "" || RowValue(p) == "" then [] else [SpecFact(group, RowLabel(p), RowValue(p))]
  }

  /** The facts of one section's rows, in row order. */
  function PairFacts(group: string, pairs: seq<RawPair>): seq<SpecFact>
  {
    FlatMap(pairs, p => PairFact(group, p))
  }

  /** The normalised heading of a section. */
  function GroupName(s: RawSection): string
  {
    NormalizeText(OrEmpty(s.heading))
  }

  /** The facts of one section: none when its heading normalises to nothing. */
  function SectionFacts(s: RawSection): seq<SpecFact>
  {
    if GroupName(s) == "" then [] else PairFacts(GroupName(s), s.pairs)
  }

  /** The facts of a detail page's sections, section by section in page order. */
  function SpecFactsOf(sections: seq<RawSection>): seq<SpecFact>
  {
    FlatMap(sections, SectionFacts)
  }

  /** Group, name and value of a fact are all normalised and non-empty. */
  ghost predicate FactNormalized(f: SpecFact)
  {
    && f.group != "" && f.name != "" && f.value != ""
    && Normalized(f.group) && Normalized(f.name) && Normalized(f.value)
  }

  /** A row yields a fact exactly when its normalised label and value are both non-empty;
      the fact is the group with that label and value, and it is normalised throughout. */
  lemma PairFactSpec(group: string, p: RawPair)
    requires group != "" && Normalized(group)
    ensures PairFact(group, p) != [] <==> RowLabel(p) != "" && RowValue(p) != ""
    ensures PairFact(group, p) == [] || PairFact(group, p) == [SpecFact(group, RowLabel(p), RowValue(p))]
    ensures forall f :: f in PairFact(group, p) ==> FactNormalized(f) && f.group == group
  {
    NormalizeTextNormalized(OrEmpty(p.labelText));
    NormalizeTextNormalized(OrEmpty(p.value));
  }

  /** Row order is preserved: the facts of two runs of rows are the facts of the first
      followed by those of the second. */
  lemma PairFactsConcat(group: string, a: seq<RawPair>, b: seq<RawPair>)
    ensures PairFacts(group, a + b) == PairFacts(group, a) + PairFacts(group, b)
  {
    FlatMapConcat(a, b, p => PairFact(group, p));
  }

  /** The facts of one section carry its normalised heading and come from its rows. */
  lemma PairFactsSpec(group: string, pairs: seq<RawPair>)
    requires group != "" && Normalized(group)
    ensures forall f :: f in PairFacts(group, pairs) ==> FactNormalized(f) && f.group == group
    ensures forall j :: 0 <= j < |pairs| && PairFact(group, pairs[j]) != [] ==> PairFact(group, pairs[j])[0] in PairFacts(group, pairs)
  {
    var g := p => PairFact(group, p);
    forall f | f in PairFacts(group, pairs)
      ensures FactNormalized(f) && f.group == group
    {
      FlatMapFrom(pairs, g, f);
      var j :| 0 <= j < |pairs| && f in g(pairs[j]);
      PairFactSpec(group, pairs[j]);
    }
    forall j | 0 <= j < |pairs| && PairFact(group, pairs[j]) != []
      ensures PairFact(group, pairs[j])[0] in PairFacts(group, pairs)
    {
      FlatMapHas(pairs, g, j, PairFact(group, pairs[j])[0]);
    }
  }

  /** Every fact read from a detail page is non-empty and normalised in all three parts,
      and it belongs to a section whose heading is its group. */
  lemma SpecFactsSpec(sections: seq<RawSection>)
    ensures forall f :: f in SpecFactsOf(sections) ==>
              FactNormalized(f) && exists i :: 0 <= i < |sections| && f.group == GroupName(sections[i])
  {
    forall f | f in SpecFactsOf(sections)
      ensures FactNormalized(f) && exists i :: 0 <= i < |sections| && f.group == GroupName(sections[i])
    {
      FlatMapFrom(sections, SectionFacts, f);
      var i :| 0 <= i < |sections| && f in SectionFacts(sections[i]);
      NormalizeTextNormalized(OrEmpty(sections[i].heading));
      PairFactsSpec(GroupName(sections[i]), sections[i].pairs);
    }
  }

  /** Every fact read from a detail page comes from one row of one section with a non-empty
      heading: its group is that heading, its name and value the row's label and value. */
  lemma SpecFactsFrom(sections: seq<RawSection>, f: SpecFact)
    requires f in SpecFactsOf(sections)
    ensures exists i, j :: 0 <= i < |sections| && GroupName(sections[i]) != "" && 0 <= j < |sections[i].pairs|
                           && f == SpecFact(GroupName(sections[i]), RowLabel(sections[i].pairs[j]), RowValue(sections[i].pairs[j]))
  {
    FlatMapFrom(sections, SectionFacts, f);
    var i :| 0 <= i < |sections| && f in SectionFacts(sections[i]);
    var g := GroupName(sections[i]);
    FlatMapFrom(sections[i].pairs, p => PairFact(g, p), f);
    var j :| 0 <= j < |sections[i].pairs| && f in PairFact(g, sections[i].pairs[j]);
  }

  /** And every row of a section with a non-empty heading whose label and value are non-empty
      gives its fact on the page. */
  lemma SpecFactsHas(sections: seq<RawSection>, i: int, j: int)
    requires 0 <= i < |sections| && GroupName(sections[i]) != ""
    requires 0 <= j < |sections[i].pairs|
    requires RowLabel(sections[i].pairs[j]) != "" && RowValue(sections[i].pairs[j]) != ""
    ensures SpecFact(GroupName(sections[i]), RowLabel(sections[i].pairs[j]), RowValue(sections[i].pairs[j]))
            in SpecFactsOf(sections)
  {
    var g, p := GroupName(sections[i]), sections[i].pairs[j];
    var f := SpecFact(g, RowLabel(p), RowValue(p));
    assert f in PairFact(g, p);
    FlatMapHas(sections[i].pairs, q => PairFact(g, q), j, f);
    assert f in SectionFacts(sections[i]);
    FlatMapHas(sections, SectionFacts, i, f);
  }

  /** Section order is preserved: the facts of two runs of sections are the facts of the
      first followed by those of the second. */
  lemma SpecFactsConcat(a: seq<RawSection>, b: seq<RawSection>)
    ensures SpecFactsOf(a + b) == SpecFactsOf(a) + SpecFactsOf(b)
  {
    FlatMapConcat(a, b, SectionFacts);
  }

  /** The product name `normalize_text(title or page.title() or "")`. */
  function ProductTitle(page: DetailPage): string
  {
    NormalizeText(if Truthy(page.titleAttr) then page.titleAttr.value else page.pageTitle)
  }

  /** What `scrape_spec_rows` returns or raises for a detail page. */
  function Scraped(page: DetailPage): Result<(string, seq<SpecFact>)>
  {
    match Visit(page.goto, page.wait)
    case Failed(e) => Failure(e)
    case Succeeded => Success((ProductTitle(page), SpecFactsOf(page.sections)))
  }

  /** The inner loop of `scrape_spec_rows`: the rows of one section appended to `rows`. */
  method AppendPairRows(rows0: seq<SpecFact>, groupName: string, pairs: seq<RawPair>) returns (rows: seq<SpecFact>)
    ensures rows == rows0 + PairFacts(groupName, pairs)
  {
    rows := rows0;
    for j := 0 to |pairs|
      invariant rows == rows0 + PairFacts(groupName, pairs[..j])
    {
      var p := pairs[j];
      FlatMapSnoc(pairs[..j], p, q => PairFact(groupName, q));
      assert pairs[..j + 1] == pairs[..j] + [p];
      var labelText := NormalizeText(OrEmpty(p.labelText));
      var value := NormalizeText(OrEmpty(p.value));
      if labelText == "" || value == "" {
        continue;
      }
      rows := rows + [SpecFact(groupName, labelText, value)];
    }
    assert pairs[..|pairs|] == pairs;
  }

  /** `scrape_spec_rows`. */
  method ScrapeSpecRows(page: DetailPage) returns (r: Result<(string, seq<SpecFact>)>)
    ensures r == Scraped(page)
  {
    var visit := Open(page.goto, page.wait);
    if visit.Failed? {
      return Failure(visit.error);
    }
    var productName := NormalizeText(if Truthy(page.titleAttr) then page.titleAttr.value else page.pageTitle);
    var rows := CollectSectionRows(page.sections);
    r := Success((productName, rows));
  }

  /** The section loop of `scrape_spec_rows`: a section without a heading is skipped, the
      rows of every other section are appended in page order. */
  method CollectSectionRows(sections: seq<RawSection>) returns (rows: seq<SpecFact>)
    ensures rows == SpecFactsOf(sections)
  {
    rows := [];
    for i := 0 to |sections|
      invariant rows == SpecFactsOf(sections[..i])
    {
      var section := sections[i];
      FlatMapPrefix(sections, i, SectionFacts);
      var groupName := NormalizeText(OrEmpty(section.heading));
      if groupName == "" {
        assert SectionFacts(section) == [];
        continue;
      }
      assert SectionFacts(section) == PairFacts(groupName, section.pairs);
      rows := AppendPairRows(rows, groupName, section.pairs);
    }
    assert sections[..|sections|] == sections;
  }
}
