/**
 * The page loop of `scrape_amazon`: listing pages 1..MaxPages are fetched in
 * order, each page's tiles are mapped through `extract_product_info` in tile
 * order, the truthy results are kept, and the loop stops at the first page
 * whose fetch fails. An exception raised for any tile escapes the loop and
 * ends the whole run.
 *
 * The loop is stated for any per-tile extractor; `ScrapeAmazon` runs it with
 * `extract_product_info` fetching its detail pages from the same web.
 */
module Scrape {
  import opened Wrappers
  import opened PyText
  import opened Product

  const MaxPages: nat := 5
  const BaseUrl := "https://www.amazon.in/s?rh=n%3A6612025031&fs=true&ref=lp_6612025031_sar"

  const PageParam := "&page="

  /** `f"{BASE_URL}&page={page}"`. */
  function PageUrl(page: nat): (u: string)
    ensures |u| > |BaseUrl + PageParam|
    ensures u[..|BaseUrl + PageParam|] == BaseUrl + PageParam
  {
    BaseUrl + PageParam + NatToString(page)
  }

  /** The value of the page parameter is a run of decimal digits that reads
      back as the page number. */
  lemma PageUrlParameter(page: nat)
    ensures var u := PageUrl(page);
            forall i :: |BaseUrl + PageParam| <= i < |u| ==> '0' <= u[i] <= '9'
    ensures DecimalValue(PageUrl(page)[|BaseUrl + PageParam|..]) == page
  {
    NatToStringRoundTrip(page);
    assert PageUrl(page)[|BaseUrl + PageParam|..] == NatToString(page);
  }

  /** Different page numbers name different listing URLs. */
  lemma PageUrlInjective(p: nat, q: nat)
    requires PageUrl(p) == PageUrl(q)
    ensures p == q
  {
    var prefix := BaseUrl + PageParam;
    PageUrlParameter(p);
    PageUrlParameter(q);
    assert PageUrl(p)[|prefix|..] == PageUrl(q)[|prefix|..];
  }

  /** What the page loop maps over each tile. */
  type Extractor = Tile -> Extracted

  /** `extract_product_info`, its detail pages fetched from `web`. */
  function ExtractWith(web: Web): Extractor {
    item => ExtractProductInfo(item, web)
  }

  /** Every result of `extract_product_info` is None, an exception, `{}` or a
      full four-column record. */
  lemma ExtractWithWellShaped(web: Web)
    ensures forall item :: WellShaped(ExtractWith(web)(item))
  {
    forall item
      ensures WellShaped(ExtractWith(web)(item))
    {
      ExtractOutcomes(item, web);
    }
  }

  /** `executor.map(extract, items)`: one result per tile, in submission order. */
  function MapItems(items: seq<Tile>, extract: Extractor): (rs: seq<Extracted>)
    ensures |rs| == |items|
  {
    seq(|items|, i requires 0 <= i < |items| => extract(items[i]))
  }

  /** The results come back in submission order whatever order the workers
      finish in: mapping two runs of tiles one after the other gives their
      results one after the other. */
  lemma MapItemsAppend(a: seq<Tile>, b: seq<Tile>, extract: Extractor)
    ensures MapItems(a + b, extract) == MapItems(a, extract) + MapItems(b, extract)
  {
    var ab := MapItems(a + b, extract);
    assert forall i :: 0 <= i < |a| ==> ab[i] == MapItems(a, extract)[i];
    assert forall i :: |a| <= i < |a + b| ==> ab[i] == MapItems(b, extract)[i - |a|];
  }

  /** The dicts of the truthy results, in order: what `if product:` keeps. */
  function KeptData(rs: seq<Extracted>): seq<Dict> {
    if rs == [] then []
    else (if Truthy(rs[0]) then [rs[0].data] else []) + KeptData(rs[1..])
  }

  /** The results loop of `scrape_amazon`: iterate the results in order, keep the truthy ones, and let
      the first exception a result carries propagate. */
  function CollectResults(rs: seq<Extracted>): (r: Result<seq<Dict>, PyError>)
    ensures r.Success? ==> r.value == KeptData(rs)
  {
    if rs == [] then Success([])
    else if rs[0].Raised? then Failure(rs[0].error)
    else
      match CollectResults(rs[1..])
      case Failure(e) => Failure(e)
      case Success(kept) => Success((if Truthy(rs[0]) then [rs[0].data] else []) + kept)
  }

  /** `e` is the exception of the first result that raised. */
  ghost predicate FirstRaised(rs: seq<Extracted>, e: PyError) {
    exists i :: 0 <= i < |rs| && rs[i] == Raised(e) && forall j :: 0 <= j < i ==> !rs[j].Raised?
  }

  /** Collecting a page fails exactly when some result raised, and then with
      the exception of the first such result in tile order. */
  lemma {:induction false} CollectResultsRaises(rs: seq<Extracted>)
    ensures CollectResults(rs).Failure? <==> exists i :: 0 <= i < |rs| && rs[i].Raised?
    ensures CollectResults(rs).Failure? ==> FirstRaised(rs, CollectResults(rs).error)
    decreases |rs|
  {
    if rs != [] && !rs[0].Raised? {
      CollectResultsRaises(rs[1..]);
      assert forall i :: 1 <= i < |rs| ==> rs[i] == rs[1..][i - 1];
      if CollectResults(rs).Failure? {
        var e := CollectResults(rs).error;
        var i :| 0 <= i < |rs[1..]| && rs[1..][i] == Raised(e) && forall j :: 0 <= j < i ==> !rs[1..][j].Raised?;
        assert rs[i + 1] == Raised(e);
        assert forall j :: 0 <= j < i + 1 ==> !rs[j].Raised?;
      }
    } else if rs != [] {
      assert FirstRaised(rs, rs[0].error) by {
        assert rs[0] == Raised(rs[0].error);
      }
    }
  }

  /** When result `i` is the first to raise, collecting fails with its exception. */
  lemma CollectFirstRaised(rs: seq<Extracted>, i: nat)
    requires i < |rs| && rs[i].Raised?
    requires forall j :: 0 <= j < i ==> !rs[j].Raised?
    ensures CollectResults(rs) == Failure(rs[i].error)
  {
    CollectResultsRaises(rs);
    var e := CollectResults(rs).error;
    var k :| 0 <= k < |rs| && rs[k] == Raised(e) && forall j :: 0 <= j < k ==> !rs[j].Raised?;
    assert k == i;
  }

  /** What one iteration of the page loop makes of listing page `page`:
      None when the fetch fails, otherwise the collection of its results. */
  function PageOutcome(web: Web, extract: Extractor, page: nat): Option<Result<seq<Dict>, PyError>> {
    match web(PageUrl(page))
    case None => None
    case Some(doc) => Some(CollectResults(MapItems(doc.tiles, extract)))
  }

  /** The page was fetched and none of its tiles raised: the loop goes on. */
  predicate PageOk(web: Web, extract: Extractor, page: nat) {
    PageOutcome(web, extract, page).Some? && PageOutcome(web, extract, page).value.Success?
  }

  /** The records a page contributes: none unless it was fetched and collected. */
  function PageRecords(web: Web, extract: Extractor, page: nat): seq<Dict> {
    if PageOk(web, extract, page) then PageOutcome(web, extract, page).value.value else []
  }

  function PageRecordsOf(web: Web, extract: Extractor): nat -> seq<Dict> {
    (page: nat) => PageRecords(web, extract, page)
  }

  /** The records of the given pages, concatenated in the given order. */
  function ConcatPages(web: Web, extract: Extractor, pages: seq<nat>): seq<Dict> {
    FlatMap(PageRecordsOf(web, extract), pages)
  }

  /** `f` applied to each element, the results concatenated in order. */
  function FlatMap<A, B>(f: A -> seq<B>, xs: seq<A>): seq<B> {
    if xs == [] then [] else f(xs[0]) + FlatMap(f, xs[1..])
  }

  /** The records of a run of pages start with those of its first page. */
  lemma ConcatPagesCons(web: Web, extract: Extractor, page: nat, pages: seq<nat>)
    ensures ConcatPages(web, extract, [page] + pages) == PageRecords(web, extract, page) + ConcatPages(web, extract, pages)
  {
    assert ([page] + pages)[1..] == pages;
  }

  lemma ConcatPagesOne(web: Web, extract: Extractor, page: nat)
    ensures ConcatPages(web, extract, [page]) == PageRecords(web, extract, page)
  {
    assert [page][1..] == [];
    assert FlatMap(PageRecordsOf(web, extract), []) == [];
    assert PageRecords(web, extract, page) + [] == PageRecords(web, extract, page);
  }

  /** A run of the loop: the listing pages it fetched, in order, and either the
      accumulated records or the exception that escaped. */
  datatype Run = Run(pagesFetched: seq<nat>, outcome: Result<seq<Dict>, PyError>)

  /** The loop from `page` on. */
  function ScrapeFrom(web: Web, extract: Extractor, page: nat): (run: Run)
    requires 1 <= page <= MaxPages + 1
    decreases MaxPages + 1 - page
    // never beyond MaxPages
    ensures |run.pagesFetched| <= MaxPages + 1 - page
  {
    if page > MaxPages then
      Run([], Success([]))
    else
      match PageOutcome(web, extract, page)
      case None => Run([page], Success([]))
      case Some(Failure(e)) => Run([page], Failure(e))
      case Some(Success(kept)) =>
        var rest := ScrapeFrom(web, extract, page + 1);
        Run([page] + rest.pagesFetched,
            match rest.outcome
            case Failure(e) => Failure(e)
            case Success(later) => Success(kept + later))
  }

  /** The loop from `page` fetches consecutive pages from `page` on. */
  lemma {:induction false} ScrapeFromConsecutive(web: Web, extract: Extractor, page: nat)
    requires 1 <= page <= MaxPages + 1
    decreases MaxPages + 1 - page
    ensures var pages := ScrapeFrom(web, extract, page).pagesFetched;
            forall i :: 0 <= i < |pages| ==> pages[i] == page + i
  {
    if page <= MaxPages && PageOk(web, extract, page) {
      ScrapeFromConsecutive(web, extract, page + 1);
      var rest := ScrapeFrom(web, extract, page + 1).pagesFetched;
      var pages := ScrapeFrom(web, extract, page).pagesFetched;
      assert pages == [page] + rest;
      forall i | 0 <= i < |pages|
        ensures pages[i] == page + i
      {
        if i > 0 {
          assert pages[i] == rest[i - 1];
        }
      }
    }
  }

  /** The loop from `page` moves past a page only when that page went
      through. */
  lemma {:induction false} ScrapeFromPasses(web: Web, extract: Extractor, page: nat)
    requires 1 <= page <= MaxPages + 1
    decreases MaxPages + 1 - page
    ensures var n := |ScrapeFrom(web, extract, page).pagesFetched|;
            forall p :: page <= p < page + n - 1 ==> PageOk(web, extract, p)
  {
    if page <= MaxPages && PageOk(web, extract, page) {
      ScrapeFromPasses(web, extract, page + 1);
      var n := |ScrapeFrom(web, extract, page).pagesFetched|;
      var m := |ScrapeFrom(web, extract, page + 1).pagesFetched|;
      assert n == 1 + m;
      forall p | page <= p < page + n - 1
        ensures PageOk(web, extract, p)
      {
        if p > page {
          assert page + 1 <= p < page + 1 + m - 1;
        }
      }
    }
  }

  /** The loop from `page` stops before MaxPages only at a page that did not
      go through. */
  lemma {:induction false} ScrapeFromStops(web: Web, extract: Extractor, page: nat)
    requires 1 <= page <= MaxPages + 1
    decreases MaxPages + 1 - page
    ensures var n := |ScrapeFrom(web, extract, page).pagesFetched|;
            page + n <= MaxPages ==> n > 0 && !PageOk(web, extract, page + n - 1)
  {
    if page <= MaxPages && PageOk(web, extract, page) {
      ScrapeFromStops(web, extract, page + 1);
      var n := |ScrapeFrom(web, extract, page).pagesFetched|;
      var m := |ScrapeFrom(web, extract, page + 1).pagesFetched|;
      assert n == 1 + m;
      assert page + n - 1 == (page + 1) + m - 1;
    } else if page <= MaxPages {
      assert ScrapeFrom(web, extract, page).pagesFetched == [page];
    }
  }

  /** An exception from the loop from `page` on comes from the last page it
      fetched. */
  lemma {:induction false} ScrapeFromRaises(web: Web, extract: Extractor, page: nat)
    requires 1 <= page <= MaxPages + 1
    decreases MaxPages + 1 - page
    ensures var run := ScrapeFrom(web, extract, page);
            run.outcome.Failure? ==>
              |run.pagesFetched| > 0 &&
              PageOutcome(web, extract, page + |run.pagesFetched| - 1) == Some(Failure(run.outcome.error))
    // and a fetched page that raises makes the whole run raise, losing its records
    ensures var run := ScrapeFrom(web, extract, page);
            var last := PageOutcome(web, extract, page + |run.pagesFetched| - 1);
            |run.pagesFetched| > 0 && last.Some? && last.value.Failure? ==>
              run.outcome == Failure(last.value.error)
  {
    if page <= MaxPages && PageOk(web, extract, page) {
      ScrapeFromRaises(web, extract, page + 1);
      var rest := ScrapeFrom(web, extract, page + 1);
      var run := ScrapeFrom(web, extract, page);
      assert |run.pagesFetched| == 1 + |rest.pagesFetched|;
      assert run.outcome.Failure? ==> rest.outcome.Failure? && run.outcome.error == rest.outcome.error;
    }
  }

  /** Without an exception, the loop from `page` on yields the records of
      the pages it fetched, in page order. */
  lemma {:induction false} ScrapeFromRecords(web: Web, extract: Extractor, page: nat)
    requires 1 <= page <= MaxPages + 1
    decreases MaxPages + 1 - page
    ensures var run := ScrapeFrom(web, extract, page);
            run.outcome.Success? ==> run.outcome.value == ConcatPages(web, extract, run.pagesFetched)
  {
    if page <= MaxPages {
      if PageOutcome(web, extract, page).None? {
        ConcatPagesOne(web, extract, page);
      } else if PageOk(web, extract, page) {
        ScrapeFromRecords(web, extract, page + 1);
        var rest := ScrapeFrom(web, extract, page + 1);
        ConcatPagesCons(web, extract, page, rest.pagesFetched);
      }
    }
  }

  /** `scrape_amazon()` up to the CSV write: the page loop from page 1 with
      `extract_product_info` as the extractor. */
  function ScrapeAmazon(web: Web): (run: Run)
    ensures |run.pagesFetched| <= MaxPages
    ensures forall i :: 0 <= i < |run.pagesFetched| ==> run.pagesFetched[i] == i + 1
    ensures forall p :: 1 <= p < |run.pagesFetched| ==> PageOk(web, ExtractWith(web), p)
    ensures |run.pagesFetched| < MaxPages ==>
              |run.pagesFetched| > 0 && !PageOk(web, ExtractWith(web), |run.pagesFetched|)
    ensures run.outcome.Failure? ==>
              |run.pagesFetched| > 0 &&
              PageOutcome(web, ExtractWith(web), |run.pagesFetched|) == Some(Failure(run.outcome.error))
    ensures var last := PageOutcome(web, ExtractWith(web), |run.pagesFetched|);
            |run.pagesFetched| > 0 && last.Some? && last.value.Failure? ==>
              run.outcome == Failure(last.value.error)
    ensures run.outcome.Success? ==> run.outcome.value == ConcatPages(web, ExtractWith(web), run.pagesFetched)
    ensures run.outcome.Success? ==>
              forall j :: 0 <= j < |run.outcome.value| ==> IsProductRecord(run.outcome.value[j])
  {
    var run := ScrapeFrom(web, ExtractWith(web), 1);
    ScrapeFromConsecutive(web, ExtractWith(web), 1);
    ScrapeFromPasses(web, ExtractWith(web), 1);
    ScrapeFromStops(web, ExtractWith(web), 1);
    ScrapeFromRaises(web, ExtractWith(web), 1);
    ScrapeFromRecords(web, ExtractWith(web), 1);
    ExtractWithWellShaped(web);
    ConcatPagesAreRecords(web, ExtractWith(web), run.pagesFetched);
    run
  }

  /** The kept dicts of well-shaped results are full four-column records. */
  lemma {:induction false} KeptDataAreRecords(rs: seq<Extracted>)
    requires forall i :: 0 <= i < |rs| ==> WellShaped(rs[i])
    ensures forall j :: 0 <= j < |KeptData(rs)| ==> IsProductRecord(KeptData(rs)[j])
    decreases |rs|
  {
    if rs != [] {
      KeptDataAreRecords(rs[1..]);
    }
  }

  /** With an extractor whose results are well shaped, every accumulated
      record has exactly the four CSV columns. */
  lemma {:induction false} ConcatPagesAreRecords(web: Web, extract: Extractor, pages: seq<nat>)
    requires forall item :: WellShaped(extract(item))
    ensures forall j :: 0 <= j < |ConcatPages(web, extract, pages)| ==> IsProductRecord(ConcatPages(web, extract, pages)[j])
    decreases |pages|
  {
    if pages != [] {
      ConcatPagesAreRecords(web, extract, pages[1..]);
      var p := pages[0];
      assert pages == [p] + pages[1..];
      ConcatPagesCons(web, extract, p, pages[1..]);
      if PageOk(web, extract, p) {
        KeptDataAreRecords(MapItems(web(PageUrl(p)).value.tiles, extract));
      }
    }
  }

  /** Filtering distributes over concatenation: the kept records of a
      sequence of results are those of its first part followed by those of
      the rest, so the kept records stay in result order. */
  lemma {:induction false} KeptDataAppend(a: seq<Extracted>, b: seq<Extracted>)
    ensures KeptData(a + b) == KeptData(a) + KeptData(b)
    decreases |a|
  {
    if a != [] {
      assert (a + b)[1..] == a[1..] + b;
      KeptDataAppend(a[1..], b);
    } else {
      assert a + b == b;
    }
  }

  /** `d` is the dict of some truthy result in `rs`. */
  ghost predicate KeptFrom(rs: seq<Extracted>, d: Dict) {
    exists i :: 0 <= i < |rs| && Truthy(rs[i]) && rs[i].data == d
  }

  /** The kept records are exactly the dicts of the truthy results: each kept
      record is one, and each truthy result's dict is kept. */
  lemma {:induction false} KeptDataMembers(rs: seq<Extracted>)
    ensures forall j :: 0 <= j < |KeptData(rs)| ==> KeptFrom(rs, KeptData(rs)[j])
    ensures forall i :: 0 <= i < |rs| && Truthy(rs[i]) ==> rs[i].data in KeptData(rs)
    decreases |rs|
  {
    if rs != [] {
      KeptDataMembers(rs[1..]);
      var head := if Truthy(rs[0]) then [rs[0].data] else [];
      var tail := KeptData(rs[1..]);
      assert KeptData(rs) == head + tail;
      forall j | 0 <= j < |KeptData(rs)|
        ensures KeptFrom(rs, KeptData(rs)[j])
      {
        if j < |head| {
          assert KeptData(rs)[j] == rs[0].data;
          assert Truthy(rs[0]);
        } else {
          assert KeptData(rs)[j] == tail[j - |head|];
          assert KeptFrom(rs[1..], tail[j - |head|]);
          var i :| 0 <= i < |rs[1..]| && Truthy(rs[1..][i]) && rs[1..][i].data == tail[j - |head|];
          assert rs[i + 1] == rs[1..][i];
        }
      }
      forall i | 0 <= i < |rs| && Truthy(rs[i])
        ensures rs[i].data in KeptData(rs)
      {
        if i > 0 {
          assert rs[i] == rs[1..][i - 1];
        }
      }
    }
  }

  /** A falsy result (None, `{}`) contributes nothing: removing it leaves the
      kept records unchanged. */
  lemma DroppingFalsyResult(rs: seq<Extracted>, i: nat)
    requires i < |rs| && !Truthy(rs[i])
    ensures KeptData(rs) == KeptData(rs[..i] + rs[i + 1..])
  {
    var before, x, after := rs[..i], rs[i], rs[i + 1..];
    assert rs == before + ([x] + after);
    assert KeptData([x] + after) == KeptData(after) by {
      assert ([x] + after)[1..] == after;
    }
    KeptDataAppend(before, [x] + after);
    KeptDataAppend(before, after);
  }

  /** A tile whose detail page cannot be fetched yields `{}`, and the page's
      records are what they would be without that tile: the item is lost,
      not kept with defaulted fields. */
  lemma FailedDetailFetchDropsItem(items: seq<Tile>, web: Web, i: nat)
    requires i < |items|
    requires RatingOf(items[i]).Success? && DetailUrl(items[i]).Some?
    requires web(DetailUrl(items[i]).value).None?
    ensures MapItems(items, ExtractWith(web))[i] == Returned(map[])
    ensures KeptData(MapItems(items, ExtractWith(web)))
         == KeptData(MapItems(items[..i] + items[i + 1..], ExtractWith(web)))
  {
    var rs := MapItems(items, ExtractWith(web));
    ExtractOutcomes(items[i], web);
    assert rs[i] == ExtractProductInfo(items[i], web);
    DroppingFalsyResult(rs, i);
    assert rs[..i] + rs[i + 1..] == MapItems(items[..i] + items[i + 1..], ExtractWith(web));
  }

  /** FlatMap distributes over concatenation. */
  lemma {:induction false} FlatMapAppend<A, B>(f: A -> seq<B>, a: seq<A>, b: seq<A>)
    ensures FlatMap(f, a + b) == FlatMap(f, a) + FlatMap(f, b)
    decreases |a|
  {
    if a != [] {
      assert (a + b)[1..] == a[1..] + b;
      FlatMapAppend(f, a[1..], b);
    } else {
      assert a + b == b;
    }
  }

  /** Records of earlier pages precede records of later ones: the records of
      a run of pages are those of its first part followed by those of the rest. */
  lemma ConcatPagesAppend(web: Web, extract: Extractor, a: seq<nat>, b: seq<nat>)
    ensures ConcatPages(web, extract, a + b) == ConcatPages(web, extract, a) + ConcatPages(web, extract, b)
  {
    FlatMapAppend(PageRecordsOf(web, extract), a, b);
  }

  /** Pages 1..n in order. */
  function PagesUpTo(n: nat): (ps: seq<nat>)
    ensures |ps| == n
    ensures forall i :: 0 <= i < n ==> ps[i] == i + 1
  {
    seq(n, i => i + 1)
  }

  /** A listing page whose fetch fails is the last one requested: no later
      page is fetched. */
  lemma StopsAtFailedPage(web: Web, k: nat)
    requires 1 <= k && web(PageUrl(k)).None?
    ensures |ScrapeAmazon(web).pagesFetched| <= k
    ensures forall i :: 0 <= i < |ScrapeAmazon(web).pagesFetched| ==> ScrapeAmazon(web).pagesFetched[i] <= k
  {
    assert !PageOk(web, ExtractWith(web), k);
  }

  /** A page that fails to load adds no records. */
  lemma FailedPageAddsNothing(web: Web, extract: Extractor, k: nat)
    requires 1 <= k && web(PageUrl(k)).None?
    ensures ConcatPages(web, extract, PagesUpTo(k)) == ConcatPages(web, extract, PagesUpTo(k - 1))
  {
    assert PagesUpTo(k) == PagesUpTo(k - 1) + [k];
    ConcatPagesAppend(web, extract, PagesUpTo(k - 1), [k]);
    ConcatPagesOne(web, extract, k);
  }

  /** When pages 1..k-1 go through and page k fails to load, exactly pages
      1..k are requested and the result is the records of pages 1..k-1, in
      page order. */
  lemma KeepsEarlierPages(web: Web, k: nat)
    requires 1 <= k <= MaxPages
    requires forall p :: 1 <= p < k ==> PageOk(web, ExtractWith(web), p)
    requires web(PageUrl(k)).None?
    ensures ScrapeAmazon(web).pagesFetched == PagesUpTo(k)
    ensures ScrapeAmazon(web).outcome == Success(ConcatPages(web, ExtractWith(web), PagesUpTo(k - 1)))
  {
    var run := ScrapeAmazon(web);
    StopsAtFailedPage(web, k);
    assert |run.pagesFetched| == k;
    assert run.pagesFetched == PagesUpTo(k);
    assert PageOutcome(web, ExtractWith(web), k).None?;
    FailedPageAddsNothing(web, ExtractWith(web), k);
  }

  /** A run whose first `pages` were already fetched, with `acc` already
      collected from them, continued by `rest`. */
  function Prepend(pages: seq<nat>, acc: seq<Dict>, rest: Run): Run {
    Run(pages + rest.pagesFetched,
        match rest.outcome
        case Failure(e) => Failure(e)
        case Success(later) => Success(acc + later))
  }

  /** What the page loop knows before an iteration on `page`: finishing the
      loop from there yields the run of the whole scrape. */
  ghost predicate LoopInvariant(web: Web, extract: Extractor, page: nat, pages: seq<nat>, acc: seq<Dict>) {
    1 <= page <= MaxPages + 1 && Prepend(pages, acc, ScrapeFrom(web, extract, page)) == ScrapeFrom(web, extract, 1)
  }

  /** Before the first page nothing is fetched or collected. */
  lemma LoopStart(web: Web, extract: Extractor)
    ensures LoopInvariant(web, extract, 1, [], [])
  {
    var rest := ScrapeFrom(web, extract, 1);
    assert [] + rest.pagesFetched == rest.pagesFetched;
    if rest.outcome.Success? {
      assert [] + rest.outcome.value == rest.outcome.value;
    }
  }

  /** One iteration on a page that goes through moves on to the next page. */
  lemma LoopStep(web: Web, extract: Extractor, page: nat, pages: seq<nat>, acc: seq<Dict>, kept: seq<Dict>)
    requires LoopInvariant(web, extract, page, pages, acc) && page <= MaxPages
    requires PageOutcome(web, extract, page) == Some(Success(kept))
    ensures LoopInvariant(web, extract, page + 1, pages + [page], acc + kept)
  {
    var rest := ScrapeFrom(web, extract, page + 1);
    assert pages + ([page] + rest.pagesFetched) == pages + [page] + rest.pagesFetched;
    if rest.outcome.Success? {
      assert acc + (kept + rest.outcome.value) == acc + kept + rest.outcome.value;
    }
  }

  /** The loop ends at a page whose fetch fails, keeping what it has. */
  lemma LoopFetchFails(web: Web, extract: Extractor, page: nat, pages: seq<nat>, acc: seq<Dict>)
    requires LoopInvariant(web, extract, page, pages, acc) && page <= MaxPages
    requires web(PageUrl(page)).None?
    ensures ScrapeFrom(web, extract, 1) == Run(pages + [page], Success(acc))
  {
    assert acc + [] == acc;
  }

  /** The loop ends at a page whose collection raises, with that exception. */
  lemma LoopRaises(web: Web, extract: Extractor, page: nat, pages: seq<nat>, acc: seq<Dict>, e: PyError)
    requires LoopInvariant(web, extract, page, pages, acc) && page <= MaxPages
    requires PageOutcome(web, extract, page) == Some(Failure(e))
    ensures ScrapeFrom(web, extract, 1) == Run(pages + [page], Failure(e))
  {
  }

  /** Past the last page the loop is over. */
  lemma LoopDone(web: Web, extract: Extractor, page: nat, pages: seq<nat>, acc: seq<Dict>)
    requires LoopInvariant(web, extract, page, pages, acc) && page > MaxPages
    ensures ScrapeFrom(web, extract, 1) == Run(pages, Success(acc))
  {
    assert pages + [] == pages;
    assert acc + [] == acc;
  }

  /** The results loop of `scrape_amazon` as written: a `for` over the mapped results that appends
      the truthy ones and re-raises the first exception it meets. */
  method CollectLoop(results: seq<Extracted>) returns (r: Result<seq<Dict>, PyError>)
    ensures r == CollectResults(results)
  {
    var products: seq<Dict> := [];
    var i := 0;
    while i < |results|
      invariant 0 <= i <= |results|
      invariant forall j :: 0 <= j < i ==> !results[j].Raised?
      invariant products == KeptData(results[..i])
    {
      var product := results[i];
      if product.Raised? {
        CollectResultsRaises(results);
        CollectFirstRaised(results, i);
        return Failure(product.error);
      }
      KeptDataAppend(results[..i], [product]);
      assert results[..i + 1] == results[..i] + [product];
      if Truthy(product) {
        products := products + [product.data];
      }
      i := i + 1;
    }
    assert results[..i] == results;
    CollectResultsRaises(results);
    return Success(products);
  }

  /** The page loop of `scrape_amazon` as written: a `while` over page numbers that
      stops at the first page that fails to load. It computes the same run
      as the recursive model. */
  method ScrapeLoop(web: Web) returns (pagesFetched: seq<nat>, outcome: Result<seq<Dict>, PyError>)
    ensures Run(pagesFetched, outcome) == ScrapeAmazon(web)
  {
    var extract := ExtractWith(web);
    var allProducts: seq<Dict> := [];
    var page: nat := 1;
    pagesFetched := [];
    LoopStart(web, extract);
    while page <= MaxPages
      invariant LoopInvariant(web, extract, page, pagesFetched, allProducts)
      decreases MaxPages + 1 - page
    {
      var soup := web(PageUrl(page));
      if soup.None? {
        LoopFetchFails(web, extract, page, pagesFetched, allProducts);
        return pagesFetched + [page], Success(allProducts);
      }
      var collected := CollectLoop(MapItems(soup.value.tiles, extract));
      if collected.Failure? {
        LoopRaises(web, extract, page, pagesFetched, allProducts, collected.error);
        return pagesFetched + [page], Failure(collected.error);
      }
      LoopStep(web, extract, page, pagesFetched, allProducts, collected.value);
      pagesFetched := pagesFetched + [page];
      allProducts := allProducts + collected.value;
      page := page + 1;
    }
    LoopDone(web, extract, page, pagesFetched, allProducts);
    outcome := Success(allProducts);
  }
}
