# Amazon product scraper — verified model of the extraction and page loop

The scraper walks the pages of an Amazon search listing. For every result tile it
follows the product link, reads name, price and seller from the product page and
the rating from the tile. It then collects the records. This project models the
two pieces of `WebScraper_3.py` that make decisions:

- `extract_product_info`: one tile plus its detail page gives one of four
  outcomes. It can return `None`, return `{}`, return the four-field record, or
  raise an exception it does not catch.
- The page loop of `scrape_amazon`. It visits pages 1..5 in order and stops at the
  first page whose fetch fails. On each page it maps the extractor over the tiles
  in tile order and keeps the truthy results. Any exception it meets aborts the
  whole run.

Every BeautifulSoup lookup is an optional value:

- `find(...)` gives a tag or None.
- `.text` is read from that tag.
- `["href"]` is read from the anchor.

A tile is a `Product.Tile`: its optional icon-alt text and its optional anchor,
which may lack an `href`. A parsed page is a `Product.Document`: its tiles in
document order and the four optional marker texts of a detail page.
`get_soup` is a function `Web = string -> Option<Document>` from URL to parsed
page. `None` stands for a request failure. Python's `str.strip()`, `str.split()[0]`,
`p in s` and `f"{n}"` are modelled in `PyText`.

Files:

- `wrappers.dfy`: `Option` and `Result`.
- `pytext.dfy`: the string operations.
- `product.dfy`: the extractor.
- `scrape.dfy`: the page loop, stated for any per-tile extractor and applied
  to `extract_product_info` in `ScrapeAmazon`. It comes in two forms. `ScrapeFrom`/`ScrapeAmazon` is a
  recursive function. `ScrapeLoop`/`CollectLoop` is the `while`/`for` loop as
  written, proved to compute the same run.

Behaviours of the code that are easy to misread, as the model states them:

- A tile whose detail page cannot be fetched yields `{}` (lines 28, 40-41, 67).
  `{}` is falsy, so line 90 drops it. The item is lost, not kept with
  defaulted fields.
- `executor.map` yields results in submission order (line 86). Within a page,
  records therefore follow tile order, not completion order.
- An exception from one tile is not confined to that tile. `.split()[0]` on
  blank icon-alt text raises IndexError (line 30). `["href"]` on an anchor
  without that attribute raises KeyError (line 35). Neither is caught (lines 31,
  36). `executor.map` re-raises it when line 89 reaches that result, so
  `scrape_amazon` raises and its records are lost. The rating is read before the
  link, so a blank rating raises even for a tile without a link.
- Name, price and seller are "N/A" when their marker is missing and the stripped
  text otherwise. A page whose text is literally "N/A" also gives "N/A", so
  "N/A" does not mean the marker was absent.

## Model

| member | source | states |
|---|---|---|
| PyText.Strip | WebScraper_3.py:50-60 | `.strip()` gives a piece of the text with only whitespace around it, and the piece neither starts nor ends with whitespace |
| PyText.Contains | WebScraper_3.py:44 | `p in s` holds exactly when `p` occurs at some index of `s` |
| PyText.ContainsStripped | WebScraper_3.py:43-44 | a phrase that starts and ends with non-whitespace occurs in the stripped text exactly when it occurs in the raw text |
| PyText.FirstWord | WebScraper_3.py:30 | `.split()[0]` fails (IndexError) exactly when the text is all whitespace; otherwise it gives the first maximal run of non-whitespace, preceded only by whitespace |
| PyText.NatToString | WebScraper_3.py:78 | `f"{page}"` is a non-empty run of decimal digits with no leading zero |
| PyText.NatToStringRoundTrip | WebScraper_3.py:78 | reading back the decimal digits of a page number gives that number |
| PyText.NatToStringInjective | WebScraper_3.py:78 | different page numbers format differently |
| Product.RatingOf | WebScraper_3.py:29-32 | the rating is "N/A" without the icon-alt span, IndexError when its text is blank, else the first token of that text |
| Product.ProductData | WebScraper_3.py:65 | the record dict has exactly the four CSV columns as keys, each holding its field |
| Product.ExtractOutcomes | WebScraper_3.py:26-67 | blank rating raises first. A missing anchor skips the tile. An anchor without href raises KeyError. A failed detail fetch gives `{}`. An out-of-stock detail page skips the tile (`None`), it does not raise. A record comes out exactly when rating, link and detail page are there and the page is not out of stock. Any dict is `{}` or has exactly the four columns |
| Product.OnlyDetailPageConsulted | WebScraper_3.py:34-41 | the outcome depends on the web only through the one detail URL of the tile; without a link nothing is fetched, so any web gives the same outcome |
| Product.RecordFields | WebScraper_3.py:49-65 | for a fetched, in-stock page, name, price and seller each come from their own marker ("N/A" if absent), and the rating comes from the tile |
| Product.OutOfStockIgnoresPadding | WebScraper_3.py:42-47 | the out-of-stock decision on the stripped status text is the same as on the raw text; a page without a status span is never suppressed |
| Scrape.PageUrl | WebScraper_3.py:78 | a listing URL starts with the base URL followed by `&page=` |
| Scrape.PageUrlParameter | WebScraper_3.py:78 | the value of the page parameter is a run of decimal digits that reads back as the page number |
| Scrape.PageUrlInjective | WebScraper_3.py:78 | different page numbers request different listing URLs |
| Scrape.MapItemsAppend | WebScraper_3.py:86 | results come back in submission order: mapping two runs of tiles one after the other gives their results one after the other |
| Scrape.ExtractWithWellShaped | WebScraper_3.py:26-67 | every result of `extract_product_info` is `None`, an exception, `{}` or a dict with exactly the four CSV columns |
| Scrape.CollectResults | WebScraper_3.py:84-91 | when collecting a page does not raise, it gives the dicts of the truthy results in result order |
| Scrape.CollectResultsRaises | WebScraper_3.py:84-91 | collecting a page raises exactly when some result raised, and then with the exception of the first such result in tile order |
| Scrape.CollectFirstRaised | WebScraper_3.py:89 | when result i is the first to raise, collecting the page raises its exception |
| Scrape.KeptDataAppend | WebScraper_3.py:89-91 | keeping truthy results distributes over concatenation, so kept records stay in result order |
| Scrape.KeptDataMembers | WebScraper_3.py:89-91 | every kept record is the dict of a truthy result, and every truthy result's dict is kept |
| Scrape.DroppingFalsyResult | WebScraper_3.py:89-91 | a falsy result (`None` or `{}`) contributes nothing: removing it leaves the kept records unchanged |
| Scrape.FailedDetailFetchDropsItem | WebScraper_3.py:40-91 | a tile whose detail fetch fails yields `{}`, and the page keeps exactly what it would keep without that tile |
| Scrape.KeptDataAreRecords | WebScraper_3.py:65-91 | when every result is `None`, an exception, `{}` or a four-column record, every record the page keeps has exactly the four CSV columns |
| Scrape.ConcatPagesAreRecords | WebScraper_3.py:93-98 | with an extractor whose dicts are `{}` or four-column records, every accumulated record has exactly the four columns named in the CSV header |
| Scrape.FlatMapAppend | WebScraper_3.py:93 | extending with each page's records distributes over concatenation of page runs |
| Scrape.ConcatPagesAppend | WebScraper_3.py:93 | records of earlier pages precede those of later pages |
| Scrape.ScrapeFrom | WebScraper_3.py:74-77 | the loop from a page fetches at most the pages up to 5 |
| Scrape.ScrapeFromConsecutive | WebScraper_3.py:77-94 | the pages fetched from a starting page are that page and the following ones, consecutively |
| Scrape.ScrapeFromPasses | WebScraper_3.py:77-94 | the loop moves past a page only when that page loaded and did not raise |
| Scrape.ScrapeFromStops | WebScraper_3.py:77-94 | the loop stops before page 5 only at a page that failed to load or raised |
| Scrape.ScrapeFromRaises | WebScraper_3.py:86-93 | the loop raises exactly when the last page it fetched raised, and then with that page's exception; the records of earlier pages are lost |
| Scrape.ScrapeFromRecords | WebScraper_3.py:89-93 | without an exception the result is the records of the fetched pages, concatenated in page order |
| Scrape.ScrapeAmazon | WebScraper_3.py:72-98 | the pages fetched are 1, 2, ... in order, at most 5. Every page before the last went through, and a run shorter than 5 ends at a failed page. The run raises exactly when its last page raised, with that page's exception, and then no records survive; otherwise the result is the page-ordered records. Every record has the CSV header's four columns |
| Scrape.StopsAtFailedPage | WebScraper_3.py:77-82 | if page k fails to load, no page after k is fetched |
| Scrape.KeepsEarlierPages | WebScraper_3.py:72-94 | when pages 1..k-1 go through and page k fails to load, exactly pages 1..k are fetched and the result is the records of pages 1..k-1 in page order |
| Scrape.FailedPageAddsNothing | WebScraper_3.py:80-82 | a page that fails to load adds no records |
| Scrape.CollectLoop | WebScraper_3.py:84-91 | the `for` loop over the mapped results computes the page collection |
| Scrape.ScrapeLoop | WebScraper_3.py:72-94 | the `while` loop over page numbers computes the same run (pages fetched and outcome) as the recursive page loop |

## Left out

- `get_soup` and the HTTP GET with its fixed headers (lines 10-23) are network I/O. A
  fetch is the `Web` parameter, and status or transport failures become `None`.
  Because `Web` is a function, one URL gets the same response every time it is
  requested in a run: two tiles with the same href always get the same outcome,
  where the code sends a separate GET for each (line 40).
- BeautifulSoup parsing and `find`/`find_all` belong to a foreign library. A page
  is the record of what each lookup finds. Parser leniency and the CSS-class
  matching rules are not modelled.
- `ThreadPoolExecutor` concurrency (lines 76, 86) is modelled as an in-order
  sequential map. That is the order in which `executor.map` yields results. Task
  scheduling and the pool width of 10 are not modelled.
- The CSV write (lines 96-100) is file I/O. The model proves only that every
  record's keys are exactly the header's four field names.
- The Streamlit front-end (lines 79, 105-117), including the per-page progress
  message and the success or error notice, is UI.
- Scrape.ScrapeAmazon: an exception is modelled as the run's outcome. Python's
  traceback and the state of the interpreter afterwards are not modelled.
