/**
 * `extract_product_info`: one listing tile, plus the detail page its link
 * leads to, becomes no record, an empty record, a four-field record, or an
 * exception the function does not catch.
 *
 * Every BeautifulSoup lookup the scraper makes is abstracted as an optional
 * value: `find` returning a tag or None, `.text` on that tag, `["href"]` on
 * the anchor. The network is a function from URL to the parsed page, or None
 * where `get_soup` swallows a request failure.
 */
module Product {
  import opened Wrappers
  import opened PyText

  /** The product anchor of a tile, with its `href` attribute if it has one. */
  datatype Anchor = Anchor(href: Option<string>)

  /** One `div.s-result-item` tile of a listing page. */
  datatype Tile = Tile(
    iconAltText: Option<string>,  // text of `span.a-icon-alt`
    link: Option<Anchor>          // the `a.a-link-normal s-line-clamp-4 ...` anchor
  )

  /** A parsed page: what each lookup the scraper makes on it finds. A listing
      page is read through `tiles`, a detail page through the four texts. */
  datatype Document = Document(
    tiles: seq<Tile>,             // `find_all("div", class_="s-result-item")`, in document order
    stockText: Option<string>,    // text of `span.a-size-medium a-color-success`
    sellerText: Option<string>,   // text of `a#sellerProfileTriggerId`
    titleText: Option<string>,    // text of `span#productTitle`
    priceText: Option<string>     // text of `span.a-price-whole`
  )

  /** `get_soup`: a URL maps to its parsed page, or None when the request fails. */
  type Web = string -> Option<Document>

  /** The Python exceptions `extract_product_info` lets escape. */
  datatype PyError =
    | IndexError   // `.split()[0]` on an icon-alt text with no token
    | KeyError     // `["href"]` on an anchor without that attribute

  /** The value a dict-typed record takes in the source. */
  type Dict = map<string, string>

  /** What one call of `extract_product_info` does. */
  datatype Extracted =
    | Skipped                 // returns None
    | Returned(data: Dict)    // returns a dict: `{}` or the four-field record
    | Raised(error: PyError)  // raises

  const Origin := "https://www.amazon.in"
  const NotAvailable := "N/A"
  const OutOfStockMarkers: seq<string> := ["Currently unavailable", "Out of stock"]

  const NameKey := "Product Name"
  const PriceKey := "Price (INR)"
  const RatingKey := "Rating"
  const SellerKey := "Seller Name"

  /** The CSV header, in column order. */
  const FieldNames: seq<string> := [NameKey, PriceKey, RatingKey, SellerKey]

  /** Python truthiness of a result: only a non-empty dict is kept. */
  predicate Truthy(e: Extracted) {
    e.Returned? && |e.data| > 0
  }

  /** A record with exactly the four CSV columns as its keys. */
  predicate IsProductRecord(d: Dict) {
    d.Keys == set k | k in FieldNames
  }

  /** A result is None, an exception, `{}`, or a full four-column record. */
  predicate WellShaped(e: Extracted) {
    e.Returned? ==> e.data == map[] || IsProductRecord(e.data)
  }

  /** The dict literal that builds a record. */
  function ProductData(name: string, price: string, rating: string, seller: string): (d: Dict)
    ensures IsProductRecord(d)
    ensures d[NameKey] == name && d[PriceKey] == price && d[RatingKey] == rating && d[SellerKey] == seller
  {
    map[NameKey := name, PriceKey := price, RatingKey := rating, SellerKey := seller]
  }

  /** A present marker's stripped text, or "N/A" when the marker is missing. */
  function FieldText(marker: Option<string>): string {
    match marker
    case None => NotAvailable
    case Some(t) => Strip(t)
  }

  /** The rating read from the tile: the first token of the icon-alt text,
      "N/A" when there is no such span, IndexError when its text is blank. */
  function RatingOf(item: Tile): (r: Result<string, PyError>)
    ensures item.iconAltText.None? ==> r == Success(NotAvailable)
    ensures item.iconAltText.Some? ==>
              (r.Failure? <==> AllSpace(item.iconAltText.value))
    ensures item.iconAltText.Some? && r.Success? ==>
              exists i :: FirstWordAt(item.iconAltText.value, r.value, i)
    ensures r.Failure? ==> r.error == IndexError
  {
    match item.iconAltText
    case None => Success(NotAvailable)
    case Some(alt) =>
      match FirstWord(alt)
      case None => Failure(IndexError)
      case Some(w) => Success(w)
  }

  /** The detail-page URL the tile links to, when its anchor has an href. */
  function DetailUrl(item: Tile): Option<string> {
    match item.link
    case Some(Anchor(Some(href))) => Some(Origin + href)
    case _ => None
  }

  /** The stock-status check: the stripped status text contains one of the
      out-of-stock phrases. A page without the status span is not suppressed. */
  predicate OutOfStock(page: Document) {
    match page.stockText
    case None => false
    case Some(t) =>
      var status := Strip(t);
      Contains(status, OutOfStockMarkers[0]) || Contains(status, OutOfStockMarkers[1])
  }

  /** `extract_product_info(item)` with `get_soup` given as `web`. */
  function ExtractProductInfo(item: Tile, web: Web): Extracted {
    match RatingOf(item)
    case Failure(e) => Raised(e)
    case Success(rating) =>
      match item.link
      case None => Skipped
      case Some(Anchor(None)) => Raised(KeyError)
      case Some(Anchor(Some(href))) =>
        match web(Origin + href)
        case None => Returned(map[])
        case Some(page) =>
          if OutOfStock(page) then Skipped
          else Returned(ProductData(FieldText(page.titleText), FieldText(page.priceText),
                                    rating, FieldText(page.sellerText)))
  }

  /** The outcomes of `extract_product_info`. */
  lemma ExtractOutcomes(item: Tile, web: Web)
    // the icon-alt text is read first: a blank one raises whatever else the tile holds
    ensures RatingOf(item).Failure? ==> ExtractProductInfo(item, web) == Raised(IndexError)
    // a missing anchor skips the item; an anchor without href raises KeyError
    ensures RatingOf(item).Success? && item.link.None? ==> ExtractProductInfo(item, web) == Skipped
    ensures RatingOf(item).Success? && item.link == Some(Anchor(None)) ==> ExtractProductInfo(item, web) == Raised(KeyError)
    // with a link, a failed detail fetch gives the empty dict
    ensures (RatingOf(item).Success? && DetailUrl(item).Some? && web(DetailUrl(item).value).None?)
              ==> ExtractProductInfo(item, web) == Returned(map[])
    // an out-of-stock detail page skips the item (None), it does not raise
    ensures (&& RatingOf(item).Success?
             && DetailUrl(item).Some?
             && web(DetailUrl(item).value).Some?
             && OutOfStock(web(DetailUrl(item).value).value))
              ==> ExtractProductInfo(item, web) == Skipped
    // a record is produced exactly when everything needed is there and the item is in stock
    ensures Truthy(ExtractProductInfo(item, web)) <==>
              && RatingOf(item).Success?
              && DetailUrl(item).Some?
              && web(DetailUrl(item).value).Some?
              && !OutOfStock(web(DetailUrl(item).value).value)
    // any dict returned is either empty or has exactly the CSV columns
    ensures WellShaped(ExtractProductInfo(item, web))
  {
  }

  /** Only the tile and the one detail page its link names are consulted: two
      webs that agree on that URL give the same outcome, and a tile without a
      link gives the same outcome whatever the web holds, as nothing is fetched. */
  lemma OnlyDetailPageConsulted(item: Tile, web1: Web, web2: Web)
    requires DetailUrl(item).None? || web1(DetailUrl(item).value) == web2(DetailUrl(item).value)
    ensures ExtractProductInfo(item, web1) == ExtractProductInfo(item, web2)
  {
  }

  /** With a fetched, in-stock detail page, each of name, price and seller is
      its marker's stripped text when present and "N/A" when absent, each
      read from its own marker alone; the rating comes from the tile. */
  lemma RecordFields(item: Tile, web: Web)
    requires RatingOf(item).Success? && DetailUrl(item).Some?
    requires web(DetailUrl(item).value).Some?
    requires !OutOfStock(web(DetailUrl(item).value).value)
    ensures var r := ExtractProductInfo(item, web);
            var page := web(DetailUrl(item).value).value;
            && r.Returned? && IsProductRecord(r.data)
            && (page.titleText.None? ==> r.data[NameKey] == NotAvailable)
            && (page.titleText.Some? ==> r.data[NameKey] == Strip(page.titleText.value))
            && (page.priceText.None? ==> r.data[PriceKey] == NotAvailable)
            && (page.priceText.Some? ==> r.data[PriceKey] == Strip(page.priceText.value))
            && (page.sellerText.None? ==> r.data[SellerKey] == NotAvailable)
            && (page.sellerText.Some? ==> r.data[SellerKey] == Strip(page.sellerText.value))
            && r.data[RatingKey] == RatingOf(item).value
  {
  }

  /** A page without the status span is never suppressed, and padding around
      the stock-status text never changes the out-of-stock decision: the
      phrases occur in the stripped text exactly when they occur in the raw one. */
  lemma OutOfStockIgnoresPadding(page: Document)
    ensures page.stockText.None? ==> !OutOfStock(page)
    ensures page.stockText.Some? ==>
              (OutOfStock(page) <==>
                 Contains(page.stockText.value, OutOfStockMarkers[0]) || Contains(page.stockText.value, OutOfStockMarkers[1]))
  {
    if page.stockText.Some? {
      var t := page.stockText.value;
      ContainsStripped(t, OutOfStockMarkers[0]);
      ContainsStripped(t, OutOfStockMarkers[1]);
    }
  }
}
