/** scrapers.py: the eBay Finding API adapter. The SDK connection is a function from the
    `findItemsAdvanced` request to the parsed list of items (or a failure, which stands for
    any exception the SDK raises); the environment variables are parameters. */
module Scrapers {
  import opened Wrappers
  import opened Text
  import opened Numbers
  import opened Catalog

  /** The `findItemsAdvanced` request: keywords, page size, page 1, the `LocatedIn` item
      filter and the two output selectors. */
  datatype EbayRequest = EbayRequest(
    keywords: string,
    entriesPerPage: int,
    pageNumber: int,
    outputSelector: seq<string>,
    locatedIn: string)

  /** One entry of `searchResult.item`, with absent keys read as their defaults: `title`,
      `galleryURL` and `viewItemURL` default to "", and the three optional fields are
      `sellingStatus.currentPrice.value`, `sellingStatus.currentPrice.currencyId` and
      `itemId`. */
  datatype EbayItem = EbayItem(
    title: string,
    galleryURL: string,
    viewItemURL: string,
    priceValue: Option<string>,
    currencyId: Option<string>,
    itemId: Option<string>)

  const DefaultMaxResults: int := 10

  /** A credential counts as set when it is present and non-empty (Python truthiness). */
  predicate IsSet(credential: Option<string>) {
    credential.Some? && credential.value != ""
  }

  /** `all([app_id, devid, certid])`. */
  predicate CredentialsComplete(appId: Option<string>, devId: Option<string>, certId: Option<string>) {
    IsSet(appId) && IsSet(devId) && IsSet(certId)
  }

  /** The request `search_products` sends. */
  function SearchRequest(searchTerm: string, countryCode: string, maxResults: int): (req: EbayRequest)
    ensures req.keywords == searchTerm && req.locatedIn == countryCode
    ensures req.entriesPerPage == maxResults && req.pageNumber == 1
  {
    EbayRequest(searchTerm, maxResults, 1, ["SellerInfo", "PictureURLSuperSize"], countryCode)
  }

  /** One iteration of the item loop. The price is converted first, so an unparseable price
      raises out of the loop before either URL is looked at; then an item with a non-http(s)
      image or page link is skipped. */
  function EbayStep(item: EbayItem): Step {
    var price := if item.priceValue.Some? then ParseFloat(item.priceValue.value) else Some(0.0);
    if price.None? then Abort
    else if !HasHttpScheme(item.galleryURL) then Skip
    else if !HasHttpScheme(item.viewItemURL) then Skip
    else Emit(Product(
      "ebay_" + item.itemId.GetOr(""),
      item.title,
      price.value,
      item.currencyId.GetOr("USD"),
      "eBay",
      item.galleryURL,
      item.viewItemURL,
      None))
  }

  /** What `search_products` returns when the SDK answers `r`: [] when the call raised or
      when any item raised, otherwise the products of the loop. */
  function EbayResults(r: Response<EbayItem>): seq<Product> {
    match r
    case Failed => []
    case Items(items) => Outcome(items, EbayStep)
  }

  class EbaySearcher {
    const appId: string
    const devId: string
    const certId: string
    /** The Finding connection's `execute('findItemsAdvanced', ...)`. */
    const execute: EbayRequest -> Response<EbayItem>

    /** Stores the credentials and the connection built from them. */
    constructor(appId: string, devId: string, certId: string, execute: EbayRequest -> Response<EbayItem>)
      ensures this.appId == appId && this.devId == devId && this.certId == certId
      ensures this.execute == execute
    {
      this.appId := appId;
      this.devId := devId;
      this.certId := certId;
      this.execute := execute;
    }

    /** `search_products(search_term, country_code, currency, max_results)`; `currency` is
        accepted and not used. */
    method SearchProducts(searchTerm: string, countryCode: string, currency: string, maxResults: int)
      returns (products: seq<Product>)
      ensures products == EbayResults(execute(SearchRequest(searchTerm, countryCode, maxResults)))
    {
      var response := execute(SearchRequest(searchTerm, countryCode, maxResults));
      if response.Failed? {
        return [];
      }
      var items := response.items;
      products := [];
      for i := 0 to |items|
        invariant products == Collect(items[..i], EbayStep)
        invariant !Aborts(items[..i], EbayStep)
      {
        assert items[..i + 1][..i] == items[..i];
        AbortsConcat(items[..i], [items[i]], EbayStep);
        assert items[..i + 1] == items[..i] + [items[i]];
        var item := items[i];
        var price := 0.0;
        if item.priceValue.Some? {
          var parsed := ParseFloat(item.priceValue.value);
          if parsed.None? {
            assert EbayStep([item][0]).Abort?;
            AbortsPrefix(items[..i + 1], items, EbayStep);
            return [];
          }
          price := parsed.value;
        }
        var currencyId := item.currencyId.GetOr("USD");
        if !HasHttpScheme(item.galleryURL) {
          continue;
        }
        if !HasHttpScheme(item.viewItemURL) {
          continue;
        }
        var uniqueId := "ebay_" + item.itemId.GetOr("");
        products := products + [Product(uniqueId, item.title, price, currencyId, "eBay",
                                        item.galleryURL, item.viewItemURL, None)];
      }
      assert items[..|items|] == items;
    }
  }

  /** `EbaySearcher()`: None where the constructor raises ValueError because a credential
      is missing or empty; `connect` builds the Finding connection from the credentials. */
  method NewEbaySearcher(appId: Option<string>, devId: Option<string>, certId: Option<string>,
                         connect: (string, string, string) -> (EbayRequest -> Response<EbayItem>))
    returns (searcher: Option<EbaySearcher>)
    ensures searcher.None? <==> !CredentialsComplete(appId, devId, certId)
    ensures searcher.Some? ==>
      && fresh(searcher.value)
      && searcher.value.appId == appId.value
      && searcher.value.devId == devId.value
      && searcher.value.certId == certId.value
      && searcher.value.execute == connect(appId.value, devId.value, certId.value)
  {
    if !(IsSet(appId) && IsSet(devId) && IsSet(certId)) {
      return None;
    }
    var s := new EbaySearcher(appId.value, devId.value, certId.value,
                              connect(appId.value, devId.value, certId.value));
    return Some(s);
  }

  /** The shape of every product the adapter emits. */
  predicate EbayShaped(p: Product) {
    && ValidLinks(p)
    && StartsWith(p.id, "ebay_")
    && p.platform == "eBay"
    && p.condition.None?
  }

  /** Every eBay product has http(s) image and page links, an id starting with "ebay_" and
      the platform name. */
  lemma EbayResultsShaped(r: Response<EbayItem>)
    ensures forall k :: 0 <= k < |EbayResults(r)| ==> EbayShaped(EbayResults(r)[k])
  {
    if r.Items? && !Aborts(r.items, EbayStep) {
      forall i | 0 <= i < |r.items| && EbayStep(r.items[i]).Emit?
        ensures EbayShaped(EbayStep(r.items[i]).product)
      {
        var id := EbayStep(r.items[i]).product.id;
        assert id[..5] == "ebay_";
      }
      CollectAll(r.items, EbayStep, EbayShaped);
    }
  }

  /** An item is emitted exactly when its price converts and both of its links are
      http(s) URLs; the product then carries the id "ebay_" + itemId ("" when absent), the
      converted price unchanged, the item's currency (USD when absent) and its links. */
  lemma EbayStepSpec(item: EbayItem)
    ensures EbayStep(item).Emit? <==>
      (item.priceValue.None? || ParseFloat(item.priceValue.value).Some?) &&
      HasHttpScheme(item.galleryURL) && HasHttpScheme(item.viewItemURL)
    ensures EbayStep(item).Emit? ==>
      var p := EbayStep(item).product;
      && p.id == "ebay_" + (if item.itemId.Some? then item.itemId.value else "")
      && p.title == item.title
      && (item.priceValue.None? ==> p.price == 0.0)
      && (item.priceValue.Some? ==> ParseFloat(item.priceValue.value) == Some(p.price))
      && p.currency == (if item.currencyId.Some? then item.currencyId.value else "USD")
      && p.imageUrl == item.galleryURL && p.sourceLink == item.viewItemURL
  {
  }

  /** One price that does not convert empties the whole result, even on an item whose links
      would have had it skipped. */
  lemma EbayBadPriceEmptiesAll(items: seq<EbayItem>, i: nat)
    requires i < |items| && items[i].priceValue.Some? && ParseFloat(items[i].priceValue.value).None?
    ensures EbayResults(Items(items)) == []
  {
    assert EbayStep(items[i]).Abort?;
  }

  /** Without a price that fails to convert, a skipped item does not disturb its siblings:
      the output keeps the products of the other items in order, and is never longer than
      the list of items. */
  lemma EbaySkipIsLocal(a: seq<EbayItem>, bad: EbayItem, b: seq<EbayItem>)
    requires !Aborts(a + [bad] + b, EbayStep)
    requires !HasHttpScheme(bad.galleryURL) || !HasHttpScheme(bad.viewItemURL)
    ensures EbayResults(Items(a + [bad] + b)) == EbayResults(Items(a)) + EbayResults(Items(b))
    ensures |EbayResults(Items(a + [bad] + b))| <= |a| + |b|
  {
    var all := a + [bad] + b;
    assert all[|a|] == bad;
    assert !EbayStep(bad).Abort?;
    CollectSkip(a, bad, b, EbayStep);
  }
}
