/** The two web-search adapters of app.py: price extraction from result snippets, the
    per-item loop of the Google Custom Search adapter and that of the Bing Visual Search
    adapter. The HTTP calls are parameters from the request to the parsed response. */
module WebSearch {
  import opened Wrappers
  import opened Text
  import opened Numbers
  import opened Seqs
  import opened Catalog

  // ---------------------------------------------------------------------------
  // extract_price
  // ---------------------------------------------------------------------------

  /** Number of currency patterns tried, in order: rupee sign, INR, euro sign, EUR, pound
      sign, GBP, yen sign, JPY, dollar sign, USD. */
  const PricePatternCount: nat := 10

  /** The sanity range of a plausible price. */
  const MinPlausible: real := 100.0
  const MaxPlausible: real := 1000000.0

  predicate Plausible(x: real) { MinPlausible <= x <= MaxPlausible }

  predicate NotComma(c: char) { c != ',' }

  /** `float(match.replace(',', ''))`, None where it raises ValueError. */
  function AmountValue(capture: string): Option<real> {
    ParseFloat(Filter(capture, NotComma))
  }

  /** The captures of the first `n` patterns, pattern by pattern: `findAll(k, text)` is what
      `re.findall` returns for pattern `k`. */
  function Captures(text: string, findAll: (nat, string) -> seq<string>, n: nat): seq<string> {
    if n == 0 then [] else Captures(text, findAll, n - 1) + findAll(n - 1, text)
  }

  /** The list `prices` after the captures `cs` have been examined. */
  function PlausibleAmounts(cs: seq<string>): (r: seq<real>)
    ensures forall i :: 0 <= i < |r| ==> Plausible(r[i])
  {
    FlatMapAll(cs, Kept, Plausible);
    FlatMap(cs, Kept)
  }

  /** What one capture adds to `prices`. */
  function Kept(c: string): (r: seq<real>)
    ensures forall i :: 0 <= i < |r| ==> Plausible(r[i])
  {
    if PlausibleCapture(c) then [AmountValue(c).value] else []
  }

  /** What `extract_price` returns for the captures `cs`. */
  function BestPrice(cs: seq<string>): real {
    var ps := PlausibleAmounts(cs);
    if ps == [] then 0.0 else MaxOf(ps)
  }

  /** A capture whose comma-free amount parses to a plausible price. */
  predicate PlausibleCapture(c: string) {
    AmountValue(c).Some? && Plausible(AmountValue(c).value)
  }

  /** `extract_price(text)`. */
  method ExtractPrice(text: string, findAll: (nat, string) -> seq<string>) returns (price: real)
    ensures price == BestPrice(Captures(text, findAll, PricePatternCount))
  {
    var prices: seq<real> := [];
    for k := 0 to PricePatternCount
      invariant prices == PlausibleAmounts(Captures(text, findAll, k))
    {
      var matches := findAll(k, text);
      var kept := KeepPlausible(matches);
      PlausibleAmountsConcat(Captures(text, findAll, k), matches);
      prices := prices + kept;
    }
    if prices != [] {
      price := MaxOf(prices);
    } else {
      price := 0.0;
    }
  }

  /** The inner loop of `extract_price` over the matches of one pattern. */
  method KeepPlausible(matches: seq<string>) returns (kept: seq<real>)
    ensures kept == PlausibleAmounts(matches)
  {
    kept := [];
    for j := 0 to |matches|
      invariant kept == PlausibleAmounts(matches[..j])
    {
      PlausibleAmountsSnoc(matches[..j], matches[j]);
      assert matches[..j + 1] == matches[..j] + [matches[j]];
      var priceStr := Filter(matches[j], NotComma);
      var parsed := ParseFloat(priceStr);
      if parsed.Some? && MinPlausible <= parsed.value <= MaxPlausible {
        kept := kept + [parsed.value];
      }
    }
    assert matches[..|matches|] == matches;
  }

  /** One more capture examined. */
  lemma PlausibleAmountsSnoc(cs: seq<string>, c: string)
    ensures PlausibleAmounts(cs + [c]) == PlausibleAmounts(cs) + Kept(c)
  {
    FlatMapSnoc(cs, c, Kept);
  }

  /** An amount is kept exactly when some capture parses to it and it is plausible. */
  lemma PlausibleAmountsMember(cs: seq<string>, x: real)
    ensures x in PlausibleAmounts(cs) <==>
      exists i :: 0 <= i < |cs| && AmountValue(cs[i]) == Some(x) && Plausible(x)
  {
    FlatMapMember(cs, Kept, x);
    if x in PlausibleAmounts(cs) {
      var i :| 0 <= i < |cs| && x in Kept(cs[i]);
      assert AmountValue(cs[i]) == Some(x) && Plausible(x);
    }
    if exists i :: 0 <= i < |cs| && AmountValue(cs[i]) == Some(x) && Plausible(x) {
      var i :| 0 <= i < |cs| && AmountValue(cs[i]) == Some(x) && Plausible(x);
      assert x in Kept(cs[i]);
    }
  }

  /** The extracted price is 0.0 when no capture holds a plausible amount, and otherwise the
      largest plausible amount: it is one of the captured amounts, it lies in the sanity
      range, and no plausible capture exceeds it. */
  lemma BestPriceSpec(cs: seq<string>)
    ensures BestPrice(cs) == 0.0 <==> forall i :: 0 <= i < |cs| ==> !PlausibleCapture(cs[i])
    ensures BestPrice(cs) != 0.0 ==>
      (Plausible(BestPrice(cs)) && exists i :: 0 <= i < |cs| && AmountValue(cs[i]) == Some(BestPrice(cs)))
    ensures forall i :: 0 <= i < |cs| && PlausibleCapture(cs[i]) ==> AmountValue(cs[i]).value <= BestPrice(cs)
  {
    var ps := PlausibleAmounts(cs);
    forall i | 0 <= i < |cs| && PlausibleCapture(cs[i])
      ensures AmountValue(cs[i]).value in ps
    {
      PlausibleAmountsMember(cs, AmountValue(cs[i]).value);
    }
    if ps != [] {
      PlausibleAmountsMember(cs, MaxOf(ps));
      assert ps[0] in ps;
      PlausibleAmountsMember(cs, ps[0]);
    }
  }

  /** The kept amounts of two runs of captures are those of each run in turn. */
  lemma PlausibleAmountsConcat(a: seq<string>, b: seq<string>)
    ensures PlausibleAmounts(a + b) == PlausibleAmounts(a) + PlausibleAmounts(b)
  {
    FlatMapConcat(a, b, Kept);
  }

  /** The order in which the patterns are tried does not matter: the price extracted from
      two groups of captures is the larger of the prices extracted from each. */
  lemma BestPriceConcat(a: seq<string>, b: seq<string>)
    ensures BestPrice(a + b) == if BestPrice(a) >= BestPrice(b) then BestPrice(a) else BestPrice(b)
  {
    PlausibleAmountsConcat(a, b);
    BestPriceSpec(a);
    BestPriceSpec(b);
    BestPriceSpec(a + b);
    var pa, pb := PlausibleAmounts(a), PlausibleAmounts(b);
    if pa != [] {
      assert MaxOf(pa) in pa + pb;
      assert MaxOf(pa) >= MinPlausible;
    }
    if pb != [] {
      assert MaxOf(pb) in pa + pb;
      assert MaxOf(pb) >= MinPlausible;
    }
    if pa + pb != [] {
      var m := MaxOf(pa + pb);
      assert m in pa || m in pb;
    }
  }

  /** A capture of plain decimal digits is worth its number. */
  lemma AmountOfDigits(c: string, n: nat)
    requires Filter(c, NotComma) == NatToString(n)
    ensures AmountValue(c) == Some(n as real)
  {
    ParseIntToString(n);
  }

  /** Digits hold no comma. */
  lemma DigitsKept(c: string)
    requires AllDigits(c)
    ensures Filter(c, NotComma) == c
  {
    FilterAll(c, NotComma);
  }

  /** A lone amount below the sanity range, such as the 50 of "$50", gives 0.0. */
  lemma SmallAmountIgnored(cs: seq<string>)
    requires cs == ["50"]
    ensures BestPrice(cs) == 0.0
  {
    var c := cs[0];
    assert c == NatToString(50);
    DigitsKept(c);
    AmountOfDigits(c, 50);
    PlausibleAmountsSnoc([], c);
    assert cs == [] + [c];
  }

  /** A comma between two comma-free parts is dropped. */
  lemma CommaDropped(a: string, b: string)
    requires forall i :: 0 <= i < |a| ==> a[i] != ','
    requires forall i :: 0 <= i < |b| ==> b[i] != ','
    ensures Filter(a + [','] + b, NotComma) == a + b
  {
    FilterConcat(a + [','], b, NotComma);
    FilterConcat(a, [','], NotComma);
    FilterNone([','], NotComma);
    FilterAll(a, NotComma);
    FilterAll(b, NotComma);
    assert a + [] == a;
  }

  /** A thousands separator is ignored: "1,299" is worth 1299. */
  lemma ThousandsSeparator(c: string)
    requires c == "1,299"
    ensures AmountValue(c) == Some(1299.0)
  {
    var thousands, rest := c[..1], c[2..];
    assert c == thousands + [','] + rest;
    CommaDropped(thousands, rest);
    assert thousands + rest == NatToString(1299);
    AmountOfDigits(c, 1299);
  }

  /** The larger plausible amount wins: "1,299" and "500" give 1299.0. */
  lemma LargerAmountWins(cs: seq<string>)
    requires cs == ["1,299", "500"]
    ensures BestPrice(cs) == 1299.0
  {
    var c0, c1 := cs[0], cs[1];
    ThousandsSeparator(c0);
    assert c1 == NatToString(500);
    DigitsKept(c1);
    AmountOfDigits(c1, 500);
    PlausibleAmountsSnoc([], c0);
    PlausibleAmountsSnoc([c0], c1);
    assert cs == [] + [c0] + [c1];
    assert PlausibleAmounts(cs) == [1299.0, 500.0];
  }

  // ---------------------------------------------------------------------------
  // Google Custom Search: the item loop of fetch_google_custom_search
  // ---------------------------------------------------------------------------

  /** One entry of the response's `items`, with absent keys read as their defaults:
      `offerPrices` holds, for each element of `pagemap.offer` (empty when it is absent or
      not a list), its `price` entry if it has one; `productPrices` likewise for
      `pagemap.product`; `contextLink` is `image.contextLink`. */
  datatype GcsItem = GcsItem(
    title: string,
    link: string,
    snippet: string,
    offerPrices: seq<Option<string>>,
    productPrices: seq<Option<string>>,
    contextLink: string)

  /** The price read from the first element of a pagemap list: `float(price)`, and 0.0 when
      the list is empty, the element has no price, or the conversion fails. */
  function StructuredPrice(prices: seq<Option<string>>): real {
    if prices != [] && prices[0].Some? then
      match ParseFloat(prices[0].value)
      case Some(v) => v
      case None => 0.0
    else 0.0
  }

  /** The price of an item: the offer price, else the product price, else the price
      extracted from the snippet, each consulted only while the price is still 0.0. */
  function GcsPrice(it: GcsItem, findAll: (nat, string) -> seq<string>): real {
    var fromOffer := StructuredPrice(it.offerPrices);
    var fromProduct := if fromOffer == 0.0 then StructuredPrice(it.productPrices) else fromOffer;
    if fromProduct == 0.0 then BestPrice(Captures(it.snippet, findAll, PricePatternCount))
    else fromProduct
  }

  /** One iteration of the loop: skip an item whose page link or image link is not an
      absolute http(s) URL, otherwise append its product. */
  function GcsStep(it: GcsItem, hash: string -> int, findAll: (nat, string) -> seq<string>): Step {
    if !HasHttpScheme(it.contextLink) then Skip
    else if !HasHttpScheme(it.link) then Skip
    else Emit(Product(
      "gcs_" + IntToString(hash(it.contextLink)),
      it.title,
      GcsPrice(it, findAll),
      "INR",
      "Google Custom Search",
      it.link,
      it.contextLink,
      None))
  }

  function GcsStepOf(hash: string -> int, findAll: (nat, string) -> seq<string>): GcsItem -> Step {
    it => GcsStep(it, hash, findAll)
  }

  /** What `fetch_google_custom_search` returns for the response `r`. */
  function GcsResults(r: Response<GcsItem>, hash: string -> int, findAll: (nat, string) -> seq<string>): seq<Product> {
    match r
    case Failed => []
    case Items(items) => Collect(items, GcsStepOf(hash, findAll))
  }

  /** The structured price, case by case: the converted first entry when it is present and
      converts, and 0.0 when the list is empty, the entry has no price or it does not convert. */
  lemma StructuredPriceSpec(prices: seq<Option<string>>)
    ensures prices == [] || prices[0].None? ==> StructuredPrice(prices) == 0.0
    ensures prices != [] && prices[0].Some? && ParseFloat(prices[0].value).Some? ==>
      StructuredPrice(prices) == ParseFloat(prices[0].value).value
    ensures prices != [] && prices[0].Some? && ParseFloat(prices[0].value).None? ==>
      StructuredPrice(prices) == 0.0
  {
  }

  /** `float(price)` on a pagemap entry, 0.0 on failure. */
  method ReadStructuredPrice(prices: seq<Option<string>>) returns (price: real)
    ensures price == StructuredPrice(prices)
  {
    price := 0.0;
    if |prices| > 0 {
      var entry := prices[0];
      if entry.Some? {
        match ParseFloat(entry.value)
        case Some(v) => price := v;
        case None => price := 0.0;
      }
    }
  }

  /** `fetch_google_custom_search(search_term, ...)`: `search` performs the request. */
  method FetchGoogleCustomSearch(searchTerm: string, search: string -> Response<GcsItem>,
                                 hash: string -> int, findAll: (nat, string) -> seq<string>)
    returns (products: seq<Product>)
    ensures products == GcsResults(search(searchTerm), hash, findAll)
  {
    var response := search(searchTerm);
    if response.Failed? {
      return [];
    }
    var items := response.items;
    ghost var f := GcsStepOf(hash, findAll);
    products := [];
    for i := 0 to |items|
      invariant products == Collect(items[..i], f)
    {
      assert items[..i + 1][..i] == items[..i];
      var it := items[i];
      if !HasHttpScheme(it.contextLink) {
        continue;
      }
      var price := ReadStructuredPrice(it.offerPrices);
      if price == 0.0 {
        price := ReadStructuredPrice(it.productPrices);
      }
      if price == 0.0 {
        price := ExtractPrice(it.snippet, findAll);
      }
      if !HasHttpScheme(it.link) {
        continue;
      }
      var uniqueId := "gcs_" + IntToString(hash(it.contextLink));
      products := products + [Product(uniqueId, it.title, price, "INR", "Google Custom Search",
                                      it.link, it.contextLink, None)];
    }
    assert items[..|items|] == items;
  }

  /** The shape of every product the adapter emits. */
  predicate GcsShaped(p: Product, hash: string -> int) {
    && ValidLinks(p)
    && p.currency == "INR"
    && p.platform == "Google Custom Search"
    && p.id == "gcs_" + IntToString(hash(p.sourceLink))
    && p.condition.None?
  }

  /** Every emitted product has http(s) links, currency INR, the platform name and the id
      "gcs_" followed by the hash of its page link. */
  lemma GcsResultsShaped(r: Response<GcsItem>, hash: string -> int, findAll: (nat, string) -> seq<string>)
    ensures forall k :: 0 <= k < |GcsResults(r, hash, findAll)| ==> GcsShaped(GcsResults(r, hash, findAll)[k], hash)
  {
    if r.Items? {
      CollectAll(r.items, GcsStepOf(hash, findAll), p => GcsShaped(p, hash));
    }
  }

  /** An item is emitted exactly when both of its links are http(s) URLs, and then with the
      price chosen in the order offer, product, snippet. */
  lemma GcsStepSpec(it: GcsItem, hash: string -> int, findAll: (nat, string) -> seq<string>)
    ensures GcsStep(it, hash, findAll).Emit? <==> HasHttpScheme(it.contextLink) && HasHttpScheme(it.link)
    ensures GcsStep(it, hash, findAll).Emit? ==>
      var p := GcsStep(it, hash, findAll).product;
      && p.title == it.title && p.imageUrl == it.link && p.sourceLink == it.contextLink
      && (StructuredPrice(it.offerPrices) != 0.0 ==> p.price == StructuredPrice(it.offerPrices))
      && (StructuredPrice(it.offerPrices) == 0.0 && StructuredPrice(it.productPrices) != 0.0 ==>
            p.price == StructuredPrice(it.productPrices))
      && (StructuredPrice(it.offerPrices) == 0.0 && StructuredPrice(it.productPrices) == 0.0 ==>
            p.price == BestPrice(Captures(it.snippet, findAll, PricePatternCount)))
  {
  }

  /** A skipped item does not disturb its siblings: the products of the items before it and
      after it are all still emitted, in order. */
  lemma GcsSkipIsLocal(r: Response<GcsItem>, a: seq<GcsItem>, bad: GcsItem, b: seq<GcsItem>,
                       hash: string -> int, findAll: (nat, string) -> seq<string>)
    requires r == Items(a + [bad] + b)
    requires !HasHttpScheme(bad.contextLink) || !HasHttpScheme(bad.link)
    ensures GcsResults(r, hash, findAll) == GcsResults(Items(a), hash, findAll) + GcsResults(Items(b), hash, findAll)
  {
    var f := GcsStepOf(hash, findAll);
    assert f(bad).Skip?;
    CollectSkip(a, bad, b, f);
  }

  // ---------------------------------------------------------------------------
  // Bing Visual Search: the item loop of fetch_bing_similar_products
  // ---------------------------------------------------------------------------

  /** One entry of an action's `data.items`; `price` is None when the key is absent or
      null. */
  datatype BingItem = BingItem(name: string, hostPageUrl: string, price: Option<string>, thumbnailUrl: string)

  /** One entry of a tag's `actions`. */
  datatype BingAction = BingAction(actionType: string, items: seq<BingItem>)

  /** One entry of the response's `tags`. */
  datatype BingTag = BingTag(actions: seq<BingAction>)

  const ProductVisualSearch: string := "ProductVisualSearch"

  /** The items of the product-search actions among `actions`, in order. */
  function ActionItems(actions: seq<BingAction>): seq<BingItem>
    decreases |actions|
  {
    if actions == [] then []
    else
      var last := actions[|actions| - 1];
      ActionItems(actions[..|actions| - 1]) + if last.actionType == ProductVisualSearch then last.items else []
  }

  /** The items the nested loops visit, in order. */
  function TagItems(tags: seq<BingTag>): seq<BingItem>
    decreases |tags|
  {
    if tags == [] then [] else TagItems(tags[..|tags| - 1]) + ActionItems(tags[|tags| - 1].actions)
  }

  /** `https://` is added to a page URL without an http(s) scheme. */
  function BingSourceLink(host: string): (link: string)
    ensures HasHttpScheme(link)
    ensures HasHttpScheme(host) ==> link == host
  {
    if HasHttpScheme(host) then host
    else
      assert ("https://" + host)[..8] == "https://";
      "https://" + host
  }

  /** One iteration: a present, non-empty price that `float` rejects raises out of the
      whole loop; otherwise the item is appended, with no link check on the thumbnail. */
  function BingStep(it: BingItem): Step {
    var price: Option<real> :=
      if it.price.Some? && it.price.value != "" then ParseFloat(it.price.value) else Some(0.0);
    if price.None? then Abort
    else Emit(Product(
      it.hostPageUrl,
      it.name,
      price.value,
      "USD",
      "Bing Visual Search",
      it.thumbnailUrl,
      BingSourceLink(it.hostPageUrl),
      None))
  }

  /** What `fetch_bing_similar_products` returns for the response `r`. */
  function BingResults(r: Response<BingTag>): seq<Product> {
    match r
    case Failed => []
    case Items(tags) => Outcome(TagItems(tags), BingStep)
  }

  /** `fetch_bing_similar_products(image_path, ...)`: `visualSearch` uploads the image and
      returns the parsed `tags`. */
  method FetchBingSimilarProducts(imagePath: string, visualSearch: string -> Response<BingTag>)
    returns (products: seq<Product>)
    ensures products == BingResults(visualSearch(imagePath))
  {
    var response := visualSearch(imagePath);
    if response.Failed? {
      return [];
    }
    var tags := response.items;
    products := [];
    for i := 0 to |tags|
      invariant products == Collect(TagItems(tags[..i]), BingStep)
      invariant !Aborts(TagItems(tags[..i]), BingStep)
    {
      TagItemsSnoc(tags, i);
      ghost var done := TagItems(tags[..i]);
      var found, raised := ParseBingActions(tags[i].actions);
      CollectConcat(done, ActionItems(tags[i].actions), BingStep);
      AbortsConcat(done, ActionItems(tags[i].actions), BingStep);
      if raised {
        TagItemsPrefix(tags, i + 1);
        AbortsPrefix(TagItems(tags[..i + 1]), TagItems(tags), BingStep);
        return [];
      }
      products := products + found;
    }
    assert tags[..|tags|] == tags;
  }

  /** The loop over one tag's actions, descending into the product-search ones. */
  method ParseBingActions(actions: seq<BingAction>) returns (found: seq<Product>, raised: bool)
    ensures raised == Aborts(ActionItems(actions), BingStep)
    ensures !raised ==> found == Collect(ActionItems(actions), BingStep)
  {
    found := [];
    for j := 0 to |actions|
      invariant found == Collect(ActionItems(actions[..j]), BingStep)
      invariant !Aborts(ActionItems(actions[..j]), BingStep)
    {
      ActionItemsSnoc(actions, j);
      ghost var seen := ActionItems(actions[..j]);
      var act := actions[j];
      if act.actionType == ProductVisualSearch {
        var more, failed := ParseBingItems(act.items);
        CollectConcat(seen, act.items, BingStep);
        AbortsConcat(seen, act.items, BingStep);
        if failed {
          ActionItemsPrefix(actions, j + 1);
          AbortsPrefix(ActionItems(actions[..j + 1]), ActionItems(actions), BingStep);
          return [], true;
        }
        found := found + more;
      } else {
        assert ActionItems(actions[..j + 1]) == seen;
      }
    }
    assert actions[..|actions|] == actions;
    raised := false;
  }

  /** The innermost loop of `fetch_bing_similar_products`, over the items of one
      product-search action; `raised` reports that `float` rejected a price. */
  method ParseBingItems(items: seq<BingItem>) returns (found: seq<Product>, raised: bool)
    ensures raised == Aborts(items, BingStep)
    ensures !raised ==> found == Collect(items, BingStep)
  {
    found := [];
    for k := 0 to |items|
      invariant found == Collect(items[..k], BingStep)
      invariant !Aborts(items[..k], BingStep)
    {
      assert items[..k + 1] == items[..k] + [items[k]];
      assert items[..k + 1][..k] == items[..k];
      AbortsConcat(items[..k], [items[k]], BingStep);
      var item := items[k];
      var hostPageUrl := item.hostPageUrl;
      var sourceLink := if HasHttpScheme(hostPageUrl) then hostPageUrl else "https://" + hostPageUrl;
      var price := 0.0;
      if item.price.Some? && item.price.value != "" {
        var parsed := ParseFloat(item.price.value);
        if parsed.None? {
          assert BingStep([item][0]).Abort?;
          AbortsPrefix(items[..k + 1], items, BingStep);
          return [], true;
        }
        price := parsed.value;
      }
      found := found + [Product(hostPageUrl, item.name, price, "USD", "Bing Visual Search",
                                item.thumbnailUrl, sourceLink, None)];
    }
    assert items[..|items|] == items;
    raised := false;
  }

  lemma ActionItemsSnoc(actions: seq<BingAction>, j: nat)
    requires j < |actions|
    ensures ActionItems(actions[..j + 1]) == ActionItems(actions[..j]) +
      if actions[j].actionType == ProductVisualSearch then actions[j].items else []
  {
    assert actions[..j + 1][..j] == actions[..j];
  }

  lemma TagItemsSnoc(tags: seq<BingTag>, i: nat)
    requires i < |tags|
    ensures TagItems(tags[..i + 1]) == TagItems(tags[..i]) + ActionItems(tags[i].actions)
  {
    assert tags[..i + 1][..i] == tags[..i];
  }

  lemma {:induction false} ActionItemsPrefix(actions: seq<BingAction>, n: nat)
    requires n <= |actions|
    ensures ActionItems(actions[..n]) <= ActionItems(actions)
    decreases |actions| - n
  {
    if n < |actions| {
      ActionItemsPrefix(actions, n + 1);
      assert actions[..n + 1][..n] == actions[..n];
    } else {
      assert actions[..n] == actions;
    }
  }

  lemma {:induction false} TagItemsPrefix(tags: seq<BingTag>, n: nat)
    requires n <= |tags|
    ensures TagItems(tags[..n]) <= TagItems(tags)
    decreases |tags| - n
  {
    if n < |tags| {
      TagItemsPrefix(tags, n + 1);
      assert tags[..n + 1][..n] == tags[..n];
    } else {
      assert tags[..n] == tags;
    }
  }

  /** The shape of every product the Bing adapter emits. */
  predicate BingShaped(p: Product) {
    && HasHttpScheme(p.sourceLink)
    && p.sourceLink == BingSourceLink(p.id)
    && p.currency == "USD"
    && p.platform == "Bing Visual Search"
    && p.condition.None?
  }

  /** Every Bing product has an http(s) source link (the page URL, with "https://" added when
      it has no scheme), currency USD and the page URL as its id. The thumbnail link is not
      checked. */
  lemma BingResultsShaped(r: Response<BingTag>)
    ensures forall k :: 0 <= k < |BingResults(r)| ==> BingShaped(BingResults(r)[k])
  {
    if r.Items? && !Aborts(TagItems(r.items), BingStep) {
      CollectAll(TagItems(r.items), BingStep, BingShaped);
    }
  }

  /** One unparseable price anywhere in the response empties the whole result; without one,
      every visited item gives exactly one product, in order. */
  lemma BingAllOrNothing(tags: seq<BingTag>)
    ensures Aborts(TagItems(tags), BingStep) ==> BingResults(Items(tags)) == []
    ensures !Aborts(TagItems(tags), BingStep) ==>
      |BingResults(Items(tags))| == |TagItems(tags)| &&
      forall i :: 0 <= i < |TagItems(tags)| ==>
        BingResults(Items(tags))[i] == BingStep(TagItems(tags)[i]).product
  {
    var items := TagItems(tags);
    if !Aborts(items, BingStep) {
      forall i | 0 <= i < |items| ensures BingStep(items[i]).Emit? {
      }
      CollectEveryItem(items, BingStep);
    }
  }
}
