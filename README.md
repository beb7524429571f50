# AI Visual Product Search: the result-aggregation pipeline in Dafny

The backend takes a product photo and returns a ranked list of products to buy. Its core
steps are these:

- **Term selection.** Google Cloud Vision detections (web best-guess labels, web entities,
  localized objects, labels) become a short list of search terms. The terms are split into
  category and attribute terms, with a boolean confidence.
- **Term cleaning.** Each term is cleaned into a search query.
- **Querying.** The first query goes to Google Custom Search. A separately chosen term goes
  to the eBay Finding API.
- **Result mapping.** Each provider's items become one product record: links are validated,
  a price is chosen, and the id is namespaced by provider.
- **Aggregation.** The merged list is de-duplicated on a four-part key and scored by how
  many detected terms occur in each title. It is then sorted stably by descending score and
  cut to twenty, with a count of the full list.

This project models that core and proves its properties:

- `utils.py`: `clean_search_term`, `extract_brand_model`, `clean_price`.
- The term-selection part of `analyze_image_with_vision`.
- `extract_price`.
- The item loops of the Google Custom Search and Bing Visual Search adapters.
- `scrapers.py`: the eBay credential check and `search_products`.
- The body of `ImageAnalysis.post` that aggregates the results.

Each Python step that works by updating lists in a loop is a Dafny `method` with a loop.
Each such method is proved equal to a specification function, and the properties are lemmas
about that function. The modules are:

- `Wrappers` (Option), `Text` (ASCII characters, lower-casing, `str.split`, `in` on
  strings), `Numbers` (decimal printing and Python's `float()` on decimal strings) and
  `Seqs` (filter, key de-duplication, a stable descending sort, `max`, `sum`, slicing):
  generic helpers.
- `Catalog`: the product record, the link check, and the per-item adapter loop shape.
  That loop skips, appends, or raises out of the loop.
- `Utils`: `utils.py`.
- `Vision`: term selection.
- `WebSearch`: price extraction and the Google Custom Search and Bing adapters.
- `Scrapers`: the eBay adapter, with `EbaySearcher` as a class.
- `Analysis`: the aggregation.

Where the system's own description and the code disagree, the model follows the code:

- **The end-to-end example scores 8, not 5.** The description says a result titled
  "Red Sneaker Pro" scores 5 for the search term "Red Sneaker" and the category term
  "sneaker". The scorer adds 3 for every category term found in the title, and "sneaker"
  is found, so the score is 8. The order and the count of 2 are as described
  (`Analysis.RespondScenario`).
- **No currency conversion.** Prices are described as normalized to a target currency.
  The code converts nothing: eBay prices keep the item's currency (USD when absent), GCS
  prices are labelled INR, and Bing prices are labelled USD.
- **The providers are called in sequence.** The description says the provider adapters run
  in parallel. The handler awaits GCS, then eBay, and never calls the Bing adapter.
- **eBay may get a different term.** A code comment says eBay uses the same primary term
  as Google Custom Search. It does not: eBay gets the cleaned *first* search term, or
  "Shoe" when that cleans to "". Google gets the first term that survives cleaning
  (`Analysis.EbayTermMayDiffer`).
- **Bing does not check image links.** The Bing adapter neither checks nor skips on the
  thumbnail URL. It adds "https://" to a page URL that has no scheme, and an unparseable
  price makes the whole call return [].

## Model

All source paths below are relative to the repository root.

| member | source | states |
|---|---|---|
| Utils.CleanSearchTerm | AI-Visual-Product-Search--backend/utils.py:6-30 | `clean_search_term` never returns an overly generic phrase (shoe, sneaker, trainer, phone); its shape is given by `Utils.CleanSearchTermWords` |
| Utils.CleanSearchTermWords | AI-Visual-Product-Search--backend/utils.py:12-28 | The cleaned term is never shoe/sneaker/trainer/phone. It is "" exactly when no specific word survives or the phrase is overly generic. Otherwise it is one or two lower-case word-character words, not object/product/item/thing, joined by one space: the first two surviving words in order |
| Utils.SpecificWordsAreClean | AI-Visual-Product-Search--backend/utils.py:12-21 | Every word left after punctuation stripping, splitting and generic-word removal is lower-case, made of word characters, and not a generic word |
| Utils.CleanSearchTermIdempotent | AI-Visual-Product-Search--backend/utils.py:15-30 | Cleaning an already cleaned term returns it unchanged |
| Utils.ExNike | AI-Visual-Product-Search--backend/utils.py:18-24 | "Nike Air Max Running" cleans to "nike air" (first two words) |
| Utils.ExRed | AI-Visual-Product-Search--backend/utils.py:24-30 | "Red Sneaker" cleans to "red sneaker": the overly-generic check applies to the whole phrase after truncation |
| Utils.ExProduct | AI-Visual-Product-Search--backend/utils.py:12-24 | "Product Item" cleans to "" because both words are generic |
| Utils.ExSneaker | AI-Visual-Product-Search--backend/utils.py:27-28 | "Sneaker" cleans to "" |
| Utils.ExShoe | AI-Visual-Product-Search--backend/utils.py:27-28 | "Shoe" cleans to "" |
| Utils.ExObject | AI-Visual-Product-Search--backend/utils.py:21-28 | "Object Shoe" cleans to "": the generic word goes first, then the lone "shoe" is rejected |
| Utils.ExtractBrandModel | AI-Visual-Product-Search--backend/utils.py:32-46 | Returns None iff no label or entity mentions one of the seven brands (case-insensitive substring). Otherwise returns, unmodified, the first element of labels + entities that mentions one |
| Utils.CleanPrice | AI-Visual-Product-Search--backend/utils.py:48-54 | The cleaned price is never negative ('-' is stripped, failures give 0.0) |
| Utils.CleanPriceAccepts | AI-Visual-Product-Search--backend/utils.py:50-54 | With at least one digit and at most one '.' among the kept characters, the result is their decimal value; otherwise it is 0.0 |
| Utils.CleanPriceOfLabelledAmount | AI-Visual-Product-Search--backend/scrapers.py:12-17 | The scrapers.py copy is the same function: currency text before and after an amount is dropped, so label + digits of n + suffix gives n |
| Numbers.ParseFloat | AI-Visual-Product-Search--backend/app.py:260 | `float()` of text without a leading minus, when it succeeds, is never negative; what it accepts is given by `Numbers.ParseUnsignedAccepts` |
| Numbers.ParseUnsignedAccepts | AI-Visual-Product-Search--backend/app.py:260 | On text made of digits and points, `float()` succeeds exactly when there is at least one digit and at most one point |
| Numbers.ParseIntToString | AI-Visual-Product-Search--backend/app.py:260 | `float()` of a printed integer is that integer (the parser's round trip) |
| Vision.SelectTerms | AI-Visual-Product-Search--backend/app.py:112-175 | The selection code computes exactly the vision result function: prioritized candidates, case-insensitive dedup, first five terms, category/attribute split, confidence |
| Vision.CollectCandidates | AI-Visual-Product-Search--backend/app.py:112-147 | The four append loops produce best guesses (score 0.9), then the top-two entities above 0.7, then objects above 0.7, then the top-two labels above 0.8 |
| Vision.AppendAbove | AI-Visual-Product-Search--backend/app.py:136-139 | Appends exactly the detections whose score exceeds the threshold, in order |
| Vision.DedupCandidates | AI-Visual-Product-Search--backend/app.py:149-158 | The `seen` loop keeps the first candidate of each lower-cased text, with its score |
| Vision.CandidatesSpec | AI-Visual-Product-Search--backend/app.py:115-147 | The best guesses come first, in order, each with score 0.9. The object group is exactly the detected objects above 0.7. At most two entities and two labels are taken, each above its threshold |
| Vision.TopTwoSpec | AI-Visual-Product-Search--backend/app.py:125-133 | Sorting the entities by score is a permutation, and no entity left out of the top two outscores one kept. Every kept entity is an input entity with score > 0.7 |
| Vision.SearchTermsDistinct | AI-Visual-Product-Search--backend/app.py:149-172 | At most five search terms, pairwise distinct under lower-casing |
| Vision.SearchTermsFirstSeen | AI-Visual-Product-Search--backend/app.py:153-172 | Each search term is the original text of the first candidate with its lower-cased form, terms are in first-seen order, and there are exactly min(5, number of distinct lower-cased candidates) of them |
| Vision.EveryCandidateRepresented | AI-Visual-Product-Search--backend/app.py:153-158 | Every candidate's lower-cased text is among the de-duplicated terms |
| Vision.CategorySplit | AI-Visual-Product-Search--backend/app.py:163-165 | Category and attributes partition the de-duplicated terms in order. A term is a category term iff its lower-case form contains shirt/shoe/dress/watch/phone |
| Vision.ConfidentSpec | AI-Visual-Product-Search--backend/app.py:160-166 | The mean exceeds 0.8 iff the list is non-empty and the sum exceeds 0.8 times the length. All scores above 0.8 gives true, and all scores at most 0.8 gives false |
| Vision.ConfidenceSpec | AI-Visual-Product-Search--backend/app.py:160-174 | Both confidence flags are the mean-above-0.8 test of the kept scores, and false when nothing survives |
| Vision.NoSearchTermsNoCategory | AI-Visual-Product-Search--backend/app.py:163-172 | No search term implies no category and no attribute term |
| WebSearch.ExtractPrice | AI-Visual-Product-Search--backend/app.py:234-277 | The two loops compute the best plausible price of the captures of the ten patterns, taken in order |
| WebSearch.KeepPlausible | AI-Visual-Product-Search--backend/app.py:257-268 | The inner loop appends, for each capture, its comma-free value if it parses and lies in [100, 1000000] |
| WebSearch.PlausibleAmountsMember | AI-Visual-Product-Search--backend/app.py:257-263 | An amount is kept iff some capture parses to it and it is in [100, 1000000] |
| WebSearch.BestPriceSpec | AI-Visual-Product-Search--backend/app.py:262-277 | The result is 0.0 iff no capture gives a plausible amount. Otherwise it is a plausible capture's value and at least every plausible capture's value |
| WebSearch.BestPriceConcat | AI-Visual-Product-Search--backend/app.py:255-274 | The price over the captures of two pattern groups is the larger of the two groups' prices |
| WebSearch.SmallAmountIgnored | AI-Visual-Product-Search--backend/app.py:262-277 | A text whose only capture is "50" (e.g. "$50") gives 0.0 |
| WebSearch.ThousandsSeparator | AI-Visual-Product-Search--backend/app.py:258-260 | The capture "1,299" is read as 1299 |
| WebSearch.LargerAmountWins | AI-Visual-Product-Search--backend/app.py:270-274 | With the captures "1,299" and "500" the larger, 1299, is returned |
| WebSearch.ReadStructuredPrice | AI-Visual-Product-Search--backend/app.py:316-335 | The conversion computes the structured price of the pagemap list, whose cases the next row states |
| WebSearch.StructuredPriceSpec | AI-Visual-Product-Search--backend/app.py:316-335 | The price is `float(price)` of the first pagemap entry when it is present and converts, and 0.0 when the list is empty, the entry has no price or the conversion fails |
| WebSearch.FetchGoogleCustomSearch | AI-Visual-Product-Search--backend/app.py:299-363 | The item loop returns the products of the items, in order, with skipped items left out; a failed request gives [] |
| WebSearch.GcsStepSpec | AI-Visual-Product-Search--backend/app.py:309-351 | An item is emitted iff its page link and image link are both http(s). Its price is the offer price, else the product price if the offer gave 0.0, else the snippet price if both gave 0.0 |
| WebSearch.GcsResultsShaped | AI-Visual-Product-Search--backend/app.py:343-362 | Every GCS product has http(s) links, currency INR, the platform name and id "gcs_" + hash of its page link |
| WebSearch.GcsSkipIsLocal | AI-Visual-Product-Search--backend/app.py:309-345 | A skipped item leaves the products of the items before and after it unchanged and in order |
| WebSearch.BingSourceLink | AI-Visual-Product-Search--backend/app.py:210 | The source link always has an http(s) scheme, and is the page URL itself when that already has one |
| WebSearch.FetchBingSimilarProducts | AI-Visual-Product-Search--backend/app.py:201-228 | Returns the products of the product-search items of all tags in order, or [] when the request fails or any item's price raises |
| WebSearch.ParseBingActions | AI-Visual-Product-Search--backend/app.py:204-220 | The action loop raises iff some product-search item raises. Otherwise it returns those items' products in order |
| WebSearch.ParseBingItems | AI-Visual-Product-Search--backend/app.py:207-220 | The item loop raises iff some item's non-empty price does not parse. Otherwise it returns one product per item |
| WebSearch.BingResultsShaped | AI-Visual-Product-Search--backend/app.py:208-219 | Every Bing product has an http(s) source link derived from its id (the page URL), currency USD and the Bing platform name |
| WebSearch.BingAllOrNothing | AI-Visual-Product-Search--backend/app.py:207-228 | One failing price empties the result. Without one, every visited item gives exactly one product, in order |
| Scrapers.SearchRequest | AI-Visual-Product-Search--backend/scrapers.py:31-44 | The request carries the keywords, the country filter, page size max_results and page 1 |
| Scrapers.EbaySearcher.constructor | AI-Visual-Product-Search--backend/scrapers.py:20-27 | Stores the three credentials and the connection built from them |
| Scrapers.NewEbaySearcher | AI-Visual-Product-Search--backend/scrapers.py:20-27 | Construction fails (ValueError) iff a credential is missing or empty. Otherwise a fresh searcher holds the credentials |
| Scrapers.EbaySearcher.SearchProducts | AI-Visual-Product-Search--backend/scrapers.py:29-87 | Returns the products of the items in order with skipped items left out, and [] when the call fails or any price raises |
| Scrapers.EbayStepSpec | AI-Visual-Product-Search--backend/scrapers.py:48-75 | An item is emitted iff its price converts and both links are http(s). The product has id "ebay_" + itemId ("" when absent), the parsed price unconverted, and the currency (USD when absent) |
| Scrapers.EbayResultsShaped | AI-Visual-Product-Search--backend/scrapers.py:54-75 | Every eBay product has http(s) links, an id starting "ebay_" and platform eBay |
| Scrapers.EbayBadPriceEmptiesAll | AI-Visual-Product-Search--backend/scrapers.py:51-87 | One unparseable price makes the whole result [], even on an item that would have been skipped |
| Scrapers.EbaySkipIsLocal | AI-Visual-Product-Search--backend/scrapers.py:54-60 | A skipped item leaves the other items' products in order, and the output is never longer than the input |
| Analysis.AppendQueries | AI-Visual-Product-Search--backend/app.py:576-584 | Each loop appends the cleaned form of each term when non-empty and not yet present |
| Analysis.BuildSearchQueries | AI-Visual-Product-Search--backend/app.py:573-584 | The query list is that of the search terms followed by the category terms |
| Analysis.QueriesMember | AI-Visual-Product-Search--backend/app.py:576-584 | A string is a query iff it is non-empty and the cleaned form of some term |
| Analysis.QueriesDistinct | AI-Visual-Product-Search--backend/app.py:578-583 | No query appears twice |
| Analysis.QueriesPrefix | AI-Visual-Product-Search--backend/app.py:576-584 | Later terms only append queries; earlier queries keep their places |
| Analysis.QueriesHead | AI-Visual-Product-Search--backend/app.py:586-589 | The queried term is the cleaned form of the first term whose cleaned form is non-empty |
| Analysis.EbaySearchTerm | AI-Visual-Product-Search--backend/app.py:603-613 | The eBay term is never empty. It is "Shoe", or the cleaned first search term, or (with no search terms) the cleaned first category term. It is exactly the cleaned first search term when that is non-empty, and, with no search terms, exactly the cleaned first category term when that is non-empty |
| Analysis.EbayTermMatchesQuery | AI-Visual-Product-Search--backend/app.py:586-613 | When the first search term survives cleaning, eBay gets the same term as Google Custom Search |
| Analysis.EbayTermMayDiffer | AI-Visual-Product-Search--backend/app.py:586-613 | With the terms "Shoe", "Red Sneaker" Google gets "red sneaker" and eBay gets "Shoe" |
| Analysis.EbayTermOfVision | AI-Visual-Product-Search--backend/app.py:603-613 | On vision output with no search terms the category branch cannot apply, and eBay gets "Shoe" |
| Analysis.DeduplicateResults | AI-Visual-Product-Search--backend/app.py:628-639 | The `seen` loop keeps the first result of each (lower title, price, id, platform) key |
| Analysis.DedupResultsSpec | AI-Visual-Product-Search--backend/app.py:628-639 | Kept keys are pairwise distinct and every input key is kept. Each kept result is the first of its key, in input order |
| Analysis.DedupResultsFromInput | AI-Visual-Product-Search--backend/app.py:628-639 | Every kept result is an input result |
| Analysis.DifferentPlatformsBothKept | AI-Visual-Product-Search--backend/app.py:630-635 | Two results differing only in platform are both kept |
| Analysis.SameKeyCollapsed | AI-Visual-Product-Search--backend/app.py:630-639 | Two results with the same key collapse to the first |
| Analysis.RelevanceScore | AI-Visual-Product-Search--backend/app.py:642-658 | The score is at least 0 and at most 5 per search term + 3 per category term + 1 per attribute + 0.5 |
| Analysis.RelevanceZero | AI-Visual-Product-Search--backend/app.py:642-658 | The score is 0 exactly when no search, category or attribute term occurs in the title (ignoring case) and the condition does not mention "new" |
| Analysis.RelevanceWeights | AI-Visual-Product-Search--backend/app.py:646-654 | Adding a term found in the title adds exactly 5 (search term), 3 (category) or 1 (attribute); adding one not found adds nothing |
| Analysis.RelevanceConditionBonus | AI-Visual-Product-Search--backend/app.py:656-657 | A condition containing "new" adds exactly 0.5 |
| Analysis.AddMatches | AI-Visual-Product-Search--backend/app.py:646-654 | Each term loop adds its weight once per term contained in the lower-cased title |
| Analysis.ScoreResult | AI-Visual-Product-Search--backend/app.py:643-658 | The loop body computes the relevance score of one result |
| Analysis.ScoreResults | AI-Visual-Product-Search--backend/app.py:641-659 | Scoring pairs every kept result with its score, in order |
| Analysis.ScoreAllScores | AI-Visual-Product-Search--backend/app.py:658-659 | Each scored entry carries its own result's relevance score |
| Analysis.SearchGoogle | AI-Visual-Product-Search--backend/app.py:570-595 | Google Custom Search is asked for the first query only, and nothing is fetched with no query |
| Analysis.SearchEbay | AI-Visual-Product-Search--backend/app.py:598-624 | eBay is asked for the eBay term in IN with ten results when all credentials are set, and contributes nothing otherwise |
| Analysis.RankResults | AI-Visual-Product-Search--backend/app.py:627-691 | De-duplicate, score, sort descending, return the first twenty and the full count |
| Analysis.AnalyzeImage | AI-Visual-Product-Search--backend/app.py:568-692 | The handler's steps compute the pipeline function on the vision result: GCS results first, then eBay's, then ranking |
| Analysis.RespondRanked | AI-Visual-Product-Search--backend/app.py:661-691 | The ranked list is a permutation of the scored list, non-increasing in score, with equal scores in de-duplicated order. Products are its first ≤ 20 entries and the count is its full length |
| Analysis.RespondTopScores | AI-Visual-Product-Search--backend/app.py:661-690 | Returned products are sorted. Together with the cut-off tail they are a permutation of the scored list, and no cut-off result outscores a returned one |
| Analysis.RespondScoresAndKeys | AI-Visual-Product-Search--backend/app.py:628-690 | Returned products have pairwise distinct keys, each carries its own relevance score, and each comes from the merged provider results |
| Analysis.PipelineLinksValid | AI-Visual-Product-Search--backend/app.py:568-692 | Every returned product has http(s) links and comes from Google Custom Search or eBay |
| Analysis.RedProScore | AI-Visual-Product-Search--backend/app.py:642-658 | "Red Sneaker Pro" with search term "Red Sneaker" and category "sneaker" scores 8 |
| Analysis.BlueScore | AI-Visual-Product-Search--backend/app.py:642-658 | "Blue Sandals" with the same terms scores 0 |
| Analysis.RespondScenario | AI-Visual-Product-Search--backend/app.py:627-691 | Those two results, from either provider order, come back as Red Sneaker Pro (8) then Blue Sandals (0), with count 2 |

## Left out

- **Network and SDK calls.** The aiohttp requests and the eBay SDK connection are
  function parameters, from request to parsed response. Any exception such a call raises
  is the response `Failed`.
- **Vision calls.** The Vision detections (best guesses, web entities, objects, labels)
  are an input value, not a call. A Vision failure is not modelled: it raises out of the
  detection step and ends the request with an error response (app.py:699-700).
- **Other I/O.** Saving and deleting the upload, environment variables (credentials are
  parameters), logging, and the HTTP status and message are not modelled.
- **Outside the pipeline.** Flask routing, CORS, JWT, login, registration and the MongoDB
  wishlist are outside the pipeline.
- **Regular expressions.** The regex engine in `extract_price` is abstract. `findAll(k,
  text)` stands for the captures of the k-th of the ten currency patterns. No claim is made
  that discount amounts are excluded: the lookaheads do not achieve that.
- **Python's `hash()`.** It is an uninterpreted parameter; the GCS id is "gcs_" followed by
  its decimal value.
- **Python's `float()`.** It is modelled on an optional sign, digits and at most one '.'
  with at least one digit. Whitespace, exponents, underscores, "inf" and "nan" are not
  accepted.
- **Number representation.** Prices and scores are exact reals, so IEEE rounding is not
  modelled. Bing's default price `0` (an int in Python, app.py:211) is the real 0.0.
- **Character set.** Lower-casing and word characters are ASCII only.
- **Dictionary fields.** Product dictionaries are records with fixed fields. The
  field-default loop at app.py:674-681 therefore changes nothing and is not modelled. A
  GCS `pagemap` entry that is not a list counts as an empty list, and an `image` value
  that is not a dictionary is not modelled.
- **Exceptions in the GCS loop.** An exception raised inside the GCS item loop (a
  malformed item type) is not modelled. The eBay and Bing loops do model a failing price,
  which empties the result.
- **Detected terms.** `detected_terms` and `confidence_scores` are one list of (text,
  score) pairs. A missing entity score counts as 0.
- **Sort algorithm.** Python's `sorted` is modelled by an insertion sort with the same
  stable, descending result.
- **The results list.** Scoring builds new scored records rather than writing
  `relevance_score` into the shared dictionaries. Only the returned values are compared.
