/** The body of `ImageAnalysis.post` in app.py: from the vision result to the ranked
    product list. It builds the Google Custom Search queries and the eBay term, fetches from
    both providers, removes duplicate results, scores each one against the detected terms,
    sorts by score and truncates to twenty. Saving and deleting the upload, logging and the
    HTTP response wrapper are left out; the provider calls are function parameters. */
module Analysis {
  import opened Wrappers
  import opened Text
  import opened Seqs
  import opened Catalog
  import opened Utils
  import opened Vision
  import opened WebSearch
  import opened Scrapers

  // ---------------------------------------------------------------------------
  // Search queries
  // ---------------------------------------------------------------------------

  /** The query list built from `terms`: each term is cleaned, and a cleaned term is
      appended when it is non-empty and not already in the list. */
  function QueriesFrom(terms: seq<string>): seq<string>
    decreases |terms|
  {
    if terms == [] then []
    else
      var q := QueriesFrom(terms[..|terms| - 1]);
      var c := CleanSearchTerm(terms[|terms| - 1]);
      if c != "" && c !in q then q + [c] else q
  }

  lemma QueriesSnoc(terms: seq<string>, t: string)
    ensures QueriesFrom(terms + [t]) ==
      var q := QueriesFrom(terms);
      var c := CleanSearchTerm(t);
      if c != "" && c !in q then q + [c] else q
  {
    assert (terms + [t])[..|terms|] == terms;
  }

  /** One of the two loops that fill `search_queries`: each term is cleaned and appended
      when non-empty and new. `before` are the terms already processed. */
  method AppendQueries(queries: seq<string>, terms: seq<string>, ghost before: seq<string>)
    returns (extended: seq<string>)
    requires queries == QueriesFrom(before)
    ensures extended == QueriesFrom(before + terms)
  {
    extended := queries;
    assert before + terms[..0] == before;
    for i := 0 to |terms|
      invariant extended == QueriesFrom(before + terms[..i])
    {
      QueriesSnoc(before + terms[..i], terms[i]);
      ConcatSliceSnoc(before, terms, i);
      var cleaned := CleanSearchTerm(terms[i]);
      if cleaned != "" && cleaned !in extended {
        extended := extended + [cleaned];
      }
    }
    assert terms[..|terms|] == terms;
  }

  /** The query list: search terms first, then category terms. */
  method BuildSearchQueries(searchTerms: seq<string>, category: seq<string>) returns (queries: seq<string>)
    ensures queries == QueriesFrom(searchTerms + category)
  {
    assert [] + searchTerms == searchTerms;
    queries := AppendQueries([], searchTerms, []);
    queries := AppendQueries(queries, category, searchTerms);
  }

  /** A string is a query exactly when it is non-empty and the cleaned form of some term. */
  lemma {:induction false} QueriesMember(terms: seq<string>, q: string)
    ensures q in QueriesFrom(terms) <==> q != "" && HasKey(terms, CleanSearchTerm, q)
    decreases |terms|
  {
    if terms != [] {
      var init := terms[..|terms| - 1];
      var last := terms[|terms| - 1];
      QueriesMember(init, q);
      SliceSnoc(terms, |terms| - 1);
      assert terms[..|terms|] == terms;
      HasKeySnoc(init, CleanSearchTerm, last, q);
    }
  }

  /** No query appears twice. */
  lemma {:induction false} QueriesDistinct(terms: seq<string>)
    ensures forall i, j :: 0 <= i < j < |QueriesFrom(terms)| ==> QueriesFrom(terms)[i] != QueriesFrom(terms)[j]
    decreases |terms|
  {
    if terms != [] {
      QueriesDistinct(terms[..|terms| - 1]);
    }
  }

  /** Adding terms at the end only appends queries. */
  lemma {:induction false} QueriesPrefix(a: seq<string>, b: seq<string>)
    ensures QueriesFrom(a) <= QueriesFrom(a + b)
    decreases |b|
  {
    if b == [] {
      assert a + b == a;
    } else {
      var init := b[..|b| - 1];
      QueriesPrefix(a, init);
      QueriesSnoc(a + init, b[|b| - 1]);
      assert a + b == (a + init) + [b[|b| - 1]];
    }
  }

  /** The queried term, `search_queries[0]`, is the cleaned form of the first term whose
      cleaned form is non-empty. */
  lemma {:induction false} QueriesHead(terms: seq<string>) returns (j: nat)
    requires QueriesFrom(terms) != []
    ensures j < |terms| && QueriesFrom(terms)[0] == CleanSearchTerm(terms[j])
    ensures forall k :: 0 <= k < j ==> CleanSearchTerm(terms[k]) == ""
    decreases |terms|
  {
    var init := terms[..|terms| - 1];
    QueriesSnoc(init, terms[|terms| - 1]);
    assert terms == init + [terms[|terms| - 1]];
    if QueriesFrom(init) != [] {
      j := QueriesHead(init);
      assert terms[j] == init[j];
      forall k | 0 <= k < j ensures CleanSearchTerm(terms[k]) == "" {
        assert terms[k] == init[k];
      }
    } else {
      j := |terms| - 1;
      forall k | 0 <= k < j ensures CleanSearchTerm(terms[k]) == "" {
        assert terms[k] == init[k];
        QueriesMember(init, CleanSearchTerm(init[k]));
        assert HasKey(init, CleanSearchTerm, CleanSearchTerm(init[k]));
      }
    }
  }

  // ---------------------------------------------------------------------------
  // The eBay search term
  // ---------------------------------------------------------------------------

  const DefaultTerm: string := "Shoe"

  /** The first search term, else the first category term, else "Shoe"; cleaned, with
      "Shoe" again when cleaning leaves nothing. */
  function EbaySearchTerm(searchTerms: seq<string>, category: seq<string>): (t: string)
    ensures t != ""
    ensures t == DefaultTerm
      || (searchTerms != [] && t == CleanSearchTerm(searchTerms[0]))
      || (searchTerms == [] && category != [] && t == CleanSearchTerm(category[0]))
    ensures searchTerms != [] && CleanSearchTerm(searchTerms[0]) != "" ==> t == CleanSearchTerm(searchTerms[0])
    ensures searchTerms == [] && category != [] && CleanSearchTerm(category[0]) != "" ==>
      t == CleanSearchTerm(category[0])
  {
    ExShoe(DefaultTerm);
    var term := if searchTerms != [] then searchTerms[0]
                else if category != [] then category[0]
                else DefaultTerm;
    var cleaned := CleanSearchTerm(term);
    if cleaned == "" then DefaultTerm else cleaned
  }

  /** When the first search term survives cleaning, eBay is asked for the same term as
      Google Custom Search. */
  lemma EbayTermMatchesQuery(searchTerms: seq<string>, category: seq<string>)
    requires searchTerms != [] && CleanSearchTerm(searchTerms[0]) != ""
    ensures QueriesFrom(searchTerms + category) != []
    ensures EbaySearchTerm(searchTerms, category) == QueriesFrom(searchTerms + category)[0]
  {
    var all := searchTerms + category;
    QueriesSnoc([], all[0]);
    assert [] + [all[0]] == all[..1];
    QueriesPrefix(all[..1], all[1..]);
    assert all[..1] + all[1..] == all;
  }

  /** When it does not, the two providers are asked different things: with the search
      terms "Shoe" and "Red Sneaker" Google Custom Search gets "red sneaker" and eBay gets
      "Shoe". */
  lemma EbayTermMayDiffer(searchTerms: seq<string>, category: seq<string>)
    requires searchTerms == ["Shoe", "Red Sneaker"] && category == []
    ensures EbaySearchTerm(searchTerms, category) == "Shoe"
    ensures QueriesFrom(searchTerms + category) == ["red sneaker"]
  {
    var shoe, red := searchTerms[0], searchTerms[1];
    ExShoe(shoe);
    ExRed(red);
    assert searchTerms + category == searchTerms;
    QueriesSnoc([], shoe);
    assert [] + [shoe] == [shoe];
    QueriesSnoc([shoe], red);
    assert [shoe] + [red] == searchTerms;
  }

  /** On the output of the vision step, no search term means eBay is asked for "Shoe". */
  lemma EbayTermOfVision(d: Detections)
    requires Analyze(d).searchTerms == []
    ensures EbaySearchTerm(Analyze(d).searchTerms, Analyze(d).productInfo.category) == DefaultTerm
  {
    NoSearchTermsNoCategory(d);
    ExShoe(DefaultTerm);
  }

  // ---------------------------------------------------------------------------
  // De-duplication
  // ---------------------------------------------------------------------------

  /** The de-duplication key: lower-cased title, price, id and platform. */
  function ResultKey(p: Product): (string, real, string, string) {
    (Lower(p.title), p.price, p.id, p.platform)
  }

  /** The `seen` loop over `all_results`. */
  method DeduplicateResults(allResults: seq<Product>) returns (uniqueResults: seq<Product>)
    ensures uniqueResults == Dedup(allResults, ResultKey)
  {
    var seen: set<(string, real, string, string)> := {};
    uniqueResults := [];
    for i := 0 to |allResults|
      invariant uniqueResults == Dedup(allResults[..i], ResultKey)
      invariant forall k :: k in seen <==> HasKey(uniqueResults, ResultKey, k)
    {
      DedupSnoc(allResults, ResultKey, i);
      var item := allResults[i];
      var key := (Lower(item.title), item.price, item.id, item.platform);
      forall k ensures HasKey(uniqueResults + [item], ResultKey, k) <==> HasKey(uniqueResults, ResultKey, k) || key == k {
        HasKeySnoc(uniqueResults, ResultKey, item, k);
      }
      if key !in seen {
        seen := seen + {key};
        uniqueResults := uniqueResults + [item];
      }
    }
    assert allResults[..|allResults|] == allResults;
  }

  /** The kept results have pairwise distinct keys, every key of the input is kept, and
      each kept result is the first of its key, in input order. */
  lemma DedupResultsSpec(allResults: seq<Product>)
    ensures DistinctKeys(Dedup(allResults, ResultKey), ResultKey)
    ensures forall k :: HasKey(Dedup(allResults, ResultKey), ResultKey, k) <==> HasKey(allResults, ResultKey, k)
    ensures var u := Dedup(allResults, ResultKey); var fo := FirstOccurrences(allResults, ResultKey);
      && |u| == |fo|
      && (forall i :: 0 <= i < |u| ==> fo[i] < |allResults| && u[i] == allResults[fo[i]]
                                       && IsFirstOccurrence(allResults, ResultKey, fo[i]))
      && (forall i, j :: 0 <= i < j < |u| ==> fo[i] < fo[j])
  {
    DedupDistinct(allResults, ResultKey);
    forall k ensures HasKey(Dedup(allResults, ResultKey), ResultKey, k) <==> HasKey(allResults, ResultKey, k) {
      DedupKeys(allResults, ResultKey, k);
    }
    DedupFirstOccurrences(allResults, ResultKey);
    var fo := FirstOccurrences(allResults, ResultKey);
    forall i | 0 <= i < |fo| ensures IsFirstOccurrence(allResults, ResultKey, fo[i]) {
      assert fo[i] in fo;
    }
  }

  /** Every kept result comes from the input. */
  lemma DedupResultsFromInput(allResults: seq<Product>)
    ensures forall p :: p in Dedup(allResults, ResultKey) ==> p in allResults
  {
    DedupFirstOccurrences(allResults, ResultKey);
  }

  /** The platform is part of the key: two results that differ only in platform are both
      kept. */
  lemma DifferentPlatformsBothKept(p: Product, q: Product)
    requires p == q.(platform := p.platform) && p.platform != q.platform
    ensures Dedup([p, q], ResultKey) == [p, q]
  {
    assert [p, q][..1] == [p];
    assert [p][..0] == [];
    assert !HasKey([p], ResultKey, ResultKey(q));
  }

  /** Results equal in title up to case, price, id and platform are collapsed to the
      first. */
  lemma SameKeyCollapsed(p: Product, q: Product)
    requires ResultKey(p) == ResultKey(q)
    ensures Dedup([p, q], ResultKey) == [p]
  {
    assert [p, q][..1] == [p];
    assert [p][..0] == [];
    assert Dedup([p], ResultKey) == [p];
    assert HasKey(Dedup([p], ResultKey), ResultKey, ResultKey(q)) by {
      assert ResultKey(Dedup([p], ResultKey)[0]) == ResultKey(q);
    }
  }

  // ---------------------------------------------------------------------------
  // Relevance scoring
  // ---------------------------------------------------------------------------

  /** A result with its `relevance_score`. */
  datatype Scored = Scored(product: Product, relevance: real)

  /** `t.lower() in title.lower()`. */
  function TermIn(title: string): string -> bool {
    t => Contains(Lower(title), Lower(t))
  }

  /** The number of terms that occur in the title, ignoring case. */
  function MatchCount(terms: seq<string>, title: string): nat {
    |Filter(terms, TermIn(title))|
  }

  /** A present, non-empty condition that contains "new" ignoring case. */
  predicate IsNewCondition(condition: Option<string>) {
    condition.Some? && condition.value != "" && Contains(Lower(condition.value), "new")
  }

  /** The score of one result: five per matching search term, three per matching category
      term, one per matching attribute, and a half for a new condition. */
  function RelevanceScore(p: Product, searchTerms: seq<string>, category: seq<string>, attributes: seq<string>): (r: real)
    ensures 0.0 <= r
    ensures r <= 5.0 * |searchTerms| as real + 3.0 * |category| as real + 1.0 * |attributes| as real + 0.5
  {
    5.0 * MatchCount(searchTerms, p.title) as real
    + 3.0 * MatchCount(category, p.title) as real
    + 1.0 * MatchCount(attributes, p.title) as real
    + (if IsNewCondition(p.condition) then 0.5 else 0.0)
  }

  /** A result scores 0 exactly when no term of any list occurs in its title and its
      condition does not mention "new". */
  lemma RelevanceZero(p: Product, st: seq<string>, cat: seq<string>, attrs: seq<string>)
    ensures RelevanceScore(p, st, cat, attrs) == 0.0 <==>
      && (forall i :: 0 <= i < |st| ==> !TermIn(p.title)(st[i]))
      && (forall i :: 0 <= i < |cat| ==> !TermIn(p.title)(cat[i]))
      && (forall i :: 0 <= i < |attrs| ==> !TermIn(p.title)(attrs[i]))
      && !IsNewCondition(p.condition)
  {
    FilterEmpty(st, TermIn(p.title));
    FilterEmpty(cat, TermIn(p.title));
    FilterEmpty(attrs, TermIn(p.title));
  }

  /** Adding a term to one of the three lists raises the score by that list's weight when
      the term occurs in the title, and leaves it unchanged otherwise. */
  lemma RelevanceWeights(p: Product, st: seq<string>, cat: seq<string>, attrs: seq<string>, t: string)
    ensures RelevanceScore(p, st + [t], cat, attrs) ==
      RelevanceScore(p, st, cat, attrs) + if TermIn(p.title)(t) then 5.0 else 0.0
    ensures RelevanceScore(p, st, cat + [t], attrs) ==
      RelevanceScore(p, st, cat, attrs) + if TermIn(p.title)(t) then 3.0 else 0.0
    ensures RelevanceScore(p, st, cat, attrs + [t]) ==
      RelevanceScore(p, st, cat, attrs) + if TermIn(p.title)(t) then 1.0 else 0.0
  {
    FilterConcat(st, [t], TermIn(p.title));
    FilterConcat(cat, [t], TermIn(p.title));
    FilterConcat(attrs, [t], TermIn(p.title));
  }

  /** Scoring ignores everything but the title and the condition: a new condition adds
      exactly the half point. */
  lemma RelevanceConditionBonus(p: Product, st: seq<string>, cat: seq<string>, attrs: seq<string>)
    requires IsNewCondition(p.condition)
    ensures RelevanceScore(p, st, cat, attrs) ==
      RelevanceScore(p.(condition := None), st, cat, attrs) + 0.5
  {
  }

  /** `weight` added `n` times. */
  function Repeated(weight: real, n: nat): real {
    if n == 0 then 0.0 else Repeated(weight, n - 1) + weight
  }

  lemma {:induction false} RepeatedIsProduct(weight: real, n: nat)
    ensures Repeated(weight, n) == weight * n as real
  {
    if n > 0 {
      RepeatedIsProduct(weight, n - 1);
      assert weight * n as real == weight * (n - 1) as real + weight;
    }
  }

  /** Adds `weight` for every term of `terms` found in `titleLower`. */
  method AddMatches(score: real, terms: seq<string>, title: string, titleLower: string, weight: real)
    returns (total: real)
    requires titleLower == Lower(title)
    ensures total == score + weight * MatchCount(terms, title) as real
  {
    total := score;
    for i := 0 to |terms|
      invariant total == score + Repeated(weight, MatchCount(terms[..i], title))
    {
      var before := MatchCount(terms[..i], title);
      FilterSnoc(terms, TermIn(title), i);
      if Contains(titleLower, Lower(terms[i])) {
        assert MatchCount(terms[..i + 1], title) == before + 1;
        total := total + weight;
      } else {
        assert MatchCount(terms[..i + 1], title) == before;
      }
    }
    assert terms[..|terms|] == terms;
    RepeatedIsProduct(weight, MatchCount(terms, title));
  }

  /** The body of the scoring loop for one result. */
  method ScoreResult(r: Product, searchTerms: seq<string>, category: seq<string>, attributes: seq<string>)
    returns (score: real)
    ensures score == RelevanceScore(r, searchTerms, category, attributes)
  {
    var titleLower := Lower(r.title);
    score := AddMatches(0.0, searchTerms, r.title, titleLower, 5.0);
    score := AddMatches(score, category, r.title, titleLower, 3.0);
    score := AddMatches(score, attributes, r.title, titleLower, 1.0);
    if r.condition.Some? && r.condition.value != "" && Contains(Lower(r.condition.value), "new") {
      score := score + 0.5;
    }
  }

  /** Every result paired with its score, in order. */
  function ScoreAll(results: seq<Product>, st: seq<string>, cat: seq<string>, attrs: seq<string>): (r: seq<Scored>)
    ensures |r| == |results|
    ensures forall i :: 0 <= i < |r| ==> r[i].product == results[i]
    decreases |results|
  {
    if results == [] then []
    else
      var last := results[|results| - 1];
      ScoreAll(results[..|results| - 1], st, cat, attrs) + [Scored(last, RelevanceScore(last, st, cat, attrs))]
  }

  /** Each scored result carries its own relevance score. */
  lemma {:induction false} ScoreAllScores(results: seq<Product>, st: seq<string>, cat: seq<string>, attrs: seq<string>)
    ensures forall i :: 0 <= i < |results| ==>
      ScoreAll(results, st, cat, attrs)[i].relevance == RelevanceScore(results[i], st, cat, attrs)
    decreases |results|
  {
    if results != [] {
      var init := results[..|results| - 1];
      ScoreAllScores(init, st, cat, attrs);
      forall i | 0 <= i < |init| ensures results[i] == init[i] { }
    }
  }

  lemma ScoreAllSnoc(results: seq<Product>, r: Product, st: seq<string>, cat: seq<string>, attrs: seq<string>)
    ensures ScoreAll(results + [r], st, cat, attrs) ==
      ScoreAll(results, st, cat, attrs) + [Scored(r, RelevanceScore(r, st, cat, attrs))]
  {
    assert (results + [r])[..|results|] == results;
  }

  /** The loop over `unique_results` that fills `scored_results`. */
  method ScoreResults(uniqueResults: seq<Product>, searchTerms: seq<string>, category: seq<string>, attributes: seq<string>)
    returns (scoredResults: seq<Scored>)
    ensures scoredResults == ScoreAll(uniqueResults, searchTerms, category, attributes)
  {
    scoredResults := [];
    for i := 0 to |uniqueResults|
      invariant scoredResults == ScoreAll(uniqueResults[..i], searchTerms, category, attributes)
    {
      ScoreAllSnoc(uniqueResults[..i], uniqueResults[i], searchTerms, category, attributes);
      SliceSnoc(uniqueResults, i);
      var score := ScoreResult(uniqueResults[i], searchTerms, category, attributes);
      scoredResults := scoredResults + [Scored(uniqueResults[i], score)];
    }
    assert uniqueResults[..|uniqueResults|] == uniqueResults;
  }

  // ---------------------------------------------------------------------------
  // Ranking and the response
  // ---------------------------------------------------------------------------

  const MaxProducts: nat := 20

  function ScoreOf(s: Scored): real { s.relevance }

  function ScoredKey(s: Scored): (string, real, string, string) { ResultKey(s.product) }

  /** The part of the response the pipeline computes; `resultsCount` is the length of the
      ranked list before truncation. */
  datatype AnalysisResponse = AnalysisResponse(
    productInfo: ProductInfo,
    searchTerms: seq<string>,
    products: seq<Scored>,
    resultsCount: nat)

  /** De-duplicate the merged results, score, sort by descending score, keep twenty. */
  function Respond(v: VisionResult, allResults: seq<Product>): AnalysisResponse {
    var unique := Dedup(allResults, ResultKey);
    var scored := ScoreAll(unique, v.searchTerms, v.productInfo.category, v.productInfo.attributes);
    var ranked := SortDesc(scored, ScoreOf);
    AnalysisResponse(v.productInfo, v.searchTerms, Prefix(ranked, MaxProducts), |ranked|)
  }

  /** What Google Custom Search contributes: the results for the first query, or nothing
      when there is no query. */
  function GoogleResults(v: VisionResult, gcs: string -> Response<GcsItem>, hash: string -> int,
                         findAll: (nat, string) -> seq<string>): seq<Product>
  {
    var queries := QueriesFrom(v.searchTerms + v.productInfo.category);
    if queries != [] then GcsResults(gcs(queries[0]), hash, findAll) else []
  }

  /** What eBay contributes: the results for the eBay term in India, ten per page, or
      nothing when a credential is missing. */
  function EbayResultsFor(v: VisionResult, appId: Option<string>, devId: Option<string>, certId: Option<string>,
                          connect: (string, string, string) -> (EbayRequest -> Response<EbayItem>)): seq<Product>
  {
    if CredentialsComplete(appId, devId, certId) then
      var term := EbaySearchTerm(v.searchTerms, v.productInfo.category);
      EbayResults(connect(appId.value, devId.value, certId.value)(SearchRequest(term, "IN", DefaultMaxResults)))
    else []
  }

  /** The whole pipeline given the vision result: Google Custom Search results first, then
      eBay's, then ranking. */
  function Pipeline(v: VisionResult,
                    gcs: string -> Response<GcsItem>, hash: string -> int, findAll: (nat, string) -> seq<string>,
                    appId: Option<string>, devId: Option<string>, certId: Option<string>,
                    connect: (string, string, string) -> (EbayRequest -> Response<EbayItem>)): AnalysisResponse
  {
    Respond(v, GoogleResults(v, gcs, hash, findAll) + EbayResultsFor(v, appId, devId, certId, connect))
  }

  /** Step 2 of the request handler: build the queries and ask for the first one. */
  method SearchGoogle(v: VisionResult, gcs: string -> Response<GcsItem>, hash: string -> int,
                      findAll: (nat, string) -> seq<string>)
    returns (googleResults: seq<Product>)
    ensures googleResults == GoogleResults(v, gcs, hash, findAll)
  {
    googleResults := [];
    var searchQueries := BuildSearchQueries(v.searchTerms, v.productInfo.category);
    if searchQueries != [] {
      googleResults := FetchGoogleCustomSearch(searchQueries[0], gcs, hash, findAll);
    }
  }

  /** Step 3: construct the searcher (a missing credential makes its constructor raise,
      which the handler catches and logs) and ask for the eBay term. */
  method SearchEbay(v: VisionResult, appId: Option<string>, devId: Option<string>, certId: Option<string>,
                    connect: (string, string, string) -> (EbayRequest -> Response<EbayItem>))
    returns (ebayResults: seq<Product>)
    ensures ebayResults == EbayResultsFor(v, appId, devId, certId, connect)
  {
    ebayResults := [];
    var ebayScraper := NewEbaySearcher(appId, devId, certId, connect);
    if ebayScraper.Some? {
      var ebaySearchTerm := EbaySearchTerm(v.searchTerms, v.productInfo.category);
      ebayResults := ebayScraper.value.SearchProducts(ebaySearchTerm, "IN", "INR", DefaultMaxResults);
    }
  }

  /** Steps 4 and 5: de-duplicate, score, sort and truncate. */
  method RankResults(v: VisionResult, allResults: seq<Product>) returns (response: AnalysisResponse)
    ensures response == Respond(v, allResults)
  {
    var uniqueResults := DeduplicateResults(allResults);
    var scoredResults := ScoreResults(uniqueResults, v.searchTerms, v.productInfo.category, v.productInfo.attributes);
    var finalResults := SortDesc(scoredResults, ScoreOf);
    response := AnalysisResponse(v.productInfo, v.searchTerms, Prefix(finalResults, MaxProducts), |finalResults|);
  }

  /** Steps 2 to 5 of the request handler, from the vision result to the response. */
  method AnalyzeImage(v: VisionResult,
                      gcs: string -> Response<GcsItem>, hash: string -> int, findAll: (nat, string) -> seq<string>,
                      appId: Option<string>, devId: Option<string>, certId: Option<string>,
                      connect: (string, string, string) -> (EbayRequest -> Response<EbayItem>))
    returns (response: AnalysisResponse)
    ensures response == Pipeline(v, gcs, hash, findAll, appId, devId, certId, connect)
  {
    var allResults: seq<Product> := [];
    var googleResults := SearchGoogle(v, gcs, hash, findAll);
    allResults := allResults + googleResults;
    assert allResults == googleResults;
    var ebayResults := SearchEbay(v, appId, devId, certId, connect);
    allResults := allResults + ebayResults;
    response := RankResults(v, allResults);
  }

  /** The ranked list is a permutation of the scored results, in non-increasing score, with
      equal scores in their de-duplicated order; the response holds its first twenty
      entries and counts all of them. */
  lemma RespondRanked(v: VisionResult, allResults: seq<Product>, x: real)
    ensures var unique := Dedup(allResults, ResultKey);
      var scored := ScoreAll(unique, v.searchTerms, v.productInfo.category, v.productInfo.attributes);
      var ranked := SortDesc(scored, ScoreOf);
      var r := Respond(v, allResults);
      && multiset(ranked) == multiset(scored)
      && NonIncreasing(ranked, ScoreOf)
      && WithKey(ranked, ScoreOf, x) == WithKey(scored, ScoreOf, x)
      && r.products == Prefix(ranked, MaxProducts)
      && r.resultsCount == |unique|
      && |r.products| == if |unique| <= MaxProducts then |unique| else MaxProducts
  {
    var unique := Dedup(allResults, ResultKey);
    var scored := ScoreAll(unique, v.searchTerms, v.productInfo.category, v.productInfo.attributes);
    SortPermutes(scored, ScoreOf);
    SortSorted(scored, ScoreOf);
    SortStable(scored, ScoreOf, x);
  }

  /** The returned products are sorted by score, and none left out by the truncation scores
      higher than one returned. */
  lemma RespondTopScores(v: VisionResult, allResults: seq<Product>)
    ensures var r := Respond(v, allResults);
      var scored := ScoreAll(Dedup(allResults, ResultKey), v.searchTerms, v.productInfo.category, v.productInfo.attributes);
      var ranked := SortDesc(scored, ScoreOf);
      && NonIncreasing(r.products, ScoreOf)
      && multiset(r.products) + multiset(ranked[|r.products|..]) == multiset(scored)
      && forall i, j :: 0 <= i < |r.products| <= j < |ranked| ==> r.products[i].relevance >= ranked[j].relevance
  {
    var scored := ScoreAll(Dedup(allResults, ResultKey), v.searchTerms, v.productInfo.category, v.productInfo.attributes);
    SortSorted(scored, ScoreOf);
    TopSplit(scored, ScoreOf, MaxProducts);
  }

  /** Every returned product carries its own relevance score, comes from the merged
      results, and no two share a de-duplication key. */
  lemma RespondScoresAndKeys(v: VisionResult, allResults: seq<Product>)
    ensures var r := Respond(v, allResults);
      && DistinctKeys(r.products, ScoredKey)
      && forall i :: 0 <= i < |r.products| ==>
           r.products[i].relevance ==
             RelevanceScore(r.products[i].product, v.searchTerms, v.productInfo.category, v.productInfo.attributes)
           && r.products[i].product in allResults
  {
    var st, cat, attrs := v.searchTerms, v.productInfo.category, v.productInfo.attributes;
    var unique := Dedup(allResults, ResultKey);
    var scored := ScoreAll(unique, st, cat, attrs);
    var ranked := SortDesc(scored, ScoreOf);
    DedupDistinct(allResults, ResultKey);
    DedupResultsFromInput(allResults);
    assert DistinctKeys(scored, ScoredKey);
    SortDistinct(scored, ScoreOf, ScoredKey);
    ScoreAllScores(unique, st, cat, attrs);
    SortPermutes(scored, ScoreOf);
    var products := Respond(v, allResults).products;
    forall i | 0 <= i < |products|
      ensures products[i].relevance == RelevanceScore(products[i].product, st, cat, attrs)
      ensures products[i].product in allResults
    {
      assert products[i] == ranked[i];
      assert ranked[i] in multiset(scored);
      var m :| 0 <= m < |scored| && scored[m] == ranked[i];
      assert unique[m] in unique;
    }
  }

  /** A product of one of the two providers: http(s) links, and the provider's name. */
  predicate FromProvider(p: Product) {
    ValidLinks(p) && p.platform in {"Google Custom Search", "eBay"}
  }

  lemma ProvidersShaped(v: VisionResult,
                        gcs: string -> Response<GcsItem>, hash: string -> int, findAll: (nat, string) -> seq<string>,
                        appId: Option<string>, devId: Option<string>, certId: Option<string>,
                        connect: (string, string, string) -> (EbayRequest -> Response<EbayItem>))
    ensures var all := GoogleResults(v, gcs, hash, findAll) + EbayResultsFor(v, appId, devId, certId, connect);
      forall p :: p in all ==> FromProvider(p)
  {
    var google := GoogleResults(v, gcs, hash, findAll);
    var ebay := EbayResultsFor(v, appId, devId, certId, connect);
    var queries := QueriesFrom(v.searchTerms + v.productInfo.category);
    if queries != [] {
      GcsResultsShaped(gcs(queries[0]), hash, findAll);
    }
    if CredentialsComplete(appId, devId, certId) {
      var term := EbaySearchTerm(v.searchTerms, v.productInfo.category);
      EbayResultsShaped(connect(appId.value, devId.value, certId.value)(SearchRequest(term, "IN", DefaultMaxResults)));
    }
    assert forall k :: 0 <= k < |google| ==> FromProvider(google[k]);
    assert forall k :: 0 <= k < |ebay| ==> FromProvider(ebay[k]);
  }

  /** Every product of the pipeline has http(s) image and page links and comes from one of
      the two providers, Google Custom Search or eBay. */
  lemma PipelineLinksValid(v: VisionResult,
                           gcs: string -> Response<GcsItem>, hash: string -> int, findAll: (nat, string) -> seq<string>,
                           appId: Option<string>, devId: Option<string>, certId: Option<string>,
                           connect: (string, string, string) -> (EbayRequest -> Response<EbayItem>))
    ensures var r := Pipeline(v, gcs, hash, findAll, appId, devId, certId, connect);
      forall i :: 0 <= i < |r.products| ==> FromProvider(r.products[i].product)
  {
    var all := GoogleResults(v, gcs, hash, findAll) + EbayResultsFor(v, appId, devId, certId, connect);
    ProvidersShaped(v, gcs, hash, findAll, appId, devId, certId, connect);
    RespondScoresAndKeys(v, all);
  }

  // ---------------------------------------------------------------------------
  // A worked scenario
  // ---------------------------------------------------------------------------

  lemma RedProLower(title: string)
    requires title == "Red Sneaker Pro"
    ensures Lower(title) == "red sneaker pro"
  {
  }

  lemma BlueLower(title: string)
    requires title == "Blue Sandals"
    ensures Lower(title) == "blue sandals"
  {
  }

  lemma RedLower(t: string)
    requires t == "Red Sneaker"
    ensures Lower(t) == "red sneaker"
  {
  }

  /** "Red Sneaker Pro" against the search term "Red Sneaker" and the category term
      "sneaker" matches both: 5 + 3 = 8. */
  lemma RedProScore(p: Product, st: seq<string>, cat: seq<string>)
    requires p.title == "Red Sneaker Pro" && !IsNewCondition(p.condition)
    requires st == ["Red Sneaker"] && cat == ["sneaker"]
    ensures RelevanceScore(p, st, cat, []) == 8.0
  {
    var lowered := Lower(p.title);
    RedProLower(p.title);
    RedLower(st[0]);
    assert lowered[..11] == "red sneaker";
    assert TermIn(p.title)(st[0]);
    LowerOfLower(cat[0]);
    assert lowered[4..][..7] == "sneaker";
    ContainsAt(lowered, cat[0], 4);
    assert TermIn(p.title)(cat[0]);
    assert Filter(st, TermIn(p.title)) == st;
    assert Filter(cat, TermIn(p.title)) == cat;
  }

  /** "Blue Sandals" matches neither term: its title has no 'k'. */
  lemma BlueScore(p: Product, st: seq<string>, cat: seq<string>)
    requires p.title == "Blue Sandals" && !IsNewCondition(p.condition)
    requires st == ["Red Sneaker"] && cat == ["sneaker"]
    ensures RelevanceScore(p, st, cat, []) == 0.0
  {
    var lowered := Lower(p.title);
    BlueLower(p.title);
    RedLower(st[0]);
    LowerOfLower(cat[0]);
    assert 'k' !in lowered;
    if TermIn(p.title)(st[0]) {
      assert 'k' == Lower(st[0])[8];
      ContainsChars(lowered, Lower(st[0]), 'k');
    }
    if TermIn(p.title)(cat[0]) {
      assert 'k' == cat[0][4];
      ContainsChars(lowered, Lower(cat[0]), 'k');
    }
    assert Filter(st, TermIn(p.title)) == [];
    assert Filter(cat, TermIn(p.title)) == [];
  }

  /** Two results whose titles differ in length are both kept. */
  lemma PairKept(all: seq<Product>)
    requires |all| == 2 && |all[0].title| != |all[1].title|
    ensures Dedup(all, ResultKey) == all
  {
    assert all[..1] == [all[0]];
    assert [all[0]][..0] == [];
    assert |Lower(all[0].title)| != |Lower(all[1].title)|;
    assert !HasKey([all[0]], ResultKey, ResultKey(all[1]));
  }

  lemma PairScored(all: seq<Product>, st: seq<string>, cat: seq<string>, attrs: seq<string>)
    requires |all| == 2
    ensures ScoreAll(all, st, cat, attrs) ==
      [Scored(all[0], RelevanceScore(all[0], st, cat, attrs)), Scored(all[1], RelevanceScore(all[1], st, cat, attrs))]
  {
    ScoreAllScores(all, st, cat, attrs);
  }

  lemma SortPair(a: Scored, b: Scored)
    ensures SortDesc([a, b], ScoreOf) == if a.relevance >= b.relevance then [a, b] else [b, a]
  {
    assert [a, b][1..] == [b];
    assert [b][1..] == [];
    assert SortDesc([b], ScoreOf) == [b];
    assert Insert(a, [b], ScoreOf) == if ScoreOf(a) >= ScoreOf(b) then [a, b] else [b] + Insert(a, [], ScoreOf);
  }

  /** With those terms, a "Red Sneaker Pro" and a "Blue Sandals" come back in that order
      with scores 8 and 0, whichever provider listed first. */
  lemma RespondScenario(v: VisionResult, red: Product, blue: Product, allResults: seq<Product>)
    requires red.title == "Red Sneaker Pro" && !IsNewCondition(red.condition)
    requires blue.title == "Blue Sandals" && !IsNewCondition(blue.condition)
    requires v.searchTerms == ["Red Sneaker"] && v.productInfo.category == ["sneaker"] && v.productInfo.attributes == []
    requires allResults == [red, blue] || allResults == [blue, red]
    ensures Respond(v, allResults).products == [Scored(red, 8.0), Scored(blue, 0.0)]
    ensures Respond(v, allResults).resultsCount == 2
  {
    var st, cat, attrs := v.searchTerms, v.productInfo.category, v.productInfo.attributes;
    RedProScore(red, st, cat);
    BlueScore(blue, st, cat);
    PairKept(allResults);
    PairScored(allResults, st, cat, attrs);
    var scored := ScoreAll(allResults, st, cat, attrs);
    SortPair(scored[0], scored[1]);
    assert scored == [scored[0], scored[1]];
  }
}
