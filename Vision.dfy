/** The term selection of `analyze_image_with_vision` (app.py): how the Cloud Vision
    detections become search terms, a category/attribute split and a confidence flag. The
    three API calls are inputs; only their texts and scores are read. */
module Vision {
  import opened Text
  import opened Seqs

  /** A web entity's description, a localized object's name or a label's description, with
      its score; a web entity without a score has score 0.0 (`e.score or 0`). */
  datatype Detection = Detection(text: string, score: real)

  /** The four detection lists, as the Vision API returns them. */
  datatype Detections = Detections(
    bestGuesses: seq<string>,
    webEntities: seq<Detection>,
    objects: seq<Detection>,
    labels: seq<Detection>)

  datatype ProductInfo = ProductInfo(category: seq<string>, attributes: seq<string>, confidence: bool)

  /** The dictionary `analyze_image_with_vision` returns. */
  datatype VisionResult = VisionResult(searchTerms: seq<string>, productInfo: ProductInfo, confidence: bool)

  /** The score given to every best-guess label. */
  const BestGuessScore: real := 0.9
  const EntityThreshold: real := 0.7
  const ObjectThreshold: real := 0.7
  const LabelThreshold: real := 0.8
  const ConfidenceThreshold: real := 0.8
  /** Web entities and labels are taken from the two best-scoring ones only. */
  const TopCount: nat := 2
  const MaxSearchTerms: nat := 5
  const CategoryKeywords: seq<string> := ["shirt", "shoe", "dress", "watch", "phone"]

  function Score(d: Detection): real { d.score }

  /** The de-duplication key: the lower-cased text. */
  function LowerText(d: Detection): string { Lower(d.text) }

  /** The test `score > threshold`. */
  function Above(threshold: real): Detection -> bool {
    (d: Detection) => d.score > threshold
  }

  // ---------------------------------------------------------------------------
  // Candidates, in priority order
  // ---------------------------------------------------------------------------

  /** Each best-guess label, with score 0.9. */
  function GuessCandidates(guesses: seq<string>): (r: seq<Detection>)
    ensures |r| == |guesses|
    ensures forall i :: 0 <= i < |r| ==> r[i] == Detection(guesses[i], BestGuessScore)
    decreases |guesses|
  {
    if guesses == [] then []
    else GuessCandidates(guesses[..|guesses| - 1]) + [Detection(guesses[|guesses| - 1], BestGuessScore)]
  }

  /** The two best-scoring web entities, those above 0.7. */
  function EntityCandidates(entities: seq<Detection>): seq<Detection> {
    Filter(Prefix(SortDesc(entities, Score), TopCount), Above(EntityThreshold))
  }

  function ObjectCandidates(objects: seq<Detection>): seq<Detection> {
    Filter(objects, Above(ObjectThreshold))
  }

  /** The two best-scoring labels, those above 0.8. */
  function LabelCandidates(labels: seq<Detection>): seq<Detection> {
    Filter(Prefix(SortDesc(labels, Score), TopCount), Above(LabelThreshold))
  }

  /** `detected_terms` zipped with `confidence_scores`. */
  function Candidates(d: Detections): seq<Detection> {
    GuessCandidates(d.bestGuesses) + EntityCandidates(d.webEntities)
      + ObjectCandidates(d.objects) + LabelCandidates(d.labels)
  }

  /** `unique_terms` zipped with `unique_scores`. */
  function Unique(d: Detections): seq<Detection> {
    Dedup(Candidates(d), LowerText)
  }

  function Texts(ds: seq<Detection>): (r: seq<string>)
    ensures |r| == |ds|
    ensures forall i :: 0 <= i < |r| ==> r[i] == ds[i].text
    decreases |ds|
  {
    if ds == [] then [] else Texts(ds[..|ds| - 1]) + [ds[|ds| - 1].text]
  }

  function Scores(ds: seq<Detection>): (r: seq<real>)
    ensures |r| == |ds|
    ensures forall i :: 0 <= i < |r| ==> r[i] == ds[i].score
    decreases |ds|
  {
    if ds == [] then [] else Scores(ds[..|ds| - 1]) + [ds[|ds| - 1].score]
  }

  // ---------------------------------------------------------------------------
  // Category split and confidence
  // ---------------------------------------------------------------------------

  /** The lower-cased term contains one of the category keywords. */
  predicate IsCategoryTerm(t: string) {
    exists k :: 0 <= k < |CategoryKeywords| && Contains(Lower(t), CategoryKeywords[k])
  }

  predicate IsAttributeTerm(t: string) { !IsCategoryTerm(t) }

  /** `sum(scores) / len(scores) > 0.8`, with the mean taken as 0 when there are no scores. */
  predicate Confident(scores: seq<real>) {
    var avg := if scores != [] then Sum(scores) / |scores| as real else 0.0;
    avg > ConfidenceThreshold
  }

  /** What `analyze_image_with_vision` returns for the detections `d`. */
  function Analyze(d: Detections): VisionResult {
    var u := Unique(d);
    var terms := Texts(u);
    var confident := Confident(Scores(u));
    VisionResult(
      Prefix(terms, MaxSearchTerms),
      ProductInfo(Filter(terms, IsCategoryTerm), Filter(terms, IsAttributeTerm), confident),
      confident)
  }

  // ---------------------------------------------------------------------------
  // The selection code
  // ---------------------------------------------------------------------------

  /** Lines 112-175 of `analyze_image_with_vision`. */
  method SelectTerms(d: Detections) returns (result: VisionResult)
    ensures result == Analyze(d)
  {
    var detected := CollectCandidates(d);
    var uniqueTerms, uniqueScores := DedupCandidates(detected);
    var avgConf := if |uniqueScores| > 0 then Sum(uniqueScores) / |uniqueScores| as real else 0.0;
    var category := Filter(uniqueTerms, IsCategoryTerm);
    var attributes := Filter(uniqueTerms, IsAttributeTerm);
    var info := ProductInfo(category, attributes, avgConf > ConfidenceThreshold);
    result := VisionResult(Prefix(uniqueTerms, MaxSearchTerms), info, avgConf > ConfidenceThreshold);
  }

  /** The four loops that append to `detected_terms` and `confidence_scores`. */
  method CollectCandidates(d: Detections) returns (detected: seq<Detection>)
    ensures detected == Candidates(d)
  {
    detected := [];
    var guesses := d.bestGuesses;
    for i := 0 to |guesses|
      invariant detected == GuessCandidates(guesses[..i])
    {
      assert guesses[..i + 1][..i] == guesses[..i];
      detected := detected + [Detection(guesses[i], BestGuessScore)];
    }
    assert guesses[..|guesses|] == guesses;
    var sortedEntities := SortDesc(d.webEntities, Score);
    detected := AppendAbove(detected, Prefix(sortedEntities, TopCount), EntityThreshold);
    detected := AppendAbove(detected, d.objects, ObjectThreshold);
    var sortedLabels := SortDesc(d.labels, Score);
    detected := AppendAbove(detected, Prefix(sortedLabels, TopCount), LabelThreshold);
  }

  /** `for x in ds: if x.score > threshold: append x`, the shape of the entity, object and
      label loops. */
  method AppendAbove(detected: seq<Detection>, ds: seq<Detection>, threshold: real)
    returns (extended: seq<Detection>)
    ensures extended == detected + Filter(ds, Above(threshold))
  {
    extended := detected;
    for i := 0 to |ds|
      invariant extended == detected + Filter(ds[..i], Above(threshold))
    {
      FilterSnoc(ds, Above(threshold), i);
      if ds[i].score > threshold {
        extended := extended + [ds[i]];
      }
    }
    assert ds[..|ds|] == ds;
  }

  /** Appending one detection appends its text and its score. */
  lemma TextsSnoc(ds: seq<Detection>, d: Detection)
    ensures Texts(ds + [d]) == Texts(ds) + [d.text]
    ensures Scores(ds + [d]) == Scores(ds) + [d.score]
  {
    assert (ds + [d])[..|ds|] == ds;
  }

  /** Adding a detection's key to the seen set keeps it equal to the keys kept so far. */
  lemma SeenSnoc(seen: set<string>, unique: seq<Detection>, d: Detection)
    requires forall k :: k in seen <==> HasKey(unique, LowerText, k)
    ensures forall k :: k in seen + {LowerText(d)} <==> HasKey(unique + [d], LowerText, k)
  {
    forall k ensures HasKey(unique + [d], LowerText, k) <==> HasKey(unique, LowerText, k) || LowerText(d) == k {
      HasKeySnoc(unique, LowerText, d, k);
    }
  }

  /** The loop that removes duplicates while preserving order, with the set `seen` of
      lower-cased terms already kept. */
  method DedupCandidates(detected: seq<Detection>) returns (uniqueTerms: seq<string>, uniqueScores: seq<real>)
    ensures uniqueTerms == Texts(Dedup(detected, LowerText))
    ensures uniqueScores == Scores(Dedup(detected, LowerText))
  {
    var seen: set<string> := {};
    ghost var unique: seq<Detection> := [];
    uniqueTerms, uniqueScores := [], [];
    for i := 0 to |detected|
      invariant unique == Dedup(detected[..i], LowerText)
      invariant uniqueTerms == Texts(unique) && uniqueScores == Scores(unique)
      invariant forall k :: k in seen <==> HasKey(unique, LowerText, k)
    {
      DedupSnoc(detected, LowerText, i);
      var term := detected[i].text;
      var tLower := Lower(term);
      if tLower !in seen {
        SeenSnoc(seen, unique, detected[i]);
        seen := seen + {tLower};
        TextsSnoc(unique, detected[i]);
        unique := unique + [detected[i]];
        uniqueTerms := uniqueTerms + [term];
        uniqueScores := uniqueScores + [detected[i].score];
      }
    }
    assert detected[..|detected|] == detected;
  }

  // ---------------------------------------------------------------------------
  // Properties
  // ---------------------------------------------------------------------------

  /** At most five search terms, pairwise distinct once lower-cased. */
  lemma SearchTermsDistinct(d: Detections)
    ensures var st := Analyze(d).searchTerms;
      && |st| <= MaxSearchTerms
      && forall i, j :: 0 <= i < j < |st| ==> Lower(st[i]) != Lower(st[j])
  {
    DedupDistinct(Candidates(d), LowerText);
  }

  /** The search terms keep their original casing and the first-seen order: the i-th is
      the text of the i-th first occurrence (by lower-cased text) among the candidates. */
  lemma SearchTermsFirstSeen(d: Detections)
    ensures var st := Analyze(d).searchTerms;
      var fo := FirstOccurrences(Candidates(d), LowerText);
      && (forall n :: n in fo <==> IsFirstOccurrence(Candidates(d), LowerText, n))
      && (forall i, j :: 0 <= i < j < |fo| ==> fo[i] < fo[j])
      && |st| == (if |fo| < MaxSearchTerms then |fo| else MaxSearchTerms)
      && forall i :: 0 <= i < |st| ==> fo[i] < |Candidates(d)| && st[i] == Candidates(d)[fo[i]].text
  {
    DedupFirstOccurrences(Candidates(d), LowerText);
    var fo := FirstOccurrences(Candidates(d), LowerText);
    assert forall i :: 0 <= i < |fo| ==> fo[i] in fo;
  }

  /** Every candidate is represented among the de-duplicated terms (the full list the
      category split reads), by a term equal to it up to case. */
  lemma EveryCandidateRepresented(d: Detections, c: Detection)
    requires c in Candidates(d)
    ensures exists i :: 0 <= i < |Texts(Unique(d))| && Lower(Texts(Unique(d))[i]) == Lower(c.text)
  {
    var cs := Candidates(d);
    var j :| 0 <= j < |cs| && cs[j] == c;
    assert HasKey(cs, LowerText, LowerText(c));
    DedupKeys(cs, LowerText, LowerText(c));
    var u := Unique(d);
    var i :| 0 <= i < |u| && LowerText(u[i]) == LowerText(c);
    assert Texts(u)[i] == u[i].text;
  }

  /** The candidates come in priority order: the best guesses lead, each with score 0.9;
      the object group is exactly the detected objects above 0.7; at most two web entities
      above 0.7 and at most two labels above 0.8 are taken. */
  lemma CandidatesSpec(d: Detections)
    ensures |Candidates(d)| >= |d.bestGuesses|
    ensures forall i :: 0 <= i < |d.bestGuesses| ==> Candidates(d)[i] == Detection(d.bestGuesses[i], BestGuessScore)
    ensures forall o :: o in ObjectCandidates(d.objects) <==> o in d.objects && o.score > ObjectThreshold
    ensures |EntityCandidates(d.webEntities)| <= TopCount && |LabelCandidates(d.labels)| <= TopCount
    ensures forall i :: 0 <= i < |EntityCandidates(d.webEntities)| ==> EntityCandidates(d.webEntities)[i].score > EntityThreshold
    ensures forall i :: 0 <= i < |LabelCandidates(d.labels)| ==> LabelCandidates(d.labels)[i].score > LabelThreshold
  {
    forall o ensures o in ObjectCandidates(d.objects) <==> o in d.objects && o.score > ObjectThreshold {
      FilterMember(d.objects, Above(ObjectThreshold), o);
    }
  }

  /** A web entity (likewise a label) is taken only from the two best-scoring ones: the
      chosen ones are entities of the response, and no entity outside the top two scores
      higher than a chosen one. */
  lemma TopTwoSpec(entities: seq<Detection>)
    ensures var t := SortDesc(entities, Score);
      var top := Prefix(t, TopCount);
      && multiset(top) + multiset(t[|top|..]) == multiset(entities)
      && forall i, j :: 0 <= i < |top| <= j < |t| ==> t[i].score >= t[j].score
    ensures forall x :: x in EntityCandidates(entities) ==> x in entities && x.score > EntityThreshold
  {
    TopSplit(entities, Score, TopCount);
    var t := SortDesc(entities, Score);
    var top := Prefix(t, TopCount);
    assert multiset(top) <= multiset(entities);
    forall x | x in EntityCandidates(entities)
      ensures x in entities
    {
      FilterMember(top, Above(EntityThreshold), x);
      assert x in multiset(top);
      assert x in multiset(entities);
    }
  }

  /** `category` and `attributes` split the de-duplicated terms: a term goes to `category`
      exactly when its lower-cased form contains a category keyword, to `attributes`
      otherwise, each list keeps the order of the terms, and together they hold every
      term once. */
  lemma CategorySplit(d: Detections)
    ensures var terms := Texts(Unique(d));
      var info := Analyze(d).productInfo;
      && info.category == Filter(terms, IsCategoryTerm)
      && |info.category| + |info.attributes| == |terms|
      && multiset(info.category) + multiset(info.attributes) == multiset(terms)
      && (forall t :: t in info.category <==> t in terms && IsCategoryTerm(t))
      && (forall t :: t in info.attributes <==> t in terms && !IsCategoryTerm(t))
  {
    var terms := Texts(Unique(d));
    FilterPartition(terms, IsCategoryTerm, IsAttributeTerm);
    forall t ensures t in Filter(terms, IsCategoryTerm) <==> t in terms && IsCategoryTerm(t) {
      FilterMember(terms, IsCategoryTerm, t);
    }
    forall t ensures t in Filter(terms, IsAttributeTerm) <==> t in terms && !IsCategoryTerm(t) {
      FilterMember(terms, IsAttributeTerm, t);
    }
  }

  /** The mean test: it holds exactly when there is a score and the scores sum to more
      than 0.8 per score; it holds when every score is above 0.8, and fails when there is
      none or none is above 0.8. */
  lemma ConfidentSpec(s: seq<real>)
    ensures Confident(s) <==> s != [] && Sum(s) > ConfidenceThreshold * |s| as real
    ensures s != [] && (forall i :: 0 <= i < |s| ==> s[i] > ConfidenceThreshold) ==> Confident(s)
    ensures (forall i :: 0 <= i < |s| ==> s[i] <= ConfidenceThreshold) ==> !Confident(s)
  {
    if s != [] {
      var n := |s| as real;
      assert Sum(s) / n > ConfidenceThreshold <==> Sum(s) > ConfidenceThreshold * n;
      if forall i :: 0 <= i < |s| ==> s[i] > ConfidenceThreshold {
        SumAbove(s, ConfidenceThreshold);
      }
      if forall i :: 0 <= i < |s| ==> s[i] <= ConfidenceThreshold {
        SumAtMost(s, ConfidenceThreshold);
      }
    }
  }

  /** The flag, in both places it is returned, is the mean test on the scores of the kept
      terms (the first-seen score of each). */
  lemma ConfidenceSpec(d: Detections)
    ensures Analyze(d).confidence == Confident(Scores(Unique(d)))
    ensures Analyze(d).productInfo.confidence == Analyze(d).confidence
    ensures Unique(d) == [] ==> !Analyze(d).confidence
  {
    ConfidentSpec(Scores(Unique(d)));
  }

  /** No search term means no category and no attribute either: all three come from the same
      de-duplicated terms, so the eBay fallback to `category[0]` never applies to this
      output. */
  lemma NoSearchTermsNoCategory(d: Detections)
    ensures Analyze(d).searchTerms == [] ==>
      Analyze(d).productInfo.category == [] && Analyze(d).productInfo.attributes == []
  {
    var terms := Texts(Unique(d));
    if Analyze(d).searchTerms == [] {
      assert terms == [];
    }
  }
}
