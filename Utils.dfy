/** The helpers of utils.py: search-term cleaning, brand spotting and price-string cleaning.
    (scrapers.py carries a verbatim copy of `clean_price`; `CleanPrice` models both.) */
module Utils {
  import opened Wrappers
  import opened Text
  import opened Numbers
  import opened Seqs

  // ---------------------------------------------------------------------------
  // clean_search_term
  // ---------------------------------------------------------------------------

  /** Words dropped wherever they occur in a label. */
  const GenericWords: set<string> := {"object", "product", "item", "thing"}

  /** Whole results rejected as too vague to search for. */
  const OverlyGeneric: set<string> := {"shoe", "sneaker", "trainer", "phone"}

  predicate IsWordOrSpace(c: char) { IsWordChar(c) || IsSpace(c) }

  predicate IsSpecific(w: string) { w !in GenericWords }

  /** A character that can appear in a cleaned word: `\w` after lower-casing. */
  predicate IsCleanChar(c: char) { IsLowerLetter(c) || IsDigit(c) || c == '_' }

  predicate IsCleanOrSpace(c: char) { IsCleanChar(c) || c == ' ' }

  /** A word of a cleaned term: non-empty, lower-case word characters only. */
  predicate IsCleanWord(w: string) {
    |w| > 0 && forall i :: 0 <= i < |w| ==> IsCleanChar(w[i])
  }

  /** `re.sub(r'[^\w\s]', '', s)`. */
  function StripPunctuation(s: string): string {
    Filter(s, IsWordOrSpace)
  }

  /** The words of the lower-cased, stripped label, generic words removed, in order. */
  function SpecificWords(term: string): seq<string> {
    Filter(Split(StripPunctuation(Lower(term))), IsSpecific)
  }

  /** `clean_search_term`: the first two specific words joined by a space, unless that
      phrase is one of the overly generic ones. */
  function CleanSearchTerm(term: string): (r: string)
    ensures r !in OverlyGeneric
  {
    var cleaned := JoinSpace(Prefix(SpecificWords(term), 2));
    if cleaned in OverlyGeneric then "" else cleaned
  }

  /** Every specific word is non-empty, made of lower-case word characters, and not generic. */
  lemma SpecificWordsAreClean(term: string)
    ensures forall k :: 0 <= k < |SpecificWords(term)| ==>
              IsCleanWord(SpecificWords(term)[k]) && SpecificWords(term)[k] !in GenericWords
  {
    var lowered := Lower(term);
    var stripped := StripPunctuation(lowered);
    var words := Split(stripped);
    forall i | 0 <= i < |stripped|
      ensures IsWordOrSpace(stripped[i]) && !IsUpper(stripped[i])
    {
      FilterMember(lowered, IsWordOrSpace, stripped[i]);
    }
    SplitWords(stripped);
    forall k | 0 <= k < |SpecificWords(term)|
      ensures IsCleanWord(SpecificWords(term)[k]) && SpecificWords(term)[k] !in GenericWords
    {
      var w := SpecificWords(term)[k];
      FilterMember(words, IsSpecific, w);
      var m :| 0 <= m < |words| && words[m] == w;
      forall i | 0 <= i < |w|
        ensures IsCleanChar(w[i])
      {
        assert w[i] in stripped;
      }
    }
  }

  lemma CleanWordsAreWords(ws: seq<string>)
    requires forall k :: 0 <= k < |ws| ==> IsCleanWord(ws[k])
    ensures forall k :: 0 <= k < |ws| ==> IsWord(ws[k])
  {
  }

  /** The shape of a cleaned term: either "" or one or two clean, non-generic words joined
      by a single space, and those words are the first two specific words of the label.
      It is "" exactly when no specific word survives or the phrase is overly generic. */
  lemma CleanSearchTermWords(term: string)
    ensures var r := CleanSearchTerm(term);
      && r !in OverlyGeneric
      && (r == "" <==> SpecificWords(term) == [] || JoinSpace(Prefix(SpecificWords(term), 2)) in OverlyGeneric)
      && (r != "" ==>
            && Split(r) == Prefix(SpecificWords(term), 2)
            && 1 <= |Split(r)| <= 2
            && r == JoinSpace(Split(r))
            && forall k :: 0 <= k < |Split(r)| ==> IsCleanWord(Split(r)[k]) && Split(r)[k] !in GenericWords)
  {
    var ws := Prefix(SpecificWords(term), 2);
    SpecificWordsAreClean(term);
    CleanWordsAreWords(ws);
    SplitJoin(ws);
  }

  /** Cleaning an already cleaned term changes nothing. */
  lemma CleanSearchTermIdempotent(term: string)
    ensures CleanSearchTerm(CleanSearchTerm(term)) == CleanSearchTerm(term)
  {
    var c := CleanSearchTerm(term);
    if c == "" {
      assert Split("") == [];
      assert Filter([], IsSpecific) == [];
    } else {
      var ws := Prefix(SpecificWords(term), 2);
      SpecificWordsAreClean(term);
      CleanWordsAreWords(ws);
      assert c == JoinSpace(ws);
      JoinSpaceChars(ws, IsCleanOrSpace);
      LowerOfLower(c);
      FilterAll(c, IsWordOrSpace);
      SplitJoin(ws);
      FilterAll(ws, IsSpecific);
      assert SpecificWords(c) == ws;
    }
  }

  /** Stripping punctuation leaves clean words joined by spaces unchanged. */
  lemma StripJoinedClean(ws: seq<string>)
    requires forall k :: 0 <= k < |ws| ==> IsCleanWord(ws[k])
    ensures StripPunctuation(JoinSpace(ws)) == JoinSpace(ws)
  {
    var joined := JoinSpace(ws);
    JoinSpaceChars(ws, IsCleanOrSpace);
    forall i | 0 <= i < |joined| ensures IsWordOrSpace(joined[i]) {
      assert IsCleanOrSpace(joined[i]);
    }
    FilterAll(joined, IsWordOrSpace);
  }

  /** A term that lower-cases to clean words joined by single spaces keeps exactly its
      specific words. */
  lemma SpecificWordsOfPlainTerm(term: string, ws: seq<string>)
    requires forall k :: 0 <= k < |ws| ==> IsCleanWord(ws[k])
    requires Lower(term) == JoinSpace(ws)
    ensures SpecificWords(term) == Filter(ws, IsSpecific)
  {
    StripJoinedClean(ws);
    CleanWordsAreWords(ws);
    SplitJoin(ws);
    calc {
      SpecificWords(term);
      Filter(Split(StripPunctuation(JoinSpace(ws))), IsSpecific);
      Filter(Split(JoinSpace(ws)), IsSpecific);
      Filter(ws, IsSpecific);
    }
  }

  // ---------------------------------------------------------------------------
  // Worked examples of clean_search_term. The literal is passed as a parameter so that
  // the verifier unfolds it one step at a time.
  // ---------------------------------------------------------------------------

  lemma RedSpecific(term: string)
    requires term == "Red Sneaker"
    ensures SpecificWords(term) == ["red", "sneaker"]
  {
    var ws := ["red", "sneaker"];
    assert Lower(term) == JoinSpace(ws) by {
      assert JoinSpace(ws) == "red sneaker";
    }
    assert IsCleanWord("red") && IsCleanWord("sneaker");
    SpecificWordsOfPlainTerm(term, ws);
    FilterAll(ws, IsSpecific);
  }

  /** A two-word phrase is kept even when its second word alone would be rejected. */
  lemma ExRed(term: string)
    requires term == "Red Sneaker"
    ensures CleanSearchTerm(term) == "red sneaker"
  {
    RedSpecific(term);
    assert JoinSpace(["red", "sneaker"]) == "red sneaker";
  }

  lemma NikeWords(term: string)
    requires term == "Nike Air Max Running"
    ensures Lower(term) == JoinSpace(["nike", "air", "max", "running"])
  {
    assert JoinSpace(["nike", "air", "max", "running"]) == "nike air max running";
  }

  lemma NikeSpecific(term: string)
    requires term == "Nike Air Max Running"
    ensures SpecificWords(term) == ["nike", "air", "max", "running"]
  {
    var ws := ["nike", "air", "max", "running"];
    NikeWords(term);
    assert IsCleanWord("nike") && IsCleanWord("air") && IsCleanWord("max") && IsCleanWord("running");
    SpecificWordsOfPlainTerm(term, ws);
    FilterAll(ws, IsSpecific);
  }

  /** Only the first two words survive, lower-cased. */
  lemma ExNike(term: string)
    requires term == "Nike Air Max Running"
    ensures CleanSearchTerm(term) == "nike air"
  {
    NikeSpecific(term);
    assert Prefix(["nike", "air", "max", "running"], 2) == ["nike", "air"];
    assert JoinSpace(["nike", "air"]) == "nike air";
  }

  /** Generic words are all dropped. */
  lemma ExProduct(term: string)
    requires term == "Product Item"
    ensures CleanSearchTerm(term) == ""
  {
    var ws := ["product", "item"];
    assert Lower(term) == JoinSpace(ws) by {
      assert JoinSpace(ws) == "product item";
    }
    assert IsCleanWord("product") && IsCleanWord("item");
    SpecificWordsOfPlainTerm(term, ws);
    FilterNone(ws, IsSpecific);
  }

  /** A lone over-generic word is rejected. */
  lemma ExSneaker(term: string)
    requires term == "Sneaker"
    ensures CleanSearchTerm(term) == ""
  {
    var ws := ["sneaker"];
    assert Lower(term) == JoinSpace(ws) by {
      assert JoinSpace(ws) == "sneaker";
    }
    assert IsCleanWord("sneaker");
    SpecificWordsOfPlainTerm(term, ws);
    FilterAll(ws, IsSpecific);
  }

  /** The default eBay term itself cleans to "". */
  lemma ExShoe(term: string)
    requires term == "Shoe"
    ensures CleanSearchTerm(term) == ""
  {
    var ws := ["shoe"];
    assert Lower(term) == JoinSpace(ws) by {
      assert JoinSpace(ws) == "shoe";
    }
    assert IsCleanWord("shoe");
    SpecificWordsOfPlainTerm(term, ws);
    FilterAll(ws, IsSpecific);
  }

  lemma ObjectWords(term: string)
    requires term == "Object Shoe"
    ensures Lower(term) == JoinSpace(["object", "shoe"])
  {
    assert JoinSpace(["object", "shoe"]) == "object shoe";
  }

  lemma ObjectFilter(generic: string, shoe: string)
    requires generic == "object" && shoe == "shoe"
    ensures IsCleanWord(generic) && IsCleanWord(shoe)
    ensures Filter([generic, shoe], IsSpecific) == [shoe]
  {
    var ws := [generic, shoe];
    assert !IsSpecific(generic) && IsSpecific(shoe);
    FilterSnoc(ws, IsSpecific, 0);
    FilterSnoc(ws, IsSpecific, 1);
    assert ws[..0] == [] && ws[..2] == ws;
  }

  lemma ObjectSpecific(term: string)
    requires term == "Object Shoe"
    ensures SpecificWords(term) == ["shoe"]
  {
    var ws := ["object", "shoe"];
    ObjectWords(term);
    ObjectFilter(ws[0], ws[1]);
    SpecificWordsOfPlainTerm(term, ws);
  }

  /** The over-generic check runs after the generic words are dropped. */
  lemma ExObject(term: string)
    requires term == "Object Shoe"
    ensures CleanSearchTerm(term) == ""
  {
    ObjectSpecific(term);
    assert JoinSpace(["shoe"]) == "shoe";
  }

  // ---------------------------------------------------------------------------
  // extract_brand_model
  // ---------------------------------------------------------------------------

  const CommonBrands: seq<string> := ["nike", "adidas", "puma", "reebok", "samsung", "apple", "sony"]

  /** `any(brand in term.lower() for brand in common_brands)`. */
  predicate MentionsBrand(term: string) {
    exists b :: b in CommonBrands && Contains(Lower(term), b)
  }

  /** `extract_brand_model`: collects every label or entity that mentions a known brand and
      returns the first one, unchanged, or None when there is none. */
  method ExtractBrandModel(visionLabels: seq<string>, webEntities: seq<string>) returns (brand: Option<string>)
    ensures brand.None? <==>
              forall i :: 0 <= i < |visionLabels + webEntities| ==> !MentionsBrand((visionLabels + webEntities)[i])
    ensures brand.Some? ==>
              exists i :: 0 <= i < |visionLabels + webEntities| &&
                (visionLabels + webEntities)[i] == brand.value && MentionsBrand(brand.value) &&
                forall j :: 0 <= j < i ==> !MentionsBrand((visionLabels + webEntities)[j])
  {
    var terms := visionLabels + webEntities;
    var brands: seq<string> := [];
    for i := 0 to |terms|
      invariant brands == Filter(terms[..i], MentionsBrand)
    {
      var termLower := Lower(terms[i]);
      if exists b :: b in CommonBrands && Contains(termLower, b) {
        brands := brands + [terms[i]];
      }
      assert terms[..i + 1][..i] == terms[..i];
    }
    assert terms[..|terms|] == terms;
    if brands != [] {
      var first := FilterHead(terms, MentionsBrand);
      brand := Some(brands[0]);
    } else {
      forall i | 0 <= i < |terms|
        ensures !MentionsBrand(terms[i])
      {
        FilterMember(terms, MentionsBrand, terms[i]);
      }
      brand := None;
    }
  }

  // ---------------------------------------------------------------------------
  // clean_price
  // ---------------------------------------------------------------------------

  /** `re.sub(r'[^\d.]', '', s)`. */
  function PriceChars(s: string): string {
    Filter(s, IsDigitOrDot)
  }

  /** `clean_price`: parse the digits and points of the string, 0.0 when that fails. */
  function CleanPrice(priceStr: string): (price: real)
    ensures price >= 0.0
  {
    match ParseFloat(PriceChars(priceStr))
    case Some(v) => v
    case None => 0.0
  }

  /** The cleaned price is the decimal value of the kept characters when they hold at least
      one digit and at most one point, and 0.0 otherwise. */
  lemma CleanPriceAccepts(priceStr: string)
    ensures var kept := PriceChars(priceStr);
      && (HasDigit(kept) && multiset(kept)['.'] <= 1 ==> ParseUnsigned(kept) == Some(CleanPrice(priceStr)))
      && (!HasDigit(kept) || multiset(kept)['.'] > 1 ==> CleanPrice(priceStr) == 0.0)
  {
    var kept := PriceChars(priceStr);
    ParseUnsignedAccepts(kept);
    assert |kept| > 0 ==> kept[0] != '-' && kept[0] != '+';
  }

  /** Currency text around a printed amount is ignored: a label before and a suffix after
      the digits of `n`, neither holding digits or points, clean to `n`. */
  lemma CleanPriceOfLabelledAmount(tag: string, n: nat, tail: string)
    requires forall i :: 0 <= i < |tag| ==> !IsDigitOrDot(tag[i])
    requires forall i :: 0 <= i < |tail| ==> !IsDigitOrDot(tail[i])
    ensures CleanPrice(tag + NatToString(n) + tail) == n as real
  {
    var digits := NatToString(n);
    FilterConcat(tag + digits, tail, IsDigitOrDot);
    FilterConcat(tag, digits, IsDigitOrDot);
    FilterNone(tag, IsDigitOrDot);
    FilterNone(tail, IsDigitOrDot);
    FilterAll(digits, IsDigitOrDot);
    assert PriceChars(tag + digits + tail) == digits;
    ParseIntToString(n);
  }
}
