/**
 * The derivation word-matching strategy: a search-phrase token and a document unit
 * match when they share a morphological root, i.e. when a representation string of
 * the one equals a representation string of the other. Derivation representations
 * are compared where a unit has them, direct representations otherwise.
 *
 * Each entry point is a reference function, whose ensures clauses state what a match
 * is, and a method with the source's shape (short-circuit, resolution, loops) proved
 * equal to it. The `search_phrase` argument of the source's entry points is unused by
 * them and is not a parameter here.
 */
module Derivation {
  import opened Wrappers
  import opened Text
  import opened Parsing
  import opened General
  import opened Representations

  /** Tags every match this strategy reports and every index key it registers. */
  const WORD_MATCH_TYPE_LABEL: string := "derivation"

  const EXPLANATION_PREFIX: string := "Has a common stem with "

  /** The explanation of a match against a search-phrase word shown as `displayWord`. */
  function Explanation(displayWord: string): (r: string)
    ensures ExplainedWord(r) == Some(displayWord)
  {
    var r := EXPLANATION_PREFIX + displayWord + ".";
    assert r[..|EXPLANATION_PREFIX|] == EXPLANATION_PREFIX;
    assert r[|EXPLANATION_PREFIX|..|r| - 1] == displayWord;
    r
  }

  /** Reads the display word back out of an explanation; `None` when it is not one. */
  function ExplainedWord(explanation: string): Option<string> {
    var n := |EXPLANATION_PREFIX|;
    if |explanation| > n && explanation[..n] == EXPLANATION_PREFIX && explanation[|explanation| - 1] == '.'
    then Some(explanation[n..|explanation| - 1])
    else None
  }

  /** Different display words give different explanations. */
  lemma ExplanationInjective(a: string, b: string)
    ensures Explanation(a) == Explanation(b) ==> a == b
  {
    if Explanation(a) == Explanation(b) {
      assert Some(a) == ExplainedWord(Explanation(a)) == ExplainedWord(Explanation(b)) == Some(b);
    }
  }

  /** A token's representations under derivation matching. */
  function TokenReprs(t: Token): (r: seq<string>)
    ensures t.derivation.Some? ==> r == t.derivation.value
    ensures t.derivation.None? ==> r == t.direct
  {
    Resolve(t.direct, t.derivation)
  }

  /**
   * A subword's representations under derivation matching. The source takes the
   * fallback through the subword's `holmes` attribute; here it is the `direct` field.
   */
  function SubwordReprs(s: Subword): (r: seq<string>)
    ensures s.derivation.Some? ==> r == s.derivation.value
    ensures s.derivation.None? ==> r == s.direct
  {
    Resolve(s.direct, s.derivation)
  }

  /** What every match of this strategy reports about the search-phrase side. */
  predicate ReportsStem(m: WordMatch, sp: Token) {
    m.searchPhraseToken == sp
    && m.searchPhraseWord == m.documentWord
    && m.wordMatchType == WORD_MATCH_TYPE_LABEL
    && m.explanation == Explanation(Upper(sp.lemmaText))
  }

  /** Whether some element of `sp` occurs in `doc`. */
  predicate Shares(sp: seq<string>, doc: seq<string>) {
    exists k :: 0 <= k < |sp| && sp[k] in doc
  }

  /** `w` is the earliest element of `sp` that occurs in `doc`. */
  predicate EarliestShared(w: string, sp: seq<string>, doc: seq<string>) {
    exists i :: 0 <= i < |sp| && sp[i] == w && w in doc && forall k :: 0 <= k < i ==> sp[k] !in doc
  }

  // ---------------------------------------------------------------------------
  // Single document token

  /** Matching a search-phrase token against one document token. */
  function TokenMatch(sp: Token, doc: Token): (r: Option<WordMatch>)
    ensures sp.derivation.None? && doc.derivation.None? ==> r.None?
    ensures r.Some? <==> (sp.derivation.Some? || doc.derivation.Some?) && Shares(TokenReprs(sp), TokenReprs(doc))
    ensures r.Some? ==>
      ReportsStem(r.value, sp)
      && r.value.documentToken == doc
      && r.value.firstDocumentToken == doc && r.value.lastDocumentToken == doc
      && r.value.documentSubword.None?
      && r.value.documentWord in TokenReprs(doc)
      && EarliestShared(r.value.searchPhraseWord, TokenReprs(sp), TokenReprs(doc))
  {
    if sp.derivation.None? && doc.derivation.None? then None
    else
      var spReprs, docReprs := TokenReprs(sp), TokenReprs(doc);
      match FirstShared(spReprs, docReprs)
      case None => None
      case Some((i, j)) =>
        Some(WordMatch(sp, spReprs[i], doc, doc, doc, None, docReprs[j],
                       WORD_MATCH_TYPE_LABEL, Explanation(Upper(sp.lemmaText))))
  }

  method MatchToken(sp: Token, doc: Token) returns (m: Option<WordMatch>)
    ensures m == TokenMatch(sp, doc)
  {
    if sp.derivation.None? && doc.derivation.None? {
      return None;
    }
    var spReprs := TokenReprs(sp);
    var docReprs := TokenReprs(doc);
    var hit := FindShared(spReprs, docReprs);
    match hit {
      case None =>
        m := None;
      case Some((i, j)) =>
        m := Some(WordMatch(sp, spReprs[i], doc, doc, doc, None, docReprs[j],
                            WORD_MATCH_TYPE_LABEL, Explanation(Upper(sp.lemmaText))));
    }
  }

  // ---------------------------------------------------------------------------
  // Multiword spans

  /** `any(...)` over the spans' derivation representations, scanning the spans in order. */
  function AnySpanDerivation(spans: seq<MultiwordSpan>): (r: bool)
    ensures r <==> exists l :: 0 <= l < |spans| && spans[l].derivation.Some?
  {
    if spans == [] then false
    else spans[0].derivation.Some? || AnySpanDerivation(spans[1..])
  }

  /**
   * `reprs[i]` found in `spans[l]` is the first hit of the search: no earlier
   * representation is in any span, and no earlier span holds `reprs[i]`.
   */
  predicate FirstSpanHit(reprs: seq<string>, spans: seq<MultiwordSpan>, i: int, l: int) {
    0 <= i < |reprs| && 0 <= l < |spans|
    && reprs[i] in SpanReprs(spans[l])
    && (forall k :: 0 <= k < i ==> !InSomeSpan(reprs[k], spans))
    && (forall q :: 0 <= q < l ==> reprs[i] !in SpanReprs(spans[q]))
  }

  /**
   * Matching a search-phrase token against the multiword spans anchored at `docToken`.
   * The search-phrase side is compared through its direct representations even when it
   * has derivation ones; the spans fall back as single tokens do.
   */
  function MultiwordMatch(sp: Token, docToken: Token, doc: seq<Token>, spans: seq<MultiwordSpan>): (r: Option<WordMatch>)
    requires forall l :: 0 <= l < |spans| ==> WithinDocument(spans[l], doc)
    ensures WordCount(sp.lemmaText) == 1 ==> r.None?
    ensures sp.derivation.None? && !AnySpanDerivation(spans) ==> r.None?
    ensures r.Some? <==>
      WordCount(sp.lemmaText) != 1
      && (sp.derivation.Some? || AnySpanDerivation(spans))
      && exists k :: 0 <= k < |sp.direct| && InSomeSpan(sp.direct[k], spans)
    ensures r.Some? ==>
      ReportsStem(r.value, sp)
      && r.value.documentToken == docToken
      && r.value.documentSubword.None?
      && exists i, l :: FirstSpanHit(sp.direct, spans, i, l)
                        && r.value.searchPhraseWord == sp.direct[i]
                        && r.value.firstDocumentToken == FirstToken(spans[l], doc)
                        && r.value.lastDocumentToken == LastToken(spans[l], doc)
  {
    if WordCount(sp.lemmaText) == 1 then None
    else if sp.derivation.None? && !AnySpanDerivation(spans) then None
    else
      var hit := FirstSpanShared(sp.direct, spans);
      if hit.None? then
        assert forall k :: 0 <= k < |sp.direct| ==> !InSomeSpan(sp.direct[k], spans);
        None
      else
        var (i, l, n) := hit.value;
        assert FirstSpanHit(sp.direct, spans, i, l);
        var span := spans[l];
        Some(WordMatch(sp, sp.direct[i], docToken, FirstToken(span, doc), LastToken(span, doc),
                       None, SpanReprs(span)[n], WORD_MATCH_TYPE_LABEL, Explanation(Upper(sp.lemmaText))))
  }

  method MatchMultiwords(sp: Token, docToken: Token, doc: seq<Token>, spans: seq<MultiwordSpan>)
    returns (m: Option<WordMatch>)
    requires forall l :: 0 <= l < |spans| ==> WithinDocument(spans[l], doc)
    ensures m == MultiwordMatch(sp, docToken, doc, spans)
  {
    if WordCount(sp.lemmaText) == 1 {
      return None;
    }
    if sp.derivation.None? && !AnySpanDerivation(spans) {
      return None;
    }
    // The source also resolves the search phrase's derivation representations here,
    // but never reads the result: its loop runs over the direct representations.
    var hit := FindSharedInSpans(sp.direct, spans);
    match hit {
      case None =>
        m := None;
      case Some((i, l, n)) =>
        var span := spans[l];
        m := Some(WordMatch(sp, sp.direct[i], docToken, FirstToken(span, doc), LastToken(span, doc),
                            None, SpanReprs(span)[n], WORD_MATCH_TYPE_LABEL, Explanation(Upper(sp.lemmaText))));
    }
  }

  // ---------------------------------------------------------------------------
  // Subwords

  /** Matching a search-phrase token against one subword of `docToken`. */
  function SubwordMatch(sp: Token, docToken: Token, subword: Subword): (r: Option<WordMatch>)
    ensures sp.derivation.None? && subword.derivation.None? ==> r.None?
    ensures r.Some? <==> (sp.derivation.Some? || subword.derivation.Some?) && Shares(TokenReprs(sp), SubwordReprs(subword))
    ensures r.Some? ==>
      ReportsStem(r.value, sp)
      && r.value.documentToken == docToken
      && r.value.firstDocumentToken == docToken && r.value.lastDocumentToken == docToken
      && r.value.documentSubword == Some(subword)
      && r.value.documentWord in SubwordReprs(subword)
      && EarliestShared(r.value.searchPhraseWord, TokenReprs(sp), SubwordReprs(subword))
  {
    if sp.derivation.None? && subword.derivation.None? then None
    else
      var spReprs, docReprs := TokenReprs(sp), SubwordReprs(subword);
      match FirstShared(spReprs, docReprs)
      case None => None
      case Some((i, j)) =>
        Some(WordMatch(sp, spReprs[i], docToken, docToken, docToken, Some(subword), docReprs[j],
                       WORD_MATCH_TYPE_LABEL, Explanation(Upper(sp.lemmaText))))
  }

  method MatchSubword(sp: Token, docToken: Token, subword: Subword) returns (m: Option<WordMatch>)
    ensures m == SubwordMatch(sp, docToken, subword)
  {
    if sp.derivation.None? && subword.derivation.None? {
      return None;
    }
    var spReprs := TokenReprs(sp);
    var docReprs := SubwordReprs(subword);
    var hit := FindShared(spReprs, docReprs);
    match hit {
      case None =>
        m := None;
      case Some((i, j)) =>
        m := Some(WordMatch(sp, spReprs[i], docToken, docToken, docToken, Some(subword), docReprs[j],
                            WORD_MATCH_TYPE_LABEL, Explanation(Upper(sp.lemmaText))));
    }
  }

  /**
   * A subword compares exactly as a token with the same representations would: the two
   * matches differ only in the subword they record.
   */
  lemma SubwordAgreesWithToken(sp: Token, docToken: Token, subword: Subword)
    requires subword.direct == docToken.direct && subword.derivation == docToken.derivation
    ensures SubwordMatch(sp, docToken, subword).Some? <==> TokenMatch(sp, docToken).Some?
    ensures SubwordMatch(sp, docToken, subword).Some? ==>
      SubwordMatch(sp, docToken, subword).value == TokenMatch(sp, docToken).value.(documentSubword := Some(subword))
  {
  }

  // ---------------------------------------------------------------------------
  // Index extension

  /** The search phrase's index keys after registering its root token's derived lemma. */
  function WithDerivedLemma(info: seq<WordInformation>, root: Token): (r: seq<WordInformation>)
    ensures |r| == |info| + (if root.derivedLemma != root.lemmaText then 1 else 0)
    ensures r[..|info|] == info
    ensures root.derivedLemma != root.lemmaText ==> r[|info|] == WordInformation(root.derivedLemma, WORD_MATCH_TYPE_LABEL, 0)
  {
    if root.derivedLemma != root.lemmaText
    then info + [WordInformation(root.derivedLemma, WORD_MATCH_TYPE_LABEL, 0)]
    else info
  }

  /** Registering twice adds no key that registering once did not. */
  lemma ReRegistrationRedundant(info: seq<WordInformation>, root: Token)
    ensures forall e :: e in WithDerivedLemma(WithDerivedLemma(info, root), root) <==> e in WithDerivedLemma(info, root)
  {
  }

  method AddWordsMatchingSearchPhraseRootToken(searchPhrase: SearchPhrase)
    modifies searchPhrase
    ensures searchPhrase.wordInformation == WithDerivedLemma(old(searchPhrase.wordInformation), searchPhrase.rootToken)
  {
    if searchPhrase.rootToken.derivedLemma != searchPhrase.rootToken.lemmaText {
      searchPhrase.AddWordInformation(searchPhrase.rootToken.derivedLemma, WORD_MATCH_TYPE_LABEL, 0);
    }
  }
}
