/** Worked cases of the derivation strategy, stated over concrete annotations. */
module Scenarios {
  import opened Wrappers
  import opened Text
  import opened Parsing
  import opened General
  import opened Representations
  import opened Derivation

  /**
   * A search-phrase lemma without whitespace never matches multiword spans, whatever
   * representations the two sides share.
   */
  lemma {:induction false} SingleWordLemmaNeverMatchesSpans(sp: Token, docToken: Token, doc: seq<Token>, spans: seq<MultiwordSpan>)
    requires sp.lemmaText != [] && forall i :: 0 <= i < |sp.lemmaText| ==> !IsSpace(sp.lemmaText[i])
    requires forall l :: 0 <= l < |spans| ==> WithinDocument(spans[l], doc)
    ensures MultiwordMatch(sp, docToken, doc, spans) == None
  {
    SingleWord(sp.lemmaText);
  }

  /**
   * "decision" without derivation representations falls back to its direct form, which
   * differs from the document's derivation form "decide": no match.
   */
  lemma DecisionAgainstDecide()
    ensures TokenMatch(Token("decision", "decide", ["decision"], None),
                       Token("decide", "decide", ["decide"], Some(["decide"]))) == None
  {
    assert "decision"[4] != "decide"[4];
  }

  /**
   * With the derivation form "decide" on the search-phrase side, the document's direct
   * form "decide" is found, and the explanation names the upper-cased search-phrase lemma.
   */
  lemma DecideAgainstDecision()
    ensures var sp := Token("decision", "decide", ["decision"], Some(["decide"]));
            var doc := Token("decide", "decide", ["decide"], None);
            var r := TokenMatch(sp, doc);
            r.Some? && r.value.searchPhraseWord == "decide" && r.value.documentWord == "decide"
            && r.value.explanation == "Has a common stem with DECISION."
  {
    assert Upper("decision") == "DECISION";
  }

  /**
   * A multiword search-phrase lemma whose first direct representation is among the
   * derivation representations of the one candidate span matches it, on that
   * representation, bounded by the span's first and last tokens.
   */
  lemma SharedFormMatchesSpan(sp: Token, docToken: Token, doc: seq<Token>, span: MultiwordSpan)
    requires WordCount(sp.lemmaText) >= 2
    requires WithinDocument(span, doc)
    requires |sp.direct| > 0 && span.derivation.Some? && sp.direct[0] in span.derivation.value
    ensures var r := MultiwordMatch(sp, docToken, doc, [span]);
            r.Some? && r.value.searchPhraseWord == sp.direct[0] && r.value.documentWord == sp.direct[0]
            && r.value.documentToken == docToken && r.value.documentSubword == None
            && r.value.firstDocumentToken == FirstToken(span, doc) && r.value.lastDocumentToken == LastToken(span, doc)
  {
    assert [span][0] == span;
    assert AnySpanDerivation([span]);
    assert InSomeSpan(sp.direct[0], [span]);
    var r := MultiwordMatch(sp, docToken, doc, [span]);
    var i, l :| FirstSpanHit(sp.direct, [span], i, l)
                 && r.value.searchPhraseWord == sp.direct[i]
                 && r.value.firstDocumentToken == FirstToken([span][l], doc)
                 && r.value.lastDocumentToken == LastToken([span][l], doc);
    assert i == 0;
  }

  /** "credit card" splits into two words. */
  lemma CreditCardIsTwoWords()
    ensures WordCount("credit card") == 2
  {
    assert forall i :: 0 <= i < |"credit"| ==> !IsSpace("credit"[i]);
    assert forall i :: 0 <= i < |"card"| ==> !IsSpace("card"[i]);
    TwoWords("credit", "card");
    assert "credit" + " " + "card" == "credit card";
  }

  /**
   * A multiword lemma against a two-token span whose derivation form is the lemma's
   * one direct form `w`: a match on `w` bounded by the document's two tokens.
   */
  lemma TwoTokenSpanMatches(sp: Token, doc: seq<Token>, span: MultiwordSpan, w: string)
    requires WordCount(sp.lemmaText) >= 2 && sp.direct == [w]
    requires |doc| == 2 && span.tokenIndexes == [0, 1] && span.derivation == Some([w])
    ensures var r := MultiwordMatch(sp, doc[0], doc, [span]);
            r.Some? && r.value.searchPhraseWord == w && r.value.documentWord == w
            && r.value.firstDocumentToken == doc[0] && r.value.lastDocumentToken == doc[1]
            && r.value.documentSubword == None
  {
    assert WithinDocument(span, doc);
    SharedFormMatchesSpan(sp, doc[0], doc, span);
  }

  /**
   * "credit card" against a span over two tokens whose derivation form is
   * "credit card" (the span of "credit cards"): a match on "credit card" bounded by
   * the span's first and last tokens.
   */
  lemma CreditCardSpan(sp: Token, doc: seq<Token>, span: MultiwordSpan)
    requires sp.lemmaText == "credit card" && sp.direct == ["credit card"]
    requires |doc| == 2 && span.tokenIndexes == [0, 1] && span.derivation == Some(["credit card"])
    ensures var r := MultiwordMatch(sp, doc[0], doc, [span]);
            r.Some? && r.value.searchPhraseWord == "credit card" && r.value.documentWord == "credit card"
            && r.value.firstDocumentToken == doc[0] && r.value.lastDocumentToken == doc[1]
            && r.value.documentSubword == None
  {
    CreditCardIsTwoWords();
    TwoTokenSpanMatches(sp, doc, span, "credit card");
  }

  /** A root token whose derived lemma differs from its lemma adds exactly one key. */
  lemma DecisionRegistersDecide(info: seq<WordInformation>)
    ensures WithDerivedLemma(info, Token("decision", "decide", ["decision"], None))
            == info + [WordInformation("decide", "derivation", 0)]
  {
    assert "decision"[4] != "decide"[4];
  }
}
