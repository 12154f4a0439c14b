/**
 * The annotated units the derivation strategy reads, and the search phrase it extends.
 * Each unit carries the matching representations the linguistic pipeline attached to it:
 * `direct`, always present, and `derivation`, absent (`None`) when the unit has no
 * separate root family.
 */
module Parsing {
  import opened Wrappers

  /**
   * A search-phrase token or a document token. The token's owning document is not a
   * field: operations that resolve token indexes take the document's tokens as a sequence.
   */
  datatype Token = Token(
    lemmaText: string,   // the source's `lemma`
    derivedLemma: string,
    direct: seq<string>,
    derivation: Option<seq<string>>)

  /** A multi-token unit of a document, given by the indexes of its tokens. */
  datatype MultiwordSpan = MultiwordSpan(
    tokenIndexes: seq<nat>,
    direct: seq<string>,
    derivation: Option<seq<string>>)

  /**
   * A unit finer than a token. The source reads a subword's derivation representations
   * from the subword itself and its direct representations through its `holmes`
   * attribute; both are fields of the one record here.
   */
  datatype Subword = Subword(
    direct: seq<string>,
    derivation: Option<seq<string>>)

  /** A span can be resolved through a document when it has tokens and they all lie in it. */
  predicate WithinDocument(span: MultiwordSpan, doc: seq<Token>) {
    |span.tokenIndexes| > 0
    && forall k :: 0 <= k < |span.tokenIndexes| ==> span.tokenIndexes[k] < |doc|
  }

  /** `doc[span.tokenIndexes[0]]`: the span's first token. */
  function FirstToken(span: MultiwordSpan, doc: seq<Token>): (r: Token)
    requires WithinDocument(span, doc)
    ensures r in doc && r == doc[span.tokenIndexes[0]]
  {
    doc[span.tokenIndexes[0]]
  }

  /** `doc[span.tokenIndexes[-1]]`: the span's last token. */
  function LastToken(span: MultiwordSpan, doc: seq<Token>): (r: Token)
    requires WithinDocument(span, doc)
    ensures r in doc && r == doc[span.tokenIndexes[|span.tokenIndexes| - 1]]
  {
    doc[span.tokenIndexes[|span.tokenIndexes| - 1]]
  }

  /** One extra index key a strategy registers for a search phrase. */
  datatype WordInformation = WordInformation(word: string, matchType: string, depth: int)

  /** A compiled search phrase: its root token and the index keys registered for it so far. */
  class SearchPhrase {
    const rootToken: Token
    var wordInformation: seq<WordInformation>

    constructor (rootToken: Token)
      ensures this.rootToken == rootToken && wordInformation == []
    {
      this.rootToken := rootToken;
      wordInformation := [];
    }

    /** Registers one more index key; the earlier ones are kept in order. */
    method AddWordInformation(word: string, matchType: string, depth: int)
      modifies this
      ensures wordInformation == old(wordInformation) + [WordInformation(word, matchType, depth)]
    {
      wordInformation := wordInformation + [WordInformation(word, matchType, depth)];
    }
  }
}
