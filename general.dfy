/** The match record every word-matching strategy produces. */
module General {
  import opened Wrappers
  import opened Parsing

  /**
   * One successful equivalence between a search-phrase token and a document unit:
   * the matched document token, the first and last document tokens the unit covers,
   * the subword when the unit is one, the two representation strings that were found
   * equal, the strategy's label and a human-readable explanation.
   */
  datatype WordMatch = WordMatch(
    searchPhraseToken: Token,
    searchPhraseWord: string,
    documentToken: Token,
    firstDocumentToken: Token,
    lastDocumentToken: Token,
    documentSubword: Option<Subword>,
    documentWord: string,
    wordMatchType: string,
    explanation: string)
}
