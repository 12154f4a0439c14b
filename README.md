# Derivation word matching, modelled in Dafny

This project models the derivation word-matching strategy of Holmes
(`holmes_extractor/word_matching/derivation.py`). The strategy decides whether a
search-phrase token and a document unit share a morphological root
("decision" and "decide"). It compares the *matching representations* the
linguistic pipeline attached to both sides. Every unit has direct
representations. It may also have derivation representations. Where those are
absent, the unit's direct representations are used instead.

The strategy works at three granularities. Each is modelled as a reference
function, whose `ensures` clauses state what a match is, and a method with the
source's shape (short-circuit test, resolution, nested first-match loops) proved
equal to that function:

- a single document token: `Derivation.TokenMatch`, `Derivation.MatchToken`;
- the multiword spans anchored at a document token: `Derivation.MultiwordMatch`,
  `Derivation.MatchMultiwords`;
- a subword of a document token: `Derivation.SubwordMatch`, `Derivation.MatchSubword`.

The nested loops live in `Representations`. `FindIndex`, `FindShared`, `FindSpan`
and `FindSharedInSpans` are the loops. `IndexOf`, `FirstShared`, `SpanIndexOf`
and `FirstSpanShared` are the recursive functions that specify them. Their
contracts pin down the first hit in loop order. The token and subword matchers
share one search, because the source runs the same two loops in both.

The index hook `Derivation.AddWordsMatchingSearchPhraseRootToken` updates a
`Parsing.SearchPhrase` object in place. It adds one key for the root token's
derived lemma when that differs from its lemma. The constant
`Derivation.WORD_MATCH_TYPE_LABEL` is `"derivation"`, as in the source.

Files: `wrappers.dfy` (Option), `text.dfy` (`str.split()` word count, `str.upper()`),
`parsing.dfy` (tokens, spans, subwords, the search phrase), `general.dfy`
(the match record), `representations.dfy` (the searches), `derivation.dfy` (the
strategy), `scenarios.dfy` (worked cases).

Three points about the code that the model keeps:

- The multiword search loops over the search-phrase token's direct
  representations first, then over the spans, then over each span's
  representations (`derivation.py:31-39`).
- The code does not check that a span has at least two tokens, nor that a token's
  direct representations are non-empty.
- The model requires every candidate span to be non-empty and inside the document.
  The code indexes only the span that matches (`derivation.py:48-53`), so a
  malformed span that never matches does no harm there.

## Model

| member | source | states |
|---|---|---|
| `Representations.Resolve` | holmes_extractor/word_matching/derivation.py:76-84 | a unit's resolved representations are its derivation representations when it has them and its direct representations otherwise |
| `Representations.SpanReprs` | holmes_extractor/word_matching/derivation.py:35-38 | a span's representations are its derivation representations when it has them and its direct representations otherwise |
| `Derivation.TokenReprs` | holmes_extractor/word_matching/derivation.py:76-84 | a token's representations are its derivation representations when it has them and its direct representations otherwise |
| `Derivation.SubwordReprs` | holmes_extractor/word_matching/derivation.py:119-127 | a subword's representations are its derivation representations when it has them and its direct representations otherwise |
| `Parsing.FirstToken` | holmes_extractor/word_matching/derivation.py:48-50 | for a span inside the document, the first document token is the document token at the span's first index |
| `Parsing.LastToken` | holmes_extractor/word_matching/derivation.py:51-53 | for a span inside the document, the last document token is the document token at the span's last index |
| `Text.WordCount` | holmes_extractor/word_matching/derivation.py:19 | the number of words `str.split()` yields, runs of characters separated by the `str.isspace()` characters of `Text.IsSpace`, is at most the string's length |
| `Text.TwoWords` | holmes_extractor/word_matching/derivation.py:19 | two whitespace-free non-empty strings joined by a space split into exactly two words |
| `Text.Upper` | holmes_extractor/word_matching/derivation.py:89-90 | upper-casing (`Text.UpperChar` on each character) keeps the length, turns each lower-case ASCII letter into the same letter in upper case, leaves no lower-case ASCII letter, and keeps every other character |
| `Representations.IndexOf` | holmes_extractor/word_matching/derivation.py:39-40 | the result is the position of the first occurrence of the word, and it is absent exactly when the word does not occur |
| `Representations.FirstShared` | holmes_extractor/word_matching/derivation.py:86-88 | the result is the earliest search-side position whose string occurs on the document side, paired with that string's first document-side position; absent exactly when the two sides share nothing |
| `Representations.FindIndex` | holmes_extractor/word_matching/derivation.py:87-88 | the inner loop returns exactly `IndexOf` |
| `Representations.FindShared` | holmes_extractor/word_matching/derivation.py:86-88 | the outer-and-inner loop returns exactly `FirstShared` (the same loops at lines 129-131 for subwords) |
| `Representations.SpanIndexOf` | holmes_extractor/word_matching/derivation.py:34-40 | the result is the first span whose resolved representations (derivation, else direct) hold the word, with the word's position in them; absent exactly when no span holds it |
| `Representations.FirstSpanShared` | holmes_extractor/word_matching/derivation.py:31-40 | the result is the earliest representation found in any span, the first span holding it and its position there; absent exactly when no representation is in any span |
| `Representations.FindSpan` | holmes_extractor/word_matching/derivation.py:34-40 | the span loop and the span-representation loop return exactly `SpanIndexOf`; it resolves each span's representations inside the loop as the source does |
| `Representations.FindSharedInSpans` | holmes_extractor/word_matching/derivation.py:31-40 | the three nested loops return exactly `FirstSpanShared` |
| `Derivation.Explanation` | holmes_extractor/word_matching/derivation.py:159-161 | the explanation is "Has a common stem with " + display word + "."; the display word can be read back from it |
| `Derivation.ExplanationInjective` | holmes_extractor/word_matching/derivation.py:159-161 | different display words give different explanations |
| `Derivation.TokenMatch` | holmes_extractor/word_matching/derivation.py:63-103 | no match when neither token has derivation representations; otherwise a match exactly when the resolved sets share a string; a match has equal words, the document word in the document's resolved set, first = last = document token, no subword, type "derivation", the explanation built from the upper-cased search-phrase lemma, and the search-phrase word is the earliest shared search-side representation |
| `Derivation.MatchToken` | holmes_extractor/word_matching/derivation.py:63-103 | the method's result is exactly `TokenMatch` |
| `Derivation.AnySpanDerivation` | holmes_extractor/word_matching/derivation.py:21-23 | the scan over the spans in order is true exactly when some candidate span has derivation representations |
| `Derivation.MultiwordMatch` | holmes_extractor/word_matching/derivation.py:11-61 | no match when the search-phrase lemma splits into one word; no match when neither the search-phrase token nor any span has derivation representations; otherwise a match exactly when some direct search-phrase representation is in some span's resolved set; a match reports the probe token, no subword, equal words, the first and last tokens of the span hit first when searching search-phrase direct representations, then spans, then span representations |
| `Derivation.MatchMultiwords` | holmes_extractor/word_matching/derivation.py:11-61 | the method's result is exactly `MultiwordMatch` |
| `Derivation.SubwordMatch` | holmes_extractor/word_matching/derivation.py:105-146 | no match when neither the search-phrase token nor the subword has derivation representations; otherwise a match exactly when the resolved sets share a string; a match records the subword, first = last = parent document token, equal words from both resolved sets, the earliest shared search-side representation |
| `Derivation.MatchSubword` | holmes_extractor/word_matching/derivation.py:105-146 | the method's result is exactly `SubwordMatch` |
| `Derivation.SubwordAgreesWithToken` | holmes_extractor/word_matching/derivation.py:105-146 | a subword with a token's representations matches exactly when the token does, and the match differs only in the recorded subword |
| `Derivation.WithDerivedLemma` | holmes_extractor/word_matching/derivation.py:148-157 | one key is added when the root's derived lemma differs from its lemma, none otherwise; earlier keys are kept; the new key is (derived lemma, "derivation", 0) |
| `Derivation.ReRegistrationRedundant` | holmes_extractor/word_matching/derivation.py:148-157 | registering a second time adds no key that the first registration did not |
| `Derivation.AddWordsMatchingSearchPhraseRootToken` | holmes_extractor/word_matching/derivation.py:148-157 | the search phrase's keys become `WithDerivedLemma` of its old keys and root token |
| `Parsing.SearchPhrase.AddWordInformation` | holmes_extractor/word_matching/derivation.py:153-157 | the given key is appended to the search phrase's keys |
| `Text.AtLeastOneWord` | holmes_extractor/word_matching/derivation.py:19 | a lemma with a non-whitespace character splits into at least one word |
| `Text.NoWords` | holmes_extractor/word_matching/derivation.py:19 | a lemma splits into no words exactly when it is all whitespace, so a blank lemma passes the one-word test |
| `Text.SingleWord` | holmes_extractor/word_matching/derivation.py:19 | a non-empty lemma without whitespace is one word |
| `Text.SeveralWords` | holmes_extractor/word_matching/derivation.py:19 | non-whitespace, whitespace, non-whitespace in that order means at least two words |
| `Text.AtMostOneWord` | holmes_extractor/word_matching/derivation.py:19 | a string without a non-whitespace, whitespace, non-whitespace pattern splits into at most one word |
| `Text.ExactlyOneWord` | holmes_extractor/word_matching/derivation.py:19 | a string splits into exactly one word (so the multiword matcher returns no match) exactly when it has a non-whitespace character and no non-whitespace, whitespace, non-whitespace pattern |
| `Scenarios.SingleWordLemmaNeverMatchesSpans` | holmes_extractor/word_matching/derivation.py:19-20 | a search-phrase lemma without whitespace never matches multiword spans, whatever the representations |
| `Scenarios.DecisionAgainstDecide` | holmes_extractor/word_matching/derivation.py:76-103 | "decision" without derivation representations does not match a document "decide" that has them |
| `Scenarios.DecideAgainstDecision` | holmes_extractor/word_matching/derivation.py:76-102 | with derivation form "decide" on the search-phrase side, the document's direct "decide" matches, explained as "Has a common stem with DECISION." |
| `Scenarios.SharedFormMatchesSpan` | holmes_extractor/word_matching/derivation.py:31-60 | a multiword lemma whose first direct representation is in the single span's derivation set matches on it, bounded by that span's first and last tokens |
| `Scenarios.CreditCardIsTwoWords` | holmes_extractor/word_matching/derivation.py:19 | "credit card" splits into exactly two words, so it passes the one-word test |
| `Scenarios.TwoTokenSpanMatches` | holmes_extractor/word_matching/derivation.py:19-60 | a multiword lemma whose one direct form is the derivation form of a two-token span matches on that form, bounded by the document's first and second tokens, with no subword |
| `Scenarios.CreditCardSpan` | holmes_extractor/word_matching/derivation.py:19-60 | "credit card" matches a two-token span whose derivation form is "credit card", on "credit card" on both sides, bounded by its first and last tokens, with no subword |
| `Scenarios.DecisionRegistersDecide` | holmes_extractor/word_matching/derivation.py:148-157 | a root "decision" with derived lemma "decide" adds the one key ("decide", "derivation", 0) |

## Left out

- spaCy tokens, documents and the `_.holmes` extension: tokens are records of lemma, derived lemma and the two representation sets; a document is the sequence of its tokens, passed to the multiword matcher.
- The `search_phrase` argument of the three matchers: the source never reads it, so it is not a parameter.
- Lines 26-29 of `derivation.py` resolve the search phrase's derivation representations for the multiword search and never use the result; the model does not compute it.
- The subword fallback reads `document_subword.holmes.direct_matching_reprs` (line 127), a different path from `document_subword.derivation_matching_reprs` (line 124). Both are fields of `Parsing.Subword`. Whether a subword has that `holmes` attribute depends on the `Subword` class, which is not part of this model.
- MultiwordMatch: requires every candidate span to be non-empty and inside the document; the source only indexes the span that matches and raises `IndexError` there when that span is malformed, which is not modelled.
- MatchMultiwords: has the same requirement on the candidate spans as `MultiwordMatch`, for the same reason.
- The `any(...)` test at lines 21-23 yields the spans themselves; the model assumes span objects are always truthy, as plain objects are.
- `WordMatch`, `WordMatchingStrategy` and `SearchPhrase` are not part of this model beyond what the strategy uses: `WordMatch` is a datatype and `add_word_information` appends one key.
- `Text.Upper` models `str.upper()` for ASCII letters only; other characters are left as they are, and Unicode case mappings that change length are not modelled.
- `Text.WordCount` models `len(str.split())` with the whitespace set of `str.isspace()`; the words themselves are not built.
- Object identity is not modelled: tokens, spans and subwords are values, so two equal units are indistinguishable in a match.
- The orchestrator that runs the strategies, their registration order and concurrency are outside this file.
