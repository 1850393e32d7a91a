# Lexicon-based sentence sentiment for Dutch, modelled in Dafny

This project models the core of a lexicon-based sentiment scorer for Dutch text.
Sentiment lexicons are loaded into dictionaries that map a lower-cased lemma or word form
to parallel lists of PoS tags and polarity values. A sentence is a list of `WordObject`s
(surface form, lemma, coarse PoS tag and a mutable `IsNegated` flag). Scoring a sentence
has four steps:

1. Flag every token that follows a negator such as *niet* or *geen*.
2. Look each non-negator token up in the dictionaries, in priority order. In each
   dictionary the key is the token's lemma if that is a key, otherwise its surface form.
   The first dictionary whose entry for that key lists the token's PoS tag gives its value.
   The value is negated when the token is flagged.
3. Sum the values.
4. Compare the sign of the sum with the sentence's gold label.

The modules follow the program:

- `SentimentObjects` holds the data classes. `WordObject` and `SentenceObject` are Dafny
  classes, because the scorer updates `IsNegated` in place. `SentimentEntry` and
  `SentimentDictionary` are values.
- `LexiconLoader` models `get_dict_object` after the XML has been read. The first pass
  inserts one entry per key or appends to an existing entry. The second pass collapses
  entries whose PoS tags are all the same. Both passes are written as loops (`CollectItems`,
  `MergeEntries`) and proved equal to specification functions (`Collect`,
  `MergeAll`, `Load`). The lemmas are about those functions.
- `Negation` models the in-place tagging loop (`TagNegations`) and its value-level
  specification `Tagged`.
- `Matcher` models `match_lexicon` as nested loops (`MatchLexicon`, `SearchDictionaries`)
  and proves them equal to `MatchAll`, `FirstMatch` and `LookupIn`.
- `Scoring` models `map_gold_label`, the correctness test and the per-sentence and
  per-file loops of `get_sentiment_from_lexicon`.
- `Preprocess` models the coarse PoS cut.
- `Strings` holds ASCII lower-casing; `Sums` holds sums and means.
- `Wrappers` holds `Option` and `Result`.

The model follows the code, including these behaviours a reader might not expect:

- The first token of a sentence is compared with the *last* token. The code reads
  `WordObjects[i-1]`, which is index -1 for i = 0. So "goed niet" negates *goed*
  (`Scoring.GoedNiet`).
- A PoS mismatch in one dictionary does not stop the search. The `continue` leaves `found`
  false, so the next dictionary is tried (`Matcher.PosMismatchMovesOn`).
- A content-word item whose polarity is neither a named label nor a number is not skipped.
  `float(polarity)` raises, and the whole load fails (`LexiconLoader.LoadSucceeds`).
- The negator test in `match_lexicon` is case-sensitive on the surface form. The tagging
  loop lower-cases it.
- A dictionary key equal to `""` never matches, because `if entry:` is false for it. It
  also blocks the surface-form fallback, since the `elif` is not reached.
- A PoS tag is stored as written in the lexicon, while it is lower-cased only for the
  content-word test.

## Model

| member | source | states |
|---|---|---|
| SentimentObjects.WordObject.constructor | SentimentObjects.py:25-30 | stores word, lemma and PoS; a new word is not negated |
| SentimentObjects.SentenceObject.constructor | SentimentObjects.py:32-36 | stores the sentence text, its gold label and its word list |
| Preprocess.CoarsePoS | lexiconmatch_NL.py:158 | the result is the prefix of the tag before its first `(`, contains no `(`, and is the whole tag when there is none |
| LexiconLoader.LabelValue | lexiconmatch_NL.py:44-57 | a named label gets its table value; otherwise a label that parses as a number gets that number; otherwise the item is an error |
| LexiconLoader.ItemKey | lexiconmatch_NL.py:58-62 | the key is the lower-cased lemma, or the lower-cased word form when the lemma is empty; it is always lower-case |
| LexiconLoader.CollectFails | lexiconmatch_NL.py:38-57 | the first pass succeeds exactly when every content-word label resolves; on failure it reports the first bad label |
| LexiconLoader.CollectFailureSticks | lexiconmatch_NL.py:54-55 | once a prefix of the items has failed, the whole pass fails with the same error |
| LexiconLoader.CollectKeys | lexiconmatch_NL.py:58-66 | the keys after the first pass are exactly the keys of the content-word items |
| LexiconLoader.CollectEntry | lexiconmatch_NL.py:62-66 | each entry holds, in item order, the tags and values of the items with its key, the lemma of the first of them, and the domains |
| LexiconLoader.CollectIgnoresFunctionWords | lexiconmatch_NL.py:37-43 | the first pass over all items equals the first pass over the content-word items alone |
| LexiconLoader.FunctionWordChangesNothing | lexiconmatch_NL.py:43 | inserting a non-content item anywhere leaves the first pass unchanged |
| LexiconLoader.CollectSize | lexiconmatch_NL.py:62-66 | there are never more keys than content-word items |
| LexiconLoader.CollectParallel | lexiconmatch_NL.py:63-66 | every entry has equally many tags and values, and at least one of each |
| Sums.SingletonSet | lexiconmatch_NL.py:68-69 | a non-empty list has a one-element set exactly when all its elements are equal |
| Sums.MeanOfEqual | lexiconmatch_NL.py:71 | the mean of equal values is that value |
| LexiconLoader.MergeEntry | lexiconmatch_NL.py:68-79 | several tags that are all equal collapse to one tag with the mean of the values; otherwise the entry is unchanged; lemma, domains and parallel lists are kept |
| LexiconLoader.MergeEntryIdempotent | lexiconmatch_NL.py:67-79 | merging a merged entry changes nothing |
| LexiconLoader.MergeAll | lexiconmatch_NL.py:67-80 | the second pass keeps the set of keys |
| LexiconLoader.LoadSucceeds | lexiconmatch_NL.py:33-34 | `Load`: loading succeeds exactly when one domain is declared and every content-word label resolves; more or fewer domains give DomainCount |
| LexiconLoader.LoadedDictionary | lexiconmatch_NL.py:36-81 | the loaded dictionary is named after the domain; its keys are the lower-cased keys of the content-word items, no more numerous than those items; every entry is parallel and non-empty |
| LexiconLoader.LoadedEntry | lexiconmatch_NL.py:58-79 | each loaded entry is the merge of the tags and values of the items with its key, with the first such lemma and the declared domains |
| LexiconLoader.MergeOfOpposites | lexiconmatch_NL.py:44-79 | a positive and a negative item with the same key and tag merge to one tag with value 0.0 |
| LexiconLoader.GetDictObject | lexiconmatch_NL.py:27-81 | the method returns the specified load result, error cases included |
| LexiconLoader.CollectItems | lexiconmatch_NL.py:38-66 | the first-pass loop computes the first pass, stopping at the first bad label |
| LexiconLoader.MergeEntries | lexiconmatch_NL.py:67-80 | the second-pass loop, including its inner averaging loop, computes the merge of every entry |
| Negation.OccursIsMembership | lexiconmatch_NL.py:25 | the recursive negator search finds exactly the members of the list |
| Negation.Prev | lexiconmatch_NL.py:116 | the predecessor of position i is i - 1, and for position 0 the last position |
| Negation.Tagged | lexiconmatch_NL.py:115-119 | tagging keeps every token's surface form, lemma and PoS, and flags a token exactly when it was flagged or follows a negator (compared lower-cased) |
| Negation.TaggedIdempotent | lexiconmatch_NL.py:115-119 | tagging twice is tagging once |
| Negation.FirstTokenConsultsLast | lexiconmatch_NL.py:116 | the first token is negated when the last token is a negator |
| Negation.TagNegations | lexiconmatch_NL.py:115-119 | each word ends up flagged exactly when it was flagged or some position holding it follows a negator; for a list without repeated objects, the new state is the tagged old state |
| Matcher.IndexOf | lexiconmatch_NL.py:197 | the result is the first position holding the tag |
| Matcher.SelectKey | lexiconmatch_NL.py:188-193 | the lemma is looked up first, the surface form only when the lemma is not a key |
| Matcher.LookupIn | lexiconmatch_NL.py:188-200 | a dictionary gives a value exactly when the selected key is not empty and its entry has the token's tag; the value is the one at the tag's first position, negated when the token is flagged |
| Matcher.MatchToken | lexiconmatch_NL.py:184 | a token yields at most one match, and none when its surface form is a negator |
| Matcher.FirstMatchIsFirst | lexiconmatch_NL.py:186-203 | the match comes from the first dictionary that gives a value, with that dictionary's name; there is none when no dictionary gives one |
| Matcher.PosMismatchMovesOn | lexiconmatch_NL.py:194-205 | a dictionary that has the key but not the tag is skipped, and the search continues |
| Matcher.NegationFlips | lexiconmatch_NL.py:199-200 | flagging a token negates the value of its match and changes nothing else |
| Matcher.MatchAllConcat | lexiconmatch_NL.py:183 | the matches of a concatenation are the matches of each part, in order |
| Matcher.MatchAllSize | lexiconmatch_NL.py:183-203 | there are never more matches than tokens |
| Matcher.SearchDictionaries | lexiconmatch_NL.py:185-203 | the inner loop with its `found` flag returns the first match over the dictionaries |
| Matcher.MatchLexicon | lexiconmatch_NL.py:178-207 | the matches are those of the tokens in order, and the polarity list holds their values |
| Scoring.MapGoldLabelTable | lexiconmatch_NL.py:164-175 | `MapGoldLabel`: a label whose lower-cased form is recognised maps to 1.0, -1.0 or 0.0; any other label is kept as it is |
| Scoring.GoldLabelIgnoresCase | lexiconmatch_NL.py:166-171 | of two labels that agree after lower-casing, both are recognised or neither is; recognised ones map to the same value, which is one of -1.0, 0.0 and 1.0 |
| Scoring.CorrectIffSignAgrees | lexiconmatch_NL.py:127-132 | `IsCorrect`: a prediction is correct exactly when the gold label is numeric and equals the sign of the score |
| Scoring.CountCorrectBound | lexiconmatch_NL.py:97-132 | the correct count never exceeds the number of sentences |
| Scoring.ProcessSentence | lexiconmatch_NL.py:113-132 | each word object is left flagged exactly when it was flagged or some position holding it follows a negator; for a sentence without repeated word objects, the tokens end up tagged and the result is the mapped gold label, the sum of the matches of the tagged tokens, the text and those matches; with repeated objects the matches are those of the tokens as tagging left them; correctness is the sign test |
| Scoring.ProcessNth | lexiconmatch_NL.py:112-132 | processing one sentence of a file tags that sentence's tokens, gives its result, and leaves every other sentence's tokens unchanged |
| Scoring.OutcomesAt | lexiconmatch_NL.py:110-132 | the result for sentence k of a file is that sentence's own result |
| Scoring.GetSentimentFromLexicon | lexiconmatch_NL.py:97-132 | every sentence is counted; the results are the per-sentence results of the tokens as they were before tagging; the correct counter counts the correct results and never exceeds the total; afterwards every sentence's tokens are tagged |
| Scoring.NietGoed | lexiconmatch_NL.py:115-119 | "niet goed", with goed an adjective of value 1.0, scores -1.0 |
| Scoring.GoedNiet | lexiconmatch_NL.py:115-119 | "goed niet" also scores -1.0: the first token follows the last one, niet |
| Scoring.GoldScenarios | lexiconmatch_NL.py:127-132 | positive agrees with 2.5; Neutral with 0.0 but not with 0.001; the unrecognised label "mixed" with no score |

## Left out

- Reading the lexicon XML (`ET.parse`, `root.iter`) is not modelled. The loader starts from
  the list of items and the list of declared domains.
- `float(polarity)` is not modelled. Each item carries `Parsed`, the number the label spells
  or None where Python raises.
- Floating point is modelled as `real`. Rounding in sums and means, and `float()`
  conversions of values that are already floats, are not modelled.
- File I/O is left out: reading the test file, the two output files and their names, and
  every `print`. The per-sentence results are returned as a list instead of being written
  out.
- The accuracy percentage (line 136) is left out. The model returns the two counters it is
  computed from.
- `prepro_instance` and the external `lets` preprocessor are not part of this model, apart
  from the coarse PoS cut at line 158. The file driver takes sentences that are already
  preprocessed.
- `OriSentence.strip()` in the output is left out, since it only affects the written text.
- `main` and the choice and order of lexicon files are left out.
- Lower-casing is ASCII only. Python's Unicode `lower()` is not modelled.
- Scoring.GetSentimentFromLexicon: requires that no `WordObject` is shared within or
  between sentences. The preprocessor creates fresh objects, so this holds there. With
  shared objects, `ProcessSentence` still states the matches of the tokens as tagging left
  them, but the file-level result is not stated.
- LexiconLoader.MergeEntries: entries are replaced as values in the map. The source
  mutates the existing `SentimentEntry` objects, which no other code holds a reference to.
- Sums.MeanOfEqual: the source converts the first value with `float()`, which the model
  treats as the identity.
