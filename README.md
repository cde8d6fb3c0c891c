# Sentence pipeline of a TTS corpus builder, in Dafny

This project models the sentence pipeline of `llm_lfe_data`, a builder of
text-normalisation and text-to-speech corpora, and proves properties of
that model.

- A **pronunciation dictionary** (`CMUDict`) maps upper-case spellings to
  phone strings. Some spellings carry a sense tag such as `WITH(2)`. The
  dictionary has:
  - a case-insensitive lookup that answers "absent" on a miss;
  - a fixed table of 30 hand corrections;
  - the removal of every word that has more than one pronunciation
    (its heteronyms).
- The **CMU file reader** skips `;;;` comment lines and splits every
  other line at its first space.
- The **semiotic-class corpus reader** reads `CLASS<TAB>original<TAB>normalised`
  token lines.
  - An `<eos>` line closes the sentence being built.
  - `<self>` stands for the original token, and `sil` becomes `<sil>`.
  - Tokens are appended with a trailing space. Classes are gathered into
    a set.
  - The reader exists twice: in `SproatParser.parse_file`, and as the CSV
    builder's `load_sentences`. The CSV builder strips each finished
    sentence.
- The **LJ Speech reader** reads `id|original|normalised` lines, one
  sentence per line.
- The **sentence filter**:
  - `skip_sentence` with its two random draws;
  - `normalisation_in_semiotic_classes`;
  - the out-of-vocabulary test;
  - each parser's `subselect_sentences`.
- The **phonemiser** builds a `<w>`-delimited phone string from the
  normalised text. A run of pauses collapses to one `<sil> <w>`.

Two consequences of the code that the model makes explicit:

- `contains_oov` (utils/utils.py:37-42) neither strips `<sil>` nor
  applies `modify_word_for_lex_lookup`. A sentence holding `<sil>` is
  out of vocabulary unless the dictionary has `<SIL>`
  (`Utils.SilTokenIsOov`).
- A normalised token may hold several words, so the word counts of a
  sentence's two texts can differ (`Parsers.BlockWords`).

## How the model is laid out

Modules follow the source files:

| module | file | models |
|---|---|---|
| `Text` | `text.dfy` | the Python `str` built-ins the code relies on: `isspace`, `strip`, `split()`, `split(sep)`, `split(sep, 1)`, `startswith`, `endswith`, `in` and `upper` (exact over Latin-1) |
| `CmuUtils` | `cmu_utils.dfy` | `utils/cmu_utils.py` |
| `Lexicon` | `lexicon.dfy` | `lexicon.py`; `CMUDict` is a class whose `dictionary` field the methods update in place |
| `Utils` | `utils.dfy` | `utils/utils.py` |
| `Sentences` | `sentences.dfy` | the sentence dictionary: a `Sentence` class updated in place, and its value `Record` |
| `SproatUtils` | `sproat_utils.dfy` | `utils/sproat_utils.py` |
| `Parsers` | `parsers.dfy` | `parsers.py`; `SproatParser` and `LJParser` are classes holding the `sentences` list |
| `CreateDataCsv` | `create_data_csv.dfy` | `create_data_csv.py`; `DefaultDict` models the `defaultdict(str)` it fills in place |

### Conventions

- **Files.** A file is the sequence of lines `readlines()` returns.
- **Errors.** A Python exception becomes an error value, and the run ends
  there.
  - An unpacking `ValueError` is a `None` result or an `ok == false`.
  - A `KeyError` from `del` is an `Aborted` outcome naming the missing
    key.
  - A `TypeError` from `None + ' <w> '` is a `None` phone string.
- **Helpers defined elsewhere** are parameters, since no body of theirs
  is part of this model:
  - `strip_sentence` and `replace_punct_with_sil` are record-to-record
    functions;
  - `modify_word_for_lex_lookup` is the `Modifier` `wordForm`;
  - `exclusively_contains_sil` and `is_short` are predicates on a record;
  - `random_reject` is an oracle `reject(k, p)`: the answer of the k-th
    call with probability `p`. Threading the call count lets the model
    say which draws happen, and in which order.
- **Tests written as one comparison** are predicates with no contract of
  their own. These are `contains_eos` (`Utils.ContainsEos`),
  `token_not_normalised`/`no_normalisation` (`Utils.TokenNotNormalised`),
  `is_sil` (`Utils.IsSil`) and `skip_line` (`CmuUtils.SkipLine`). The
  lemmas below state what follows from them.

## Model

| member | source | states |
|---|---|---|
| CmuUtils.GetEntry | utils/cmu_utils.py:9-11 | a line fails to unpack exactly when it holds no space; the word returned holds no space (it is what precedes the first space, stripped) |
| CmuUtils.EntryRoundTrip | utils/cmu_utils.py:9-11 | a line in the CMU layout `WORD  PHONES\n` gives back exactly that word and those phones |
| CmuUtils.CmuParser | utils/cmu_utils.py:14-24 | the loop over the lines returns `ParseLexicon(lines)`: comment lines skipped, every other line setting its word, and no dictionary at all once a line cannot be unpacked |
| CmuUtils.ParseFailureSticks | utils/cmu_utils.py:19-22 | once a prefix of the lines fails, the whole file fails |
| CmuUtils.ParseFailsIff | utils/cmu_utils.py:19-22 | parsing fails exactly when some non-comment line has no space |
| CmuUtils.LastDefinitionWins | utils/cmu_utils.py:19-22 | a word is a key exactly when some non-comment line defines it, spelt as in the file, and its value is the phones of the last such line |
| CmuUtils.CommentLineAddsNothing | utils/cmu_utils.py:19-22 | a `;;;` line inserted anywhere among the lines, between any prefix and any suffix, leaves the parse unchanged, a failing parse included |
| Lexicon.EraseSenseTags | lexicon.py:165 | `re.sub(r"\(\d\)", '', key)` scanning left to right; the result is never longer than the key |
| Lexicon.EraseUnchangedIff | lexicon.py:165-166 | the substitution leaves a key unchanged exactly when it holds no `(d)` group |
| Lexicon.EraseWithoutParen | lexicon.py:165 | a spelling without `(` is left alone |
| Lexicon.SenseKeyErases | lexicon.py:165 | `WORD(n)` reduces to `WORD` |
| Lexicon.WithoutHeteronyms | lexicon.py:159-171 | what heteronym removal leaves is a sub-map of the dictionary with unchanged values |
| Lexicon.NoSenseTagsRemain | lexicon.py:164-167 | after heteronym removal no key holds a `(d)` group |
| Lexicon.RemoveHeteronymsIdempotent | lexicon.py:159-171 | a second heteronym removal changes nothing |
| Lexicon.UntaggedKeyKeptIff | lexicon.py:165-171 | an untagged key is deleted exactly when some tagged key of the original map reduces to it; a kept key keeps its value; no tagged key survives |
| Lexicon.Remaining | lexicon.py:163-171 | the dictionary part way through the key loop is a sub-map with unchanged values, and once every key is visited it is `WithoutHeteronyms` |
| Lexicon.RemainingStep | lexicon.py:165-171 | visiting an untagged key changes nothing; a tagged key is still present exactly when no visited key reduced to it, and it goes together with its bare form |
| Lexicon.CMUDict.RemoveHeteronyms | lexicon.py:159-171 | over the key snapshot in any order: when no `del` fails the result is `WithoutHeteronyms` of the old dictionary; a `del` can fail only when erasing some key's tags leaves another tagged key; in every case only old keys remain, with old values |
| Lexicon.CMUDict.RemoveKeyIfTagged | lexicon.py:165-171 | one turn of the loop: it deletes a tagged key and its bare form (if present), and it fails, changing nothing, exactly when the tagged key was already deleted as some earlier key's bare form |
| Lexicon.TouchedErasesToStem | lexicon.py:43-155 | every key a valid correction reads, writes or deletes reduces to the word it is about |
| Lexicon.TouchedDisjoint | lexicon.py:43-155 | corrections about different words touch disjoint keys |
| Lexicon.DeleteKeysEffect | lexicon.py:54-56 | a run of `del` over distinct keys succeeds exactly when all are present, and then removes exactly them |
| Lexicon.ApplyEffect | lexicon.py:43-155 | one valid correction succeeds exactly when the keys it needs are present, then keeps its promise and leaves every key it does not touch as it was |
| Lexicon.ApplyAllFrame | lexicon.py:43-155 | a key that no correction touches is left as it was by a run of corrections |
| Lexicon.ApplyAllDoneIff | lexicon.py:43-155 | a valid table runs to the end exactly when every key it needs is in the starting dictionary |
| Lexicon.ApplyAllHolds | lexicon.py:43-155 | after a valid table has run, every correction in it has kept its promise against the starting dictionary |
| Lexicon.CorrectionsValid | lexicon.py:43-155 | the source's table is valid: its 30 corrections are about 30 different words without parentheses, and every promotion deletes the sense it copies, each sense once |
| Lexicon.CorrectionsRunIff | lexicon.py:48-155 | the corrections run to the end exactly when every sense key they read or delete is present |
| Lexicon.TableHolds | lexicon.py:43-155 | after the corrections, entry `i` of the table has kept its promise |
| Lexicon.OtherWordsUntouched | lexicon.py:43-155 | a key whose bare form is none of the corrected words is kept with its value |
| Lexicon.UntouchedByTable | lexicon.py:43-155 | the same for any valid table, given its words |
| Lexicon.TheEntriesAdded | lexicon.py:43-44 | `THE_VOWEL` maps to `DH IY0` and `THE_CONSONANT` to `DH AH0` |
| Lexicon.WithPromoted | lexicon.py:53-56 | `WITH` takes the old value of `WITH(2)`, and `WITH(1)`, `WITH(2)` and `WITH(3)` are gone |
| Lexicon.PromotedSurvives | lexicon.py:41-171 | corrections followed by heteronym removal keep a promoted word with the old value of its chosen sense, provided every tagged key of that word is listed in its promotion |
| Lexicon.WithSurvivesHeteronymRemoval | lexicon.py:41-171 | when `WITH` has no senses beyond the three listed, `WITH` survives both steps with the old value of `WITH(2)` |
| Lexicon.NoTaggedSiblingLeft | lexicon.py:159-171 | after a valid table, no sense-tagged key of an entry's word is left for heteronym removal to find, when the entry accounts for all of them |
| Lexicon.DroppedSurvives | lexicon.py:41-171 | a word whose tagged sense a `del` entry removes keeps its own old pronunciation through the corrections and heteronym removal, provided that sense was its only tagged key |
| Lexicon.AddedSurvives | lexicon.py:41-171 | a key an assignment entry writes survives heteronym removal with the phones written, provided no tagged key of the dictionary reduces to it |
| Lexicon.InSurvivesHeteronymRemoval | lexicon.py:46-48 | the unstressed `IN` is kept: when `IN(1)` is its only sense, `IN` survives both steps with its own old value |
| Lexicon.TheEntriesSurvive | lexicon.py:43-44 | `THE_VOWEL` and `THE_CONSONANT` survive both steps with `DH IY0` and `DH AH0` |
| Lexicon.CorrectionsNeedSenseKeys | lexicon.py:41-171 | the corrections always abort on a dictionary whose heteronyms are already removed (`IN(1)` is gone), so their order matters |
| Lexicon.LookupUpper | lexicon.py:37-38 | the entry under the upper-cased word, present exactly when that key is |
| Lexicon.LookupCaseInsensitive | lexicon.py:37-38 | a word and its upper-cased form find the same entry |
| Lexicon.CMUDict.constructor | lexicon.py:13-14 | a dictionary object starts with no entries |
| Lexicon.CMUDict.Init | lexicon.py:13-14 | `init` empties the dictionary |
| Lexicon.CMUDict.LookupExact | lexicon.py:16-20 | the stored value for a present key, absent for a missing one; it never fails |
| Lexicon.CMUDict.Lookup | lexicon.py:37-38 | the stored value under the upper-cased word, absent on a miss |
| Lexicon.CMUDict.Load | lexicon.py:33-35 | the parsed file replaces the dictionary; a file that cannot be parsed leaves it as it was |
| Lexicon.CMUDict.DeleteAll | lexicon.py:54-56 | `del` of each key in turn: the new dictionary is `DeleteKeys` of the old, and the first missing key is reported |
| Lexicon.CMUDict.ApplyCorrection | lexicon.py:53-56 | one correction in place: the new dictionary is `Apply` of the old, with the missing key reported |
| Lexicon.CMUDict.ApplyCorrections | lexicon.py:43-155 | a run of corrections in place, stopping at the first missing key |
| Lexicon.CMUDict.ManuallyModifyAndRemoveEntries | lexicon.py:41-155 | the table in source order: the new dictionary is `ApplyAll` of the old, and the `KeyError` key is reported |
| Utils.EosFoundAnywhere | utils/utils.py:4-5 | `<eos>` is found wherever it sits in a line |
| Utils.CleanSil | utils/utils.py:23-26 | the token changes exactly when it is `sil`, and then becomes a pause marker (the same code as in utils/sproat_utils.py:13-16 and create_data_csv.py:66-69) |
| Utils.CleanSilIdempotent | utils/utils.py:23-26 | cleaning twice is cleaning once |
| Utils.NormalisationInSemioticClasses | utils/utils.py:12-19 | false exactly for a non-empty subset of {PLAIN, PUNCT}; true for the empty set and for every other set (the same code as in utils/sproat_utils.py:58-65) |
| Utils.RemoveSil | utils/utils.py:29-30 | `replace('<sil>', '')`, scanning left to right; never lengthens |
| Utils.RemoveSilUnchangedIff | utils/utils.py:29-30 | a string is left unchanged exactly when it holds no `<sil>` |
| Utils.RemoveSilAround | utils/utils.py:29-30 | every marker goes wherever it sits: removing from `a + "<sil>" + b` gives the removal from `a` followed by the removal from `b` |
| Utils.ContainsOov | utils/utils.py:37-42 | true exactly when some whitespace-separated word has a missing or empty lookup |
| Utils.BlankSentenceHasNoOov | utils/utils.py:37-42 | a sentence without words has nothing out of vocabulary |
| Utils.SilTokenIsOov | utils/utils.py:37-42 | `<sil>` is looked up like any word, so without a `<SIL>` entry a sentence holding it counts as out of vocabulary |
| Sentences.Sentence.constructor | parsers.py:68-72 | a fresh sentence with empty texts, no classes and no phone string |
| Sentences.Sentence.FromRecord | parsers.py:118-121 | a fresh dictionary holding the given contents |
| Sentences.Sentence.Set | utils/sproat_utils.py:41-43 | the sentence's keys are overwritten in place with the given contents |
| SproatUtils.GetSemioticClass | utils/sproat_utils.py:19-21 | defined exactly when the stripped line splits into three tab fields, and then it is the first field |
| SproatUtils.GetOriginalToken | utils/sproat_utils.py:24-26 | defined exactly when there are three fields, and then it is the second (the same code as in create_data_csv.py:50-52) |
| SproatUtils.GetNormalisedToken | utils/sproat_utils.py:29-33 | defined exactly when there are three fields. A third field `<self>` gives the original token after `clean_sil`; `sil` gives `<sil>`; anything else passes through unchanged (the same code, with `no_normalisation`, as in create_data_csv.py:55-63) |
| SproatUtils.TokenLineRoundTrip | utils/sproat_utils.py:19-33 | a token line as the corpus writes it, with any line ending, gives back its class, its original token and its normalised token |
| SproatUtils.EmptyNormalisedColumnIsLost | utils/sproat_utils.py:19-21 | `strip()` also eats the tab before an empty last column, so such a line no longer has three fields |
| SproatUtils.Updated | utils/sproat_utils.py:36-45 | the new sentence exists exactly when the line unpacks, and the phone string is untouched |
| SproatUtils.AppendToken | utils/sproat_utils.py:42-43 | appending a token and a space to text that is empty or ends in whitespace adds the token's words after the text's words |
| SproatUtils.UpdatedWords | utils/sproat_utils.py:36-45 | after an update, the words of each text are the old words followed by the token's words; the class joins the set and the set only grows |
| SproatUtils.UpdateSentence | utils/sproat_utils.py:36-45 | mutates the sentence in place into `Updated` of it. A line that does not unpack changes nothing, because all three getters run before the first change |
| SproatUtils.SkipSentence | utils/sproat_utils.py:48-55 | an all-silence sentence is skipped with no draw. At most two draws are made. A skip needs all silence, shortness or an uninteresting class set |
| SproatUtils.ShortRuleFirst | utils/sproat_utils.py:51-55 | for a short sentence the first draw is the short rule's at 0.9; a rejection there ends the test, otherwise the class rule draws second at 0.5 |
| SproatUtils.ClassRuleAlone | utils/sproat_utils.py:53-55 | a sentence that is neither all silence nor short is skipped only by the class rule, with one draw at 0.5 |
| SproatUtils.NeverRejecting | utils/sproat_utils.py:48-55 | with a generator that never rejects, exactly the all-silence sentences are skipped |
| SproatUtils.AlwaysRejecting | utils/sproat_utils.py:48-55 | with a generator that always rejects, exactly the sentences failing some rule are skipped |
| Parsers.StepShape | parsers.py:29-38 | one token keeps the phone string starting and ending with `<w> ` |
| Parsers.PhonesShape | parsers.py:27-38 | every intermediate phone string starts and ends with `<w> ` |
| Parsers.PhonesNoneSticks | parsers.py:29-32 | once a lookup is absent (the TypeError) the run never recovers |
| Parsers.PhonesNoneIff | parsers.py:29-32 | the run fails exactly when some word token has no entry |
| Parsers.PhonesAfterSil | parsers.py:33-35 | after a pause the string ends with `<sil> <w> ` |
| Parsers.SilAfterSilAddsNothing | parsers.py:33-37 | a pause right after a pause adds nothing |
| Parsers.PhonesShifted | parsers.py:27-38 | two token lists that reach the same phone string at some positions, and from there hold the same tokens with the same lookups (`TokensAgree`), reach the same phone string at the end of that stretch |
| Parsers.SlicesAgree | parsers.py:27-38 | with a word form that depends on the token alone, equal stretches of tokens have the same lookups position by position |
| Parsers.DroppedPauseTokens | parsers.py:33-37 | dropping the second of two adjacent pauses leaves the phone string of the whole token list unchanged |
| Parsers.DoubledPauseTokens | parsers.py:33-37 | the token lists `a + [<sil>, <sil>] + b` and `a + [<sil>] + b` give the same phone string |
| Parsers.DoubledPauseChangesNothing | parsers.py:26-40 | a sentence whose words are another's with one pause doubled is phonemised exactly as that sentence |
| Parsers.Phonemise | parsers.py:26-40 | the phone string starts with `<w>` and has no whitespace at either end |
| Parsers.NoTokensGivesMarker | parsers.py:26-40 | a sentence without tokens becomes exactly `<w>` |
| Parsers.PhoneString | parsers.py:27-38 | the token loop, with its look-back at the string's end, computes `Phones` of all the tokens, and None as soon as a word has no entry |
| Parsers.PhonemiseSentence | parsers.py:26-40 | splitting the sentence, running the loop and stripping the result computes `Phonemise` |
| Parsers.EndsWithSilIff | parsers.py:33-37 | when no entry ends in `<sil>`, the string ends with `<sil> <w> ` exactly after a pause token |
| Parsers.PieceStep | parsers.py:29-38 | when every word has an entry and no entry ends with `<sil>` (`PlainEntries`), each token appends its own piece: a word its phones and ` <w> `, the first pause of a run `<sil> <w> `, a later pause nothing |
| Parsers.PhonesArePieces | parsers.py:27-38 | the phone string is `<w> ` followed by the tokens' pieces in order |
| Parsers.SetPhonemised | parsers.py:59-60 | each sentence in order gets the phone string of its normalised text until one fails; no other field changes, and sentences not reached keep their old phone string |
| Parsers.PhonemiseSentences | parsers.py:57-60 | `phonemise_sentences` with `phonemise_sentence`: the same, with the TypeError stopping the run |
| Parsers.OnePerEos | parsers.py:75-83 | when no line fails, the reader has closed one sentence per `<eos>` line |
| Parsers.ReadFailsIff | parsers.py:75-85 | for a token step that fails on exactly some lines, the run fails exactly when some token line is one of them |
| Parsers.SproatFailsIff | parsers.py:75-85 | the Sproat reader fails exactly when some token line does not unpack into three fields |
| Parsers.ReadFailureSticks | parsers.py:75-85 | once a line has failed, later lines change nothing |
| Parsers.TrailingTokensDropped | parsers.py:75-85 | token lines after the last `<eos>` never reach the sentence list |
| Parsers.ReadBlock | parsers.py:75-85 | after an `<eos>` the token lines build their sentence from empty, leaving the closed sentences alone |
| Parsers.SentencePerEos | parsers.py:76-83 | each `<eos>` appends the sentence its own token lines built from empty texts and an empty class set, and starts an empty one |
| Parsers.BlockWords | parsers.py:75-85 | a built sentence's original and normalised texts hold the tokens' words, in order |
| Parsers.BlockClasses | parsers.py:75-85 | a built sentence's classes are the set of its tokens' classes, and it has no phone string |
| Parsers.ReadSentences | parsers.py:68-85 | the line loop appends one fresh sentence per `<eos>` line to the prior list, in file order, holding what the reader closed; a failing line stops it and keeps what was appended |
| Parsers.SproatParser.constructor | parsers.py:45-46 | the parser starts with no sentences |
| Parsers.SproatParser.ParseFile | parsers.py:65-85 | one fresh sentence per `<eos>` line is appended after the old ones, in file order, holding what the reader closed; `ok` is false exactly when a token line does not unpack |
| Parsers.SproatParser.CleanSentences | parsers.py:87-94 | as written, the list ends up empty |
| Parsers.SproatParser.CleanSentencesCorrected | parsers.py:87-94 | as evidently intended: the list holds every sentence, cleaned, in order |
| Parsers.SproatKeptSubsequence | parsers.py:99-106 | the Sproat filter keeps an order-preserving subsequence, no kept sentence is all silence or has an out-of-vocabulary word, and sentence i is kept exactly when `skip_sentence` lets it pass at the draw count the earlier sentences leave and it has no out-of-vocabulary word |
| Parsers.SproatDraws | parsers.py:100-102 | each sentence costs at most two draws |
| Parsers.NeverRejectingKeepsLJ | parsers.py:96-106 | with a generator that never rejects and no all-silence sentence, the Sproat filter keeps what the LJ filter keeps |
| Parsers.SproatParser.SubselectSentences | parsers.py:96-106 | the list becomes the sentences `SproatKept` keeps, and the draw count advances by the draws made |
| Parsers.LJKeptSubsequence | parsers.py:140-145 | the LJ filter keeps an order-preserving subsequence, and a sentence is kept exactly when it has no out-of-vocabulary word |
| Parsers.Cleaned | parsers.py:126-135 | cleaning as intended: as many sentences as before, sentence `i` being the cleaned sentence `i` |
| Parsers.CleaningLosesSentences | parsers.py:87-94 | on any non-empty list the method as written returns nothing where the intended one returns every sentence |
| Parsers.CleanedIdempotent | parsers.py:126-135 | with an idempotent cleaner, cleaning twice is cleaning once |
| Parsers.CleanEach | parsers.py:89-94 | the intended loop collects a fresh cleaned sentence per sentence, in order |
| Parsers.LJRecord | parsers.py:116-123 | a line gives a sentence exactly when it splits on `\|` into three fields |
| Parsers.LJLineRoundTrip | parsers.py:116-123 | a line `id\|original\|normalised` gives back its two texts, through the two helpers |
| Parsers.LJLineWithoutThreeFields | parsers.py:117 | a line with a single `\|` is rejected |
| Parsers.OnePerLine | parsers.py:116-124 | a line-per-sentence reader succeeds exactly when every line is accepted, and then sentence `i` comes from line `i` |
| Parsers.LJOnePerLine | parsers.py:116-124 | an LJ file reads without error exactly when every line has three fields, and then sentence `i` comes from line `i` |
| Parsers.ParseFailureSticks | parsers.py:116-124 | once a line is rejected, later lines change nothing |
| Parsers.ReadEach | parsers.py:116-124 | the line loop appends one fresh sentence per accepted line to the prior list, in order, and stops at a rejected line |
| Parsers.LJParser.constructor | parsers.py:45-46 | the parser starts with no sentences |
| Parsers.LJParser.ParseFile | parsers.py:111-124 | one fresh sentence per line is appended after the old ones, in file order; `ok` is false exactly when a line lacks three fields |
| Parsers.LJParser.CleanSentences | parsers.py:126-135 | as written, the list ends up empty |
| Parsers.LJParser.CleanSentencesCorrected | parsers.py:126-135 | as evidently intended: the list holds every sentence, cleaned, in order |
| Parsers.LJParser.SubselectSentences | parsers.py:137-145 | the list becomes the sentences without an out-of-vocabulary word, in order |
| CreateDataCsv.DefaultDict.constructor | create_data_csv.py:12 | `defaultdict(str)` starts with no keys |
| CreateDataCsv.DefaultDict.Append | create_data_csv.py:43-44 | `d[key] += suffix` in place: a missing key reads as "" first, and no other key changes |
| CreateDataCsv.AppendTokens | create_data_csv.py:43-44 | the two keys get their token and a space appended, and every other key is unchanged |
| CreateDataCsv.UpdatedRow | create_data_csv.py:39-46 | the new dictionary exists exactly when the line unpacks into three fields |
| CreateDataCsv.UpdateCurrentSentence | create_data_csv.py:39-46 | updates the dictionary in place into `UpdatedRow` of it; a line that does not unpack changes nothing |
| CreateDataCsv.Finalise | create_data_csv.py:31-36 | a fresh dictionary with the same keys, each value stripped |
| CreateDataCsv.FinaliseTrimmed | create_data_csv.py:31-36 | a dictionary whose values are already stripped is its own finalisation |
| CreateDataCsv.FinaliseIdempotent | create_data_csv.py:31-36 | finalising twice is finalising once |
| CreateDataCsv.FinaliseKeepsWords | create_data_csv.py:31-36 | every finalised value has the words it had and no whitespace at either end |
| CreateDataCsv.LoadFailureSticks | create_data_csv.py:15-22 | once a line has failed, later lines change nothing |
| CreateDataCsv.LoadSentences | create_data_csv.py:9-24 | the loop returns the rows `Load` gives, in file order; `ok` is false when a token line does not unpack |
| CreateDataCsv.AppendAsRow | create_data_csv.py:43-44 | appending tokens acts alike on the CSV builder's dictionary and the Sproat reader's sentence |
| CreateDataCsv.UpdatedAsRow | create_data_csv.py:39-46 | a token line acts alike on both readers' sentences |
| CreateDataCsv.AgreeStep | create_data_csv.py:15-22 | one line keeps the two readers in agreement |
| CreateDataCsv.LoadAgreesWithSproat | create_data_csv.py:9-24 | `load_sentences` and `SproatParser.parse_file` read a file alike: the same lines fail, and row `i` is sentence `i` with its texts stripped and its classes left out |
| CreateDataCsv.OneRowPerEos | create_data_csv.py:9-24 | when no line fails, there is one row per `<eos>` line |
| CreateDataCsv.TrailingTokensDropped | create_data_csv.py:9-24 | token lines after the last `<eos>` never reach a row |
| CreateDataCsv.EmptySentenceEmptyRow | create_data_csv.py:16-19 | an `<eos>` with no tokens before it gives an empty dictionary |

## Left out

- Reading files (`open`, `readlines`) and the `cmudict-0.7b` path with its
  Latin-1 decoding are left out: every reader takes the file's lines.
  `save_to_csv`, the argparse entry point, `tqdm` and `logging` are also
  left out, since they have no effect on the data.
- The bodies of `strip_sentence`, `replace_punct_with_sil`,
  `modify_word_for_lex_lookup`, `remove_extra_spaces`,
  `exclusively_contains_sil`, `is_short` and `random_reject` are not part
  of this model. They are parameters, and if any of them also mutates its
  argument in place, that aliasing is not modelled.
- The abstract base classes `Parser` and `Lexicon` are not modelled as
  such. Their shared members are `Parsers.SetPhonemised` and
  `Lexicon.CMUDict.LookupExact`.
- Parsers.PhonemiseSentences: `phonemise_sentences` is a method of the
  base class over `self.sentences`. Here it is a module method over a
  given list of sentences, shared by both parsers.
- Parsers.PieceStep and Parsers.PhonesArePieces: stated only for dictionaries none of whose
  entries ends with `<sil>`. With such an entry, the look-back at the
  string's end would also swallow a pause that follows the word. `Phones`,
  the model of the loop, does that; the token-based reference `Pieces`
  does not.
- Parsers.DoubledPauseChangesNothing: proved only for a
  `modify_word_for_lex_lookup` that depends on the token alone
  (`Parsers.ContextFree`). The real helper also receives the token list
  and the position, and a doubled pause shifts both.
- Parsers.DroppedPauseTokens and Parsers.DoubledPauseTokens: the same
  `Parsers.ContextFree` hypothesis as `DoubledPauseChangesNothing`, for
  the same reason.
- Parsers.SproatParser.ParseFile: the token step is applied by writing
  `Updated` of the sentence into it in place (`Sentence.Set`), rather
  than by calling `SproatUtils.UpdateSentence`. That method is proved
  separately to leave the sentence as `Updated` of it.
- Parsers.LJParser.CleanSentencesCorrected takes the composition of
  `strip_sentence`, `replace_punct_with_sil` and `remove_extra_spaces` as a
  single `clean` function.
- CmuUtils.GetEntry: its contract pins down the word and the phones only
  for lines in the CMU layout (`CmuUtils.EntryRoundTrip`). For other lines
  it says only that the word holds no space.
- Lexicon.CMUDict.constructor: the Python `CMUDict` has no `__init__`,
  so a fresh object has no `dictionary` attribute until `init()` or
  `load()` runs, and `lookup` then raises `AttributeError`. The model's
  object starts with an empty dictionary instead, so its `Lookup` answers
  "absent" where Python raises.
- Lexicon.EraseSenseTags: `\d` is read as the digits '0' to '9'. On a
  `str` Python's `\d` also matches other Unicode decimal digits, none of
  which a Latin-1 key can hold.
- Lexicon.LookupUpper: `str.upper()` is exact over Latin-1, the
  dictionary's encoding. Characters beyond it are left unchanged.
- Dictionary iteration order is not modelled. `finalise_sentence` builds
  a map, and `remove_heteronyms` visits the keys in any order, so its
  contract holds for every order.
- The CSV builder has its own copies of `contains_eos`,
  `get_original_token`, `get_normalised_token`, `no_normalisation` and
  `clean_sil`. They are the same code as the shared helpers and are
  modelled once.
- A sentence dictionary without a `semiotic_classes` key (an LJ sentence)
  has an empty class set. One without a `phonemised` key has `None`.

## Findings

| source | as written | input that shows it | evidently intended | confidence | as-written member | corrected member |
|---|---|---|---|---|---|---|
| parsers.py:87-94 | `SproatParser.clean_sentences` assigns each cleaned sentence to the loop variable only, then sets `self.sentences` to `final_sentences`, which nothing was appended to | any non-empty sentence list, e.g. one sentence: the list becomes empty | the cleaned sentences replace the old ones, one for one, in order | not executed | Parsers.CleaningLosesSentences | Parsers.Cleaned |
| parsers.py:126-135 | `LJParser.clean_sentences` has the same shape: the three cleaning steps go to the loop variable and the list becomes the empty `final_sentences` | any non-empty sentence list | the cleaned sentences replace the old ones, one for one, in order | not executed | Parsers.CleaningLosesSentences | Parsers.Cleaned |

The as-written behaviour is `Parsers.CleanedAsWritten`, which the two
`CleanSentences` methods implement. `Parsers.CleaningLosesSentences`
shows it differs from `Parsers.Cleaned` on every non-empty list. The
corrected behaviour is `Parsers.Cleaned`: its contract fixes each
element, and `Parsers.CleanedIdempotent` is proved about it. The two
`CleanSentencesCorrected` methods implement it.
