# Heuristic PDF outline engine, modelled in Dafny

The system turns the text blocks of a PDF into a document outline:
`{title, outline}`, where the outline is a list of `{level, text, page}` entries
with levels `H1`, `H2` and `H3`. Each block carries its text, its page, an
average font size, a bold flag and a vertical position. The engine:

- computes document-wide font-size statistics (median, 75th and 90th
  percentile);
- picks a title from the top of the first page, scoring candidates and
  stripping boilerplate prefixes;
- classifies every block through a cascade of rules:
  - numbered-section patterns;
  - standard section names;
  - Japanese heading markers;
  - a body-text exclusion filter;
  - length and word-count gates;
  - a font-size and bold gate;
  - multilingual keyword detection over fifteen languages;
- keeps the first heading for every (lower-cased text, page) pair;
- sorts the outline by page and level label.

A legacy-font rewrite (the Chanakya table for Hindi text, and Arabic
whitespace cleanup) is applied to the extracted text.

The question-answering side of the repository contributes a few small helpers,
which are modelled as well:
- persona identification;
- persona answer prefixes;
- the simple sentence splitter;
- the section-heading test;
- the best-sentence ranking.

Modules, following the program's structure:

| module | what it holds |
|---|---|
| `Common`, `Text`, `Matching` | Option, string helpers, the case table and the word-character class, anchored regular-expression pieces |
| `Sorting` | the stable sort by a key that `list.sort` is |
| `Blocks` | text blocks, levels, font statistics, outline entries |
| `FontStatistics` | `calculate_font_statistics` |
| `Patterns` | numbered sections, standard headings, Japanese headings, body-text filter, heading-content test |
| `Languages` | the fifteen-language table and `detect_language_and_classify` |
| `Classifier` | `classify_heading_level` |
| `Title` | `detect_title`, `_is_non_title_text`, `_score_title_candidate`, `_clean_title` |
| `Outline` | the assembly part of `extract_outline` |
| `Chanakya` | `convert_chanakya_to_unicode` |
| `QaHelpers` | the helpers of `1B/unified_qa_model.py` |

Floating-point values are modelled as `real`. Python's `re` patterns become
sequences of greedy pieces (`Matching.Piece`). With `re.IGNORECASE`, the
pattern is matched against the lower-cased text. Case mapping (`str.lower`,
`str.upper`, `str.isupper`, `str.islower`) follows a case table covering
ASCII, Latin-1, Latin Extended-A, the Vietnamese letters (Ơ, Ư and Latin
Extended Additional), Greek and basic Cyrillic. The table is applied one
character at a time; Python's context rule for the Greek final sigma is not
modelled (see "## Left out").

Three behaviours of the code that look unintended are kept as written:

- The H2 branch of the Japanese instruction check (1A/main.py:663-665) can never
  fire. Every instruction pattern contains one of the main words, so the H1
  branch above it always wins first. `Patterns.JapaneseNeverH2` states this.
- Question words and sentence starters in the body filter are substring tests.
  So "Show Results" (it contains "how") and "Theory" (it starts with "the") are
  body text. `Patterns.QuestionWordInsideWord` and
  `Patterns.StarterPrefixIsBody` state this for every text, and
  `Patterns.ShowResultsIsBody` and `Patterns.TheStarterMatchesTheory` for
  these two.
- The outline is sorted by the level's label string, and there is no separate
  rank. `Outline.EntryKeyOrder` shows that the label order matches H1 < H2 < H3.

## Model

| member | source | states |
|---|---|---|
| Text.LowerAt | 1A/main.py:496 | each character of the lower-cased text is the original character under the case table |
| Text.CaseRoundTrip | 1A/main.py:496 | on the case table, lower-casing a capital gives a lower-case letter that upper-cases back to it, and lower-casing leaves every other character alone |
| Sorting.SortBy | 1A/main.py:942 | the result is ordered by the key and is a permutation of the input; among elements with equal keys, the input order is kept (stable, as `list.sort` is) |
| Sorting.SortedElementsFromInput | 1A/main.py:193 | every element of a sorted list comes from the input |
| FontStatistics.CalculateFontStatistics | 1A/main.py:878-897 | no blocks give (12, 15.6, 18). Otherwise median, large and very large are the order statistics of the font sizes at ranks n/2, floor(0.75n) and floor(0.9n), and median <= large <= very large |
| FontStatistics.PercentileIndicesOrdered | 1A/main.py:884-889 | the three percentile indices are ordered and lie inside the list for every non-empty document |
| FontStatistics.SortedIndexIsOrderStatistic | 1A/main.py:881-889 | the value at index k of the sorted sizes is a k-th smallest size of the unsorted list |
| FontStatistics.OrderStatisticsMonotone | 1A/main.py:884-889 | order statistics of higher rank are never smaller |
| FontStatistics.CountPermutation | 1A/main.py:881 | counting sizes below a bound does not depend on the order of the list |
| Patterns.NumberedNeedsDigitOrRoman | 1A/main.py:673-703 | a numbered-section level is only found when the stripped text starts with a digit or a Roman-numeral letter |
| Patterns.TwoLevelIsH2 | 1A/main.py:680-681 | "d.d[.] Word" is H2 |
| Patterns.ThreeLevelIsH3 | 1A/main.py:684-685 | "d.d.d[.] Word" is H3 |
| Patterns.ThreeLevelIsNotTwoLevel | 1A/main.py:676-685 | a three-level number matches neither the main-section nor the two-level pattern |
| Patterns.RomanAloneIsH3 | 1A/main.py:688-689 | a Roman numeral and a dot alone is H3 |
| Patterns.RomanTitledIsH1 | 1A/main.py:692-693 | a Roman numeral, a dot and a capitalised title is H1 |
| Patterns.RomanTitledIsNotAlone | 1A/main.py:688-693 | a titled Roman numeral is never mistaken for a bare one |
| Patterns.NumberAloneIsH2 | 1A/main.py:696-697 | a bare "n." is H2 |
| Patterns.NumberAloneIsNotTitled | 1A/main.py:676-697 | a bare number with no leading space matches none of the titled patterns |
| Patterns.ColonSectionIsH2 | 1A/main.py:700-701 | "d.d: Word" is H2 |
| Patterns.ColonSectionIsNotDotted | 1A/main.py:676-701 | the colon form matches none of the dotted forms |
| Patterns.ColonSectionIsNotAlone | 1A/main.py:688-701 | the colon form is neither a bare numeral nor a bare number |
| Patterns.StandardHeadingIgnoresCase | 1A/main.py:841-871 | the standard-heading test gives the same answer for a text and its lower-cased form |
| Patterns.NumberedStandardIff | 1A/main.py:862-866 | the numbered standard-heading test holds exactly when some standard name, numbered, matches |
| Patterns.AbstractIsStandard | 1A/main.py:845-857 | "abstract" is a standard heading |
| Patterns.JapaneseNeverH2 | 1A/main.py:625-671 | the Japanese heading test never yields H2 |
| Patterns.IsDefinitelyBodyText | 1A/main.py:728-839 | long text (over 80 characters) and text ending in '-', ',' or ';' are body. For Japanese text, only the relaxed length rule applies. Non-Japanese text starting with a lower-case letter is body |
| Patterns.QuestionWordInsideWord | 1A/main.py:779-781 | any text without Japanese characters whose lower-cased form contains a question word, even inside a longer word, is body text |
| Patterns.ShowResultsIsBody | 1A/main.py:779-781 | "Show Results" is body text, since "show" contains "how" |
| Patterns.StarterPrefixIsBody | 1A/main.py:806-816 | any text without Japanese characters whose lower-cased form begins with a sentence starter, even as part of a longer word, is body text |
| Patterns.TheStarterMatchesTheory | 1A/main.py:806-816 | "Theory" is body text: the sentence-starter test is a prefix test |
| Patterns.LooksLikeHeadingContent | 1A/main.py:526-565 | all-capitals text of more than 3 characters and Japanese text under 30 characters look like heading content |
| Languages.LengthLevel | 1A/main.py:513-518 | H1 exactly for 16 to 50 characters, H3 exactly up to 15, H2 otherwise |
| Languages.LanguageLevelCases | 1A/main.py:499-522 | a language gives a level only when the language's script, a heading word or a question pattern is present. A question or main word gives the length level. Another heading word gives H2. Script alone gives H3 for up to 30 characters and nothing otherwise |
| Languages.MainWordIsHeadingWord | 1A/main.py:512 | the main words are among the heading words |
| Languages.DetectLanguageAndClassify | 1A/main.py:387-524 | the loop returns the first language in table order that yields a level, else ("unknown", None) |
| Languages.DetectNoneIff | 1A/main.py:499-524 | no level is detected exactly when no language of the table yields one, and then the language is "unknown" |
| Languages.DetectIsFirstMatch | 1A/main.py:499-522 | a detected level comes from the first language that yields one; every earlier language yields none |
| Languages.DetectedLevelBounds | 1A/main.py:512-522 | a detected H1 has 16 to 50 characters, an H3 at most 30, and text over 50 characters is only ever H2 |
| Languages.CapitalisedRussianHeading | 1A/main.py:496-518 | a text of 16 to 50 characters opening with "Глава" (as "Глава 1 Введение") is found by the Russian main term "глава" once lower-cased, and gets H1 from its length |
| Languages.MainWordGivesLengthLevel | 1A/main.py:512-518 | a main term in the lower-cased text gives the length level, whatever else the text holds |
| Classifier.TextVerdict | 1A/main.py:326-354 | the text-only stages decide in order: numbered level, standard heading (H1), Japanese level, then body filter and length and word gates; otherwise undecided |
| Classifier.FontGate | 1A/main.py:365-373 | a heading by font only when ratio >= 1.4, bold and heading-like content; H1 exactly when ratio >= 1.6; never H3 |
| Classifier.ClassifyHeading | 1A/main.py:323-385 | a text verdict wins. Otherwise the font gate decides when it fires. Otherwise the first language of the table that gives a level decides. Otherwise a ratio of at least 1.8 with heading-like content gives H1, and anything else is body text |
| Classifier.LateHeadingIsShort | 1A/main.py:343-354 | a heading not found by the text patterns has at most 60 characters and 10 words and is not body text |
| Classifier.LowercaseStartIsBody | 1A/main.py:343-345 | stripped text starting with a lower-case letter, not Japanese and not a standard heading, is body, whatever its font |
| Classifier.LowercaseTextIsBody | 1A/main.py:326-345 | the text stages classify such text as body |
| Classifier.LowercaseIsNotNumbered | 1A/main.py:673-703 | text starting with a lower-case letter is never a numbered section |
| Classifier.AbstractIsH1 | 1A/main.py:334-336 | a block reading "abstract" is H1 whatever its font |
| Title.FirstIndex | 1A/main.py:282 | `list.index`: the first position holding the block |
| Title.TitleScore | 1A/main.py:262-304 | the score is at most 12; it is at least the bold points plus the position points; a zero score means not bold and at rank 6 or later |
| Title.CleanedTitle | 1A/main.py:306-321 | the cleaned title has no leading or trailing whitespace |
| Title.CleanTitle | 1A/main.py:306-321 | the prefix loop computes the cleaned title |
| Title.CleanKeepsCandidates | 1A/main.py:216-218 | cleaning a title candidate that passed the non-title filter only strips it |
| Title.NoPrefixOnCandidate | 1A/main.py:227-260 | none of the three boilerplate prefixes can start a text the non-title filter lets through |
| Title.NoTechnicalPrefix | 1A/main.py:313-314 | the arXiv and preprint prefixes need a technical word |
| Title.NoDraftPrefix | 1A/main.py:315 | the draft-version prefix needs a non-title pattern |
| Title.PreprintRemoved | 1A/main.py:316-321 | a title starting with "preprint" (any case) loses those 8 letters and the surrounding whitespace |
| Title.BestIndexIsBest | 1A/main.py:199-214 | no winner exactly when every eligible candidate scores 0. Otherwise the winner is eligible, scores strictly more than every earlier eligible candidate and at least as much as every later one |
| Title.PickWinner | 1A/main.py:199-214 | the candidate loop computes the best index |
| Title.BestCandidate | 1A/main.py:199-214 | the candidate loop over the top blocks yields the best text |
| Title.FirstTrue | 1A/main.py:220-223 | the first set flag in range, with all earlier flags clear, or none |
| Title.FallbackIndex | 1A/main.py:220-223 | the first substantial block among the first 10, with all earlier ones not substantial, or none |
| Title.Fallback | 1A/main.py:220-223 | the fallback loop returns the stripped text of that block, or nothing |
| Title.FirstPage | 1A/main.py:187 | a block is kept exactly when it is on page 1, with the same number of copies as in the input |
| Title.FirstPageAppend | 1A/main.py:187 | the filter works block by block: the first page of a concatenation is the concatenation of the first pages |
| Title.TopToBottom | 1A/main.py:193 | the first-page blocks ordered by vertical position, with equal positions kept in document order (a stable sort) |
| Title.DetectTitle | 1A/main.py:185-225 | the method computes the detected title |
| Title.NoFirstPageIsUntitled | 1A/main.py:189-190 | no block on page 1 gives "Untitled Document" |
| Title.TitleComesFromFirstPage | 1A/main.py:185-225 | any other title comes from a first-page block that passes the non-title filter |
| Title.ChosenBlock | 1A/main.py:214-223 | the chosen block is the best candidate when there is one, else the fallback block |
| Outline.HeadingKeyInjective | 1A/main.py:930-931 | two duplicate-check keys are equal exactly when the lower-cased texts and the pages are |
| Outline.KeySeen | 1A/main.py:931-932 | a key is in the seen set exactly when an entry with that lower-cased text and page was kept |
| Outline.CollectDistinct | 1A/main.py:921-939 | no two kept entries share a (lower-cased text, page) pair |
| Outline.CollectComplete | 1A/main.py:921-939 | every heading block has a kept entry with its lower-cased text and page |
| Outline.CollectFirstOccurrence | 1A/main.py:921-939 | every kept entry is the first heading block with its pair: its level, stripped text and page |
| Outline.CollectHeadings | 1A/main.py:921-939 | the loop with its seen set computes that collection |
| Outline.CollectOne | 1A/main.py:923-937 | one pass of the loop body takes the collection over the first i blocks to the collection over i + 1, and keeps the seen set equal to the keys of the outline |
| Outline.LevelRank | 1A/main.py:942 | each label is "H" followed by one digit from 1 to 3 |
| Outline.EntryKeyOrder | 1A/main.py:942 | the sort key orders by page, then by level label, and ties exactly on equal page and level |
| Outline.MedianPositive | 1A/main.py:362 | when every font size is positive, the median is positive and no block divides by it as zero |
| Outline.ExtractOutline | 1A/main.py:899-963 | an empty document gives "Empty Document" with no headings. A zero median that some block reaches gives "Error Processing Document" with no headings, as the handler does for the division error. Otherwise: the detected title and the collected headings, sorted |
| Outline.AssembleProperties | 1A/main.py:916-942 | the outline is sorted by (page, label) and has no duplicate pairs. Every heading block's pair appears, and every entry is the first occurrence of its pair |
| Outline.PermutationDistinct | 1A/main.py:942 | sorting keeps the outline free of duplicate pairs |
| Chanakya.RemoveControls | 1A/main.py:117 | a character occurs in the result exactly when it occurs in the input and is not a control character; the result is no longer than the input |
| Chanakya.RemoveControlsAppend | 1A/main.py:117 | removal works character by character: the removal on a concatenation is the concatenation of the removals |
| Chanakya.RemoveControlsKeeps | 1A/main.py:117 | text with no control characters is unchanged |
| Chanakya.CollapseSpaces | 1A/main.py:119 | the first character stays whitespace or not; every whitespace of the result is a single space; no two whitespace characters are adjacent |
| Chanakya.CollapseAppend | 1A/main.py:119 | two texts that do not meet inside a whitespace run collapse independently |
| Chanakya.RunBecomesOneSpace | 1A/main.py:119 | a maximal whitespace run between two other parts becomes exactly one space, and the parts collapse on their own |
| Chanakya.CollapseKeepsText | 1A/main.py:119 | collapsing keeps every non-whitespace character, in order |
| Chanakya.CleanArabicShape | 1A/main.py:115-120 | the cleaned Arabic text has no control character; each of its whitespace characters is a single space with a non-whitespace character on either side |
| Chanakya.CleanArabicKeepsText | 1A/main.py:115-120 | the cleaned Arabic text keeps the non-whitespace characters of the control-free text, in order |
| Chanakya.CollapseIntroducesNoControl | 1A/main.py:117-119 | collapsing whitespace introduces no control character |
| Chanakya.ReplaceAllWithoutKey | 1A/main.py:128-130 | `str.replace` of a key that does not occur changes nothing |
| Chanakya.ReplaceAllRemoves | 1A/main.py:128-130 | after replacing a key by a value with no character of the key, the key no longer occurs |
| Chanakya.ReplaceTableWithoutKeys | 1A/main.py:123-131 | text with none of the table's keys is unchanged by the table loop |
| Chanakya.ApplyTable | 1A/main.py:125-126 | the loop applies every table entry in order, as `str.replace` |
| Chanakya.ConvertChanakyaToUnicode | 1A/main.py:107-133 | the method applies the Arabic cleanup and then, for Chanakya fonts, every table replacement in order |
| Chanakya.PlainTextUnchanged | 1A/main.py:107-133 | text with no Arabic characters in a non-Chanakya font is returned as it is |
| Chanakya.KeyFreeTextUnchanged | 1A/main.py:107-133 | text with no Arabic characters and none of the table's keys is returned as it is, whatever the font |
| QaHelpers.KeywordHits | 1B/unified_qa_model.py:324 | the count is at most the number of keywords, and zero exactly when no keyword occurs |
| QaHelpers.IdentifyPersonaType | 1B/unified_qa_model.py:316-328 | the loop returns the first table entry whose name occurs in the persona, or two of whose keywords occur; otherwise "general" |
| QaHelpers.NoFitIsGeneral | 1B/unified_qa_model.py:320-328 | "general" exactly when no entry fits |
| QaHelpers.FirstFitWins | 1B/unified_qa_model.py:320-326 | a result other than "general" is the name of the first fitting entry; no earlier entry fits |
| QaHelpers.ResearcherFirst | 1B/unified_qa_model.py:321-322 | a persona mentioning "researcher" is a researcher |
| QaHelpers.FormatAnswerForPersona | 1B/unified_qa_model.py:452-463 | the answer ends with the joined parts. Student, researcher, analyst and business get their prefix, and the answer is exactly the prefix's length longer than the joined parts. Every other type gets the bare joined parts |
| QaHelpers.PiecesCover | 1B/unified_qa_model.py:313 | the split pieces, concatenated, are the text without its terminator characters |
| QaHelpers.PiecesSplit | 1B/unified_qa_model.py:313 | `re.split` cuts at every maximal run of terminators: the text before the run is the first piece |
| QaHelpers.KeepLong | 1B/unified_qa_model.py:314 | every kept piece is stripped, longer than 10 characters and free of terminators |
| QaHelpers.KeepLongAppend | 1B/unified_qa_model.py:314 | the filter works piece by piece: filtering a concatenation concatenates the filtered parts |
| QaHelpers.KeepLongOne | 1B/unified_qa_model.py:314 | one piece gives its stripped form when that has more than 10 characters, and nothing otherwise |
| QaHelpers.SimpleSentenceSplit | 1B/unified_qa_model.py:311-314 | every sentence is stripped, has more than 10 characters and no '.', '!' or '?' |
| QaHelpers.SplitAtTerminators | 1B/unified_qa_model.py:311-314 | the text before the first terminator run gives the first sentence (stripped, when longer than 10 characters) and the rest is split on its own |
| QaHelpers.SingleSentence | 1B/unified_qa_model.py:311-314 | text without terminators gives itself stripped when that has more than 10 characters, and nothing otherwise |
| QaHelpers.IsSectionHeading | 1B/unified_qa_model.py:285-309 | a heading always has 5 to 100 characters |
| QaHelpers.LettersOnlyIsHeading | 1B/unified_qa_model.py:296-301 | a 5 to 100 character line starting with a letter and made of letters and spaces is a heading |
| QaHelpers.NumberedIsHeading | 1B/unified_qa_model.py:291-292 | "n. word" of 5 to 100 characters is a heading |
| QaHelpers.LongSentences | 1B/unified_qa_model.py:432-434 | no more sentences are kept than were looked at |
| QaHelpers.LongSentencesMembers | 1B/unified_qa_model.py:432-434 | the kept sentences are exactly the ones of at least 20 stripped characters: each kept one is such an input sentence, and every such input sentence is kept |
| QaHelpers.LongSentencesAppend | 1B/unified_qa_model.py:432-434 | the skip test goes sentence by sentence: the long sentences of a concatenation are the concatenated long sentences |
| QaHelpers.NoDivisionByZero | 1B/unified_qa_model.py:439 | when some sentence is long enough to score, the question has words, so the overlap ratio is defined |
| QaHelpers.SliceTo | 1B/unified_qa_model.py:450 | Python's `s[:m]`: a prefix of `s`, of length min(m, len) for m >= 0 and len + m (at least 0) for negative m |
| QaHelpers.GetBestSentences | 1B/unified_qa_model.py:422-450 | the method returns `BestSentences`: the long sentences scored, sorted by descending score with ties in input order, and cut to max_sentences |
| QaHelpers.ScoreSentences | 1B/unified_qa_model.py:428-447 | the scoring loop scores exactly the long sentences, in order |
| QaHelpers.BestSentencesFromInput | 1B/unified_qa_model.py:422-450 | no sentences give none. Otherwise: at most max_sentences (for a non-negative limit), each long enough and taken from the input, and only when the question has words |
| QaHelpers.BestSentencesRanked | 1B/unified_qa_model.py:449-450 | the returned sentences are in non-increasing score order |
| QaHelpers.BestSentencesCount | 1B/unified_qa_model.py:422-450 | the number returned is min(max_sentences, number of long sentences) for a non-negative limit, and the Python slice count otherwise |
| QaHelpers.BestSentencesAreTop | 1B/unified_qa_model.py:436-450 | a long sentence scoring strictly higher than some returned sentence is returned too |

## Left out

- PDF reading (`extract_text_with_metadata`, 1A/main.py:135-183, and its
  counterpart in 1B/unified_qa_model.py:224-283) is not modelled. Blocks are
  the input.
- Also not modelled: the command-line driver, file I/O, JSON output, logging,
  timing and the metrics counters.
- Outline.ExtractOutline: it requires what the extractor guarantees, that
  every block has non-empty stripped text (1A/main.py:166 keeps only lines of
  more than two characters). Font sizes are not constrained. Of the failures
  the handler at 1A/main.py:955-963 catches, only the division by a zero
  median is modelled; errors of the PDF library are outside the model.
- QaHelpers.GetBestSentences: the ZeroDivisionError that
  `_get_best_sentences` raises at 1B/unified_qa_model.py:438 is not modelled.
  It happens when the question has no words and some sentence has at least 20
  stripped characters. The model requires `QaHelpers.CanScore`, which excludes
  exactly that case, and `QaHelpers.NoDivisionByZero` shows that the division
  is then always by a non-zero count.
- Floating-point arithmetic is modelled as exact `real` arithmetic. Rounding of
  the score and ratio computations is not captured.
- Text.LowerChar: the case table covers ASCII, Latin-1, Latin Extended-A
  (except İ), Ơ and Ư, Latin Extended Additional, Greek and basic Cyrillic.
  Python's `str.lower` also lowers the rest of Latin Extended-B, Armenian,
  Georgian, the capital sharp s "ẞ" and the capitals of other scripts; the
  model leaves them as they are, so a heading word or question pattern
  written with such a capital is missed. Lower-casing that changes the length
  ("İ" to "i̇") is not modelled.
- Text.LowerAt: lower-casing is per character, so the model has no context
  rules. Python's `str.lower` applies the Final_Sigma rule: a "Σ" that follows
  a cased letter and ends the word lowers to "ς". The model lowers every
  "Σ" to "σ", so "ΜΈΡΟΣ" lowers to "μέροσ" instead of "μέρος". Such a
  heading misses the Greek heading word "μέρος" (1A/main.py:453) and gets
  H3 from the script rule instead of H2. The duplicate check
  (1A/main.py:930) also takes "ΜΈΡΟΣ" and "μέροσ" on one page for the same
  heading and keeps only the first, where the source keeps both. Greek
  heading and question words ending in "ς" ("οδηγίες") are missed in the
  same way when written in capitals.
- Text.UpperChar: the same table; the sharp s, which Python widens to "SS",
  and the Greek letters that widen to three characters stay as they are.
- Text.IsUpperStr: characters outside the case table count as uncased, where
  Python's `str.isupper` knows every cased character.
- Text.IsWordChar: `\w` is modelled by code-point blocks. Combining and spacing
  marks outside U+0300 to U+036F (the Devanagari vowel signs) and symbols
  outside the listed blocks (℃, ™) count as word characters, which Python's
  `\w` does not accept.
- Text.IsDigit: `\d` and `str.isdigit` are ASCII digits only. Python also
  accepts other digits, and its `re.IGNORECASE` lets `[a-z]` match the dotless
  i, the long s and the Kelvin sign; those cases are not modelled. Japanese and
  the other scripts are modelled by their code-point ranges.
- `list.sort` is modelled as a stable insertion sort on values, not an
  in-place sort.
- `detect_title` is modelled through candidate records: stripped text, score
  and eligibility per top block. The loop then picks from these records, which
  gives the same choice as the source loop.
- `extract_outline` classifies all blocks before the collection loop
  (`Outline.Classes`) instead of inside it. Classification is pure, so the
  result is the same.
- The persona table keeps only the first five keywords of each persona, which
  are all that `identify_persona_type` reads (1B/unified_qa_model.py:324).
- The rest of 1B/unified_qa_model.py is not part of this model: the TF-IDF
  retrieval, `answer_question` and the model loading.
- Not modelled: `_contains_heading_indicators` and the unused `heading_patterns`
  list of 1A/main.py, which no path of the outline engine calls.
- QaHelpers.IsSectionHeading: its contract states the length gate and two
  sufficient conditions (`LettersOnlyIsHeading`, `NumberedIsHeading`). It does
  not characterise the font-size rule of 1B/unified_qa_model.py:303-307.
- QaHelpers.LongSentences: its own contract bounds the count only; that the
  kept sentences are exactly the long ones, in order, is stated by
  `LongSentencesMembers` and `LongSentencesAppend`.
- QaHelpers.BestSentencesRanked: ordering is proved when the question has
  words. Otherwise no sentence is long enough to be scored, and the result is
  empty.
