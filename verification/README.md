# Text analyzer model

A Dafny model of the article scorer `TextAnalyzer` in
`src/analysis/test_analysis.py` and of the per-article loop of its `main`.
The scorer reads a stopword list and a positive and a negative word list.
For each article it computes thirteen readability and sentiment metrics:
- positive, negative, polarity and subjectivity scores;
- average sentence length, percentage of complex words, fog index and
  average words per sentence;
- complex word count, word count, syllables per word, personal pronouns
  and average word length.

The model has six modules, one per file:

- `AsciiText` (`ascii_text.dfy`): the string primitives the scorer relies on, over ASCII. These are `str.isalpha`, `str.lower`, `str.strip`, `str.endswith` and the `\w` class behind the `\b` of regular expressions.
- `Syllables` (`syllables.dfy`): `count_syllables`. The source's character loop is a method. It is proved equal to a specification, `Estimate`, which counts maximal vowel runs, takes one off for an `es`/`ed` ending, and floors the result at one.
- `Pronouns` (`pronouns.dfy`): `count_personal_pronouns`. A regular-expression match is the position where it starts; `\b` is a predicate over a position. Both `findall` passes are counts over positions.
- `Lexicon` (`lexicon.dfy`): `load_stopwords`, `load_sentiment_words` and the constructor. Directory listings and file reads are values that say what the listing or the read returned. `load_stopwords` keeps its loop over the files. The analyzer's three word sets are written once by the constructor and never changed, so they form a datatype.
- `MetricEngine` (`metric_engine.dfy`): `analyze_text` after tokenization, and `_get_zero_metrics`. The sentence and word tokenizers are not modelled: their outputs are parameters. Ratios are exact rationals (`real`) with ε = 1/1000000.
- `Batch` (`batch.dfy`): `analyze_file` and the loop of `main`. The loop appends one output row per input row and counts the rows whose article file exists. The tokenizers are function parameters.

## Model

| member | source | states |
|---|---|---|
| AsciiText.Strip | src/analysis/test_analysis.py:52 | `strip` leaves a string that neither starts nor ends with whitespace and is no longer than its input; the result is empty exactly when every character is whitespace |
| AsciiText.StripIsInfix | src/analysis/test_analysis.py:52 | the stripped string is an infix of the input with only whitespace before it and only whitespace after it: `strip` removes leading and trailing whitespace and nothing else |
| AsciiText.Lower | src/analysis/test_analysis.py:109 | `lower` keeps the length and maps each character to its lower-case form (ASCII letters shifted, everything else unchanged) |
| AsciiText.LowerIsLowerCase | src/analysis/test_analysis.py:109 | a lowered string has no upper-case letter, and lowering a lower-case string changes nothing |
| Syllables.CountSyllables | src/analysis/test_analysis.py:109-124 | the character loop returns exactly `Estimate(word)`, and always at least 1 |
| Syllables.ScanCountsRuns | src/analysis/test_analysis.py:111-118 | the loop's rule (count a vowel whose predecessor is not a vowel) counts exactly the maximal runs of `aeiouy` |
| Syllables.Estimate | src/analysis/test_analysis.py:121-124 | the estimate is never below 1, for every word including the empty one |
| Syllables.CakesHasOneSyllable | src/analysis/test_analysis.py:109-124 | "cakes" has two vowel runs less one for `es`: one syllable |
| Syllables.RunningHasTwoSyllables | src/analysis/test_analysis.py:109-124 | "running" has two syllables |
| Pronouns.CountMatches | src/analysis/test_analysis.py:132-136 | a `findall` count over the first `n` positions contributes at most one match per position, so at most `n` |
| Pronouns.CountMatchesIsCardinality | src/analysis/test_analysis.py:132-136 | the count equals the number of positions where the pattern matches |
| Pronouns.NoMatchStartsInsideAMatch | src/analysis/test_analysis.py:131-132 | no match of either pattern can start inside a match of an alphabetic word, so the non-overlapping scan of `findall` finds one match at every position where a pattern matches |
| Pronouns.CountryUsIsPronoun | src/analysis/test_analysis.py:131-136 | every case-sensitive whole-word `US` is also a case-insensitive match of `us` |
| Pronouns.SubtractCountryUs | src/analysis/test_analysis.py:131-138 | the pronoun matches less the `US` matches are exactly the pronoun matches whose text is not `US` |
| Pronouns.CountPersonalPronouns | src/analysis/test_analysis.py:126-139 | the count is never negative and equals the number of case-insensitive whole-word matches of I, we, my, ours, us whose text is not `US` |
| Pronouns.NoMatchWithoutPronounStart | src/analysis/test_analysis.py:131-136 | no pattern matches where there is no word boundary, or where the character is not i, w, m, o or u in either case |
| Pronouns.CountryUsExcludedExample | src/analysis/test_analysis.py:126-139 | "I love us. The US is great." holds two personal pronouns |
| Lexicon.NormalizeLine | src/analysis/test_analysis.py:52 | a line that is not blank gives a non-empty, trimmed, lower-case word |
| Lexicon.WordsOfLines | src/analysis/test_analysis.py:50-52 | every kept word is normalized, and the normalized form of every non-blank line is kept |
| Lexicon.UnionOverMembership | src/analysis/test_analysis.py:45-52 | a word is in the file-by-file union exactly when one of the files contributes it |
| Lexicon.StopwordsOfFiles | src/analysis/test_analysis.py:45-54 | every stopword gathered from the files is normalized |
| Lexicon.StopwordsMembership | src/analysis/test_analysis.py:38-57 | a word is a stopword exactly when the folder exists and some readable `.txt` file of it lists the word |
| Lexicon.LoadStopwords | src/analysis/test_analysis.py:32-57 | the file loop builds exactly the union of the words of the readable `.txt` files; a missing folder gives the empty set; an unreadable or non-`.txt` file adds nothing; every word is normalized |
| Lexicon.SentimentWordsOf | src/analysis/test_analysis.py:73-96 | a present, readable list gives its normalized words less the stopwords; a missing or unreadable list gives the empty set; the result never meets the stopwords |
| Lexicon.LoadSentimentWords | src/analysis/test_analysis.py:59-98 | both sets are disjoint from the stopwords, and both are empty when the dictionary folder is missing |
| Lexicon.NewTextAnalyzer | src/analysis/test_analysis.py:21-31 | the stopwords are those of the folder; the sentiment words are filtered by exactly those stopwords; the lexicon is valid: all words normalized, and no sentiment word is a stopword |
| MetricEngine.ZeroMetrics | src/analysis/test_analysis.py:235-251 | all thirteen fields are 0 |
| MetricEngine.AlphaWords | src/analysis/test_analysis.py:154 | only alphabetic tokens are kept, in order, each alphabetic token as often as it occurs |
| MetricEngine.LowerWords | src/analysis/test_analysis.py:155 | `words_lower` has one entry per alphabetic word, the lower-cased form of the word at the same position |
| MetricEngine.CleanedWords | src/analysis/test_analysis.py:154-158 | every cleaned word is a lower-case alphabetic word that is not a stopword, and every word that is not a stopword occurs as often as among the lowered alphabetic tokens |
| MetricEngine.RemoveStopwords | src/analysis/test_analysis.py:158 | no stopword remains, the rest is a subsequence of the input, and every non-stopword keeps its number of occurrences |
| MetricEngine.CountMembers | src/analysis/test_analysis.py:167-168 | a score never exceeds the number of words counted, and is 0 when no word is in the set |
| MetricEngine.DisjointCountsBounded | src/analysis/test_analysis.py:167-168 | against two disjoint word sets the two scores together never exceed the number of words |
| MetricEngine.ComplexWordCount | src/analysis/test_analysis.py:181-182 | the complex words are at most the words |
| MetricEngine.TotalSyllables | src/analysis/test_analysis.py:191 | every word contributes at least one syllable |
| MetricEngine.TotalCharacters | src/analysis/test_analysis.py:196 | non-empty words contribute at least one character each |
| MetricEngine.AtLeastOne | src/analysis/test_analysis.py:161-163 | the floored count is at least 1 and at least the count, and equals the count when that is positive |
| MetricEngine.Polarity | src/analysis/test_analysis.py:170-172 | polarity lies strictly between -1 and 1, is 0 when the scores are equal (in particular both 0), and is positive exactly when the positive score is larger |
| MetricEngine.Subjectivity | src/analysis/test_analysis.py:174-176 | subjectivity is never negative, is 0 exactly when both scores are 0, and is below 1 when the scores together do not exceed the cleaned words |
| MetricEngine.AnalyzeText | src/analysis/test_analysis.py:141-213 | WORD COUNT is max(number of cleaned words, 1), not the token count; the two sentence-length fields hold the same value |
| MetricEngine.SentimentFields | src/analysis/test_analysis.py:158-176 | neither score exceeds the cleaned words or WORD COUNT; polarity lies in (-1, 1) and is 0 when both scores are 0; subjectivity is at least 0, and below 1 when no word is both positive and negative |
| MetricEngine.ReadabilityFields | src/analysis/test_analysis.py:178-186 | the average sentence length is positive; complex words are among the alphabetic words; their percentage lies in [0, 1]; the fog index is 0.4 times the average sentence length plus that percentage |
| MetricEngine.WordStatisticsFields | src/analysis/test_analysis.py:188-197 | with at least one alphabetic token, syllables per word and average word length are at least 1; with none, both are 0 |
| MetricEngine.PronounField | src/analysis/test_analysis.py:194 | PERSONAL PRONOUNS is the number of pronoun matches in the raw text that are not `US` |
| MetricEngine.AnalyzedIsNotZero | src/analysis/test_analysis.py:189-190 | an analyzed article never yields the zero record, because its WORD COUNT is at least 1 |
| Batch.AnalyzeFile | src/analysis/test_analysis.py:215-233 | the metrics are the zero record exactly when the article cannot be read |
| Batch.OutputOf | src/analysis/test_analysis.py:308-313 | the output row keeps the input row's id and url, and its metrics are the zero record exactly when the article is missing or unreadable |
| Batch.FoundCount | src/analysis/test_analysis.py:296-303 | the number of existing files is at most the number of rows, and equals it exactly when no file is missing |
| Batch.AnalyzeRow | src/analysis/test_analysis.py:287-314 | one row's output keeps its id and url and holds the analysis of its file (the zero record when the file is missing); the row is a success exactly when its file exists |
| Batch.OutputsAt | src/analysis/test_analysis.py:283-314 | the i-th output row is the output of the i-th input row |
| Batch.OutputsOfPrefix | src/analysis/test_analysis.py:283-314 | one more input row adds exactly its output row at the end, and adds one to the count when its file exists |
| Batch.OutputsFollowRows | src/analysis/test_analysis.py:283-314 | every output row carries its input row's id and url, and its metrics are the zero record exactly when the article is missing or unreadable |
| Batch.AnalyzeAll | src/analysis/test_analysis.py:283-314 | the loop emits one output row per input row, in input order; the success count is the number of rows whose file exists, at most the number of rows |

`success_count` counts every row whose article file exists, even when reading that file fails inside `analyze_file` and the row gets the zero record. The model follows the code here. So `FoundCount` may exceed the number of rows with analyzed (non-zero) metrics.

## Left out

- The NLTK tokenizers `sent_tokenize` and `word_tokenize` are not part of this model. They are parameters of `Batch` and their outputs are parameters of `MetricEngine.AnalyzeText`. They are assumed total: an exception inside them, which `analyze_file` would turn into the zero record, is not modelled.
- File system and console: existence tests, directory listing, opening and reading files, the Excel input and output, and every `print`. A folder, a listed file, a read and an article file are values saying what the file system returned.
- `os.listdir` on a path that exists but is not a directory raises in the source; the model has only "folder missing" and "folder with these files".
- The `except` branch of `main`'s loop is not modelled. `analyze_file` catches every exception itself, so with total tokenizers that branch is never taken.
- Floating point: every ratio is an exact rational. The contracts are properties of the formulas, not of IEEE doubles.
- Unicode: `isalpha`, `lower`, `strip`, `\w` and IGNORECASE are modelled on ASCII. Python's Unicode letters, whitespace and case-folding special cases (for example `ſ` matching `s`, or dotted and dotless i) are outside the model.
- The zero record's fields are 0 in every column. The source writes the integer 0 where `analyze_text` produces floats; the model uses `0.0` for the real-valued fields.
- The order in which `os.listdir` lists the stopword files is an input: the files are a sequence in listing order.
