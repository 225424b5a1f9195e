/** The metric engine `TextAnalyzer.analyze_text` and the zero record
    `_get_zero_metrics`. The sentence and word tokenizers are outside the
    model: their outputs, the sentence list and the raw token list, are
    inputs. Ratios are exact rationals (`real`), not floating point. */
module MetricEngine {
  import opened AsciiText
  import Syllables
  import Pronouns
  import opened Lexicon

  /** The thirteen metrics of one article, in the order of the output table. */
  datatype Metrics = Metrics(
    positiveScore: int,
    negativeScore: int,
    polarityScore: real,
    subjectivityScore: real,
    avgSentenceLength: real,
    percentageOfComplexWords: real,
    fogIndex: real,
    avgNumberOfWordsPerSentence: real,
    complexWordCount: int,
    wordCount: int,
    syllablePerWord: real,
    personalPronouns: int,
    avgWordLength: real)

  /** The constant that keeps the sentiment ratios defined. */
  const Epsilon: real := 0.000001

  predicate IsZeroRecord(m: Metrics)
  {
    m.positiveScore == 0 && m.negativeScore == 0 && m.polarityScore == 0.0 &&
    m.subjectivityScore == 0.0 && m.avgSentenceLength == 0.0 &&
    m.percentageOfComplexWords == 0.0 && m.fogIndex == 0.0 &&
    m.avgNumberOfWordsPerSentence == 0.0 && m.complexWordCount == 0 &&
    m.wordCount == 0 && m.syllablePerWord == 0.0 && m.personalPronouns == 0 &&
    m.avgWordLength == 0.0
  }

  /** `_get_zero_metrics`: the record of an article that could not be analyzed. */
  function ZeroMetrics(): (m: Metrics)
    ensures IsZeroRecord(m)
  {
    Metrics(0, 0, 0.0, 0.0, 0.0, 0.0, 0.0, 0.0, 0, 0, 0.0, 0, 0.0)
  }

  /** `a` is `b` with some elements left out, the rest in order. */
  predicate IsSubsequence<T(==)>(a: seq<T>, b: seq<T>)
    decreases |b|
  {
    if b == [] then a == []
    else (a != [] && a[0] == b[0] && IsSubsequence(a[1..], b[1..])) || IsSubsequence(a, b[1..])
  }

  /** `[word for word in words if word.isalpha()]`. */
  function AlphaWords(tokens: seq<string>): (words: seq<string>)
    ensures forall i :: 0 <= i < |words| ==> IsAlphaWord(words[i])
    ensures IsSubsequence(words, tokens)
    ensures forall w :: IsAlphaWord(w) ==> multiset(words)[w] == multiset(tokens)[w]
  {
    if tokens == [] then []
    else
      var rest := AlphaWords(tokens[1..]);
      assert tokens == [tokens[0]] + tokens[1..];
      if IsAlphaWord(tokens[0]) then
        assert ([tokens[0]] + rest)[1..] == rest;
        [tokens[0]] + rest
      else
        rest
  }

  /** `[word.lower() for word in words]`. */
  function LowerWords(words: seq<string>): (r: seq<string>)
    ensures |r| == |words|
    ensures forall i :: 0 <= i < |words| ==> r[i] == Lower(words[i])
  {
    seq(|words|, i requires 0 <= i < |words| => Lower(words[i]))
  }

  /** `[word for word in words_lower if word not in self.stopwords]`: no
      stopword is left, every other occurrence is kept, in order. */
  function RemoveStopwords(words: seq<string>, stopwords: set<string>): (cleaned: seq<string>)
    ensures forall i :: 0 <= i < |cleaned| ==> cleaned[i] !in stopwords
    ensures IsSubsequence(cleaned, words)
    ensures forall w :: w !in stopwords ==> multiset(cleaned)[w] == multiset(words)[w]
  {
    if words == [] then []
    else
      var rest := RemoveStopwords(words[1..], stopwords);
      assert words == [words[0]] + words[1..];
      if words[0] in stopwords then
        rest
      else
        assert ([words[0]] + rest)[1..] == rest;
        [words[0]] + rest
  }

  /** `sum(1 for word in words if word in s)`. */
  function CountMembers(words: seq<string>, s: set<string>): (n: nat)
    ensures n <= |words|
    ensures (forall i :: 0 <= i < |words| ==> words[i] !in s) ==> n == 0
  {
    if words == [] then 0
    else (if words[0] in s then 1 else 0) + CountMembers(words[1..], s)
  }

  /** A word is counted against at most one of two disjoint word sets. */
  lemma {:induction false} DisjointCountsBounded(words: seq<string>, a: set<string>, b: set<string>)
    requires a !! b
    ensures CountMembers(words, a) + CountMembers(words, b) <= |words|
  {
    if words != [] {
      DisjointCountsBounded(words[1..], a, b);
    }
  }

  /** `len([word for word in words if self.count_syllables(word) > 2])`. */
  function ComplexWordCount(words: seq<string>): (n: nat)
    ensures n <= |words|
  {
    if words == [] then 0
    else (if Syllables.Estimate(words[0]) > 2 then 1 else 0) + ComplexWordCount(words[1..])
  }

  /** `sum(self.count_syllables(word) for word in words)`: at least one per word. */
  function TotalSyllables(words: seq<string>): (n: int)
    ensures n >= |words|
  {
    if words == [] then 0
    else Syllables.Estimate(words[0]) + TotalSyllables(words[1..])
  }

  /** `sum(len(word) for word in words)`: at least one per non-empty word. */
  function TotalCharacters(words: seq<string>): (n: nat)
    ensures (forall i :: 0 <= i < |words| ==> words[i] != []) ==> n >= |words|
  {
    if words == [] then 0
    else |words[0]| + TotalCharacters(words[1..])
  }

  /** `max(n, 1)`, the floor that keeps every denominator positive. */
  function AtLeastOne(n: nat): (r: nat)
    ensures r >= 1 && r >= n
    ensures n >= 1 ==> r == n
  {
    if n < 1 then 1 else n
  }

  /** A quotient whose numerator is smaller in magnitude than its positive
      denominator lies strictly between -1 and 1. */
  lemma QuotientBelowOne(a: real, d: real)
    requires d > 0.0 && -d < a < d
    ensures -1.0 < a / d < 1.0
  {
    assert (a / d) * d == a;
  }

  /** A quotient of a non-negative numerator by a positive denominator is
      non-negative (positive for a positive numerator), at least one when
      the numerator is at least the denominator, at most one when at most. */
  lemma QuotientAgainstOne(a: real, d: real)
    requires d > 0.0 && a >= 0.0
    ensures a / d >= 0.0 && (a > 0.0 ==> a / d > 0.0)
    ensures a >= d ==> a / d >= 1.0
    ensures a <= d ==> a / d <= 1.0
  {
    assert (a / d) * d == a;
  }

  /** `(positive - negative) / ((positive + negative) + epsilon)`: strictly
      between -1 and 1, zero when the scores balance (in particular when
      both are zero), positive exactly when positive words dominate. */
  function Polarity(positive: nat, negative: nat): (r: real)
    ensures -1.0 < r < 1.0
    ensures positive == negative ==> r == 0.0
    ensures r > 0.0 <==> positive > negative
  {
    var d := (positive + negative) as real + Epsilon;
    var a := (positive - negative) as real;
    QuotientBelowOne(a, d);
    a / d
  }

  /** `(positive + negative) / (num_cleaned_words + epsilon)`: never
      negative, and below one when no cleaned word is counted twice. */
  function Subjectivity(positive: nat, negative: nat, numCleanedWords: nat): (r: real)
    requires numCleanedWords >= 1
    ensures r >= 0.0
    ensures positive + negative <= numCleanedWords ==> r < 1.0
    ensures positive + negative == 0 <==> r == 0.0
  {
    var d := numCleanedWords as real + Epsilon;
    var a := (positive + negative) as real;
    assert positive + negative <= numCleanedWords ==> a / d < 1.0 by {
      if positive + negative <= numCleanedWords {
        QuotientBelowOne(a, d);
      }
    }
    a / d
  }

  /** Every lowered alphabetic token is a lower-case alphabetic word. */
  lemma LoweredAlphaWords(tokens: seq<string>, w: string)
    requires w in LowerWords(AlphaWords(tokens))
    ensures IsAlphaWord(w) && IsLowerCase(w)
  {
    var words := AlphaWords(tokens);
    var j :| 0 <= j < |words| && LowerWords(words)[j] == w;
    assert w == Lower(words[j]);
    LowerIsLowerCase(words[j]);
  }

  /** `cleaned_words`: the stopword-filtered, lower-cased alphabetic tokens.
      Each is a lower-case alphabetic word that is not a stopword, and every
      other word keeps its number of occurrences among the lowered tokens. */
  function CleanedWords(tokens: seq<string>, stopwords: set<string>): (cleaned: seq<string>)
    ensures forall i :: 0 <= i < |cleaned| ==>
              cleaned[i] !in stopwords && IsAlphaWord(cleaned[i]) && IsLowerCase(cleaned[i])
    ensures forall w :: w !in stopwords ==>
              multiset(cleaned)[w] == multiset(LowerWords(AlphaWords(tokens)))[w]
  {
    var lowered := LowerWords(AlphaWords(tokens));
    var cleaned := RemoveStopwords(lowered, stopwords);
    assert forall i :: 0 <= i < |cleaned| ==> IsAlphaWord(cleaned[i]) && IsLowerCase(cleaned[i]) by {
      forall i | 0 <= i < |cleaned|
        ensures IsAlphaWord(cleaned[i]) && IsLowerCase(cleaned[i])
      {
        assert cleaned[i] in multiset(cleaned);
        assert cleaned[i] in multiset(lowered);
        LoweredAlphaWords(tokens, cleaned[i]);
      }
    }
    cleaned
  }

  /** `analyze_text`, given the outputs of the two tokenizers. WORD COUNT
      is the floored number of cleaned words, and the two sentence-length
      fields hold one value. */
  function AnalyzeText(text: string, sentences: seq<string>, tokens: seq<string>, lex: WordSets): (m: Metrics)
    ensures m.wordCount == AtLeastOne(|CleanedWords(tokens, lex.stopwords)|) >= 1
    ensures m.avgSentenceLength == m.avgNumberOfWordsPerSentence
  {
    var words := AlphaWords(tokens);
    var cleaned := CleanedWords(tokens, lex.stopwords);
    var numSentences := AtLeastOne(|sentences|);
    var numWords := AtLeastOne(|words|);
    var numCleanedWords := AtLeastOne(|cleaned|);
    var positive := CountMembers(cleaned, lex.positiveWords);
    var negative := CountMembers(cleaned, lex.negativeWords);
    var avgSentenceLength := numWords as real / numSentences as real;
    var complex := ComplexWordCount(words);
    var percentageComplex := complex as real / numWords as real;
    Metrics(
      positive,
      negative,
      Polarity(positive, negative),
      Subjectivity(positive, negative, numCleanedWords),
      avgSentenceLength,
      percentageComplex,
      0.4 * (avgSentenceLength + percentageComplex),
      avgSentenceLength,
      complex,
      numCleanedWords,
      TotalSyllables(words) as real / numWords as real,
      Pronouns.CountPersonalPronouns(text),
      TotalCharacters(words) as real / numWords as real)
  }

  /** The sentiment fields: both scores count cleaned words, so neither
      exceeds the number of cleaned words nor WORD COUNT; polarity lies strictly between -1 and 1 and is 0
      when no sentiment word occurs; subjectivity is never negative, and
      below one when no word is both positive and negative. */
  lemma SentimentFields(text: string, sentences: seq<string>, tokens: seq<string>, lex: WordSets)
    ensures var m := AnalyzeText(text, sentences, tokens, lex);
            && 0 <= m.positiveScore <= |CleanedWords(tokens, lex.stopwords)|
            && 0 <= m.negativeScore <= |CleanedWords(tokens, lex.stopwords)|
            && m.positiveScore <= m.wordCount && m.negativeScore <= m.wordCount
            && -1.0 < m.polarityScore < 1.0
            && (m.positiveScore == 0 && m.negativeScore == 0 ==> m.polarityScore == 0.0)
            && m.subjectivityScore >= 0.0
            && (lex.positiveWords !! lex.negativeWords ==> m.subjectivityScore < 1.0)
  {
    var cleaned := CleanedWords(tokens, lex.stopwords);
    if lex.positiveWords !! lex.negativeWords {
      DisjointCountsBounded(cleaned, lex.positiveWords, lex.negativeWords);
    }
  }

  /** The readability fields: the average sentence length is positive; the
      complex words are among the alphabetic tokens, so their share lies in
      [0, 1]; the fog index is 0.4 times the sum of the two. */
  lemma ReadabilityFields(text: string, sentences: seq<string>, tokens: seq<string>, lex: WordSets)
    ensures var m := AnalyzeText(text, sentences, tokens, lex);
            && m.avgSentenceLength == m.avgNumberOfWordsPerSentence > 0.0
            && 0 <= m.complexWordCount <= |AlphaWords(tokens)|
            && 0.0 <= m.percentageOfComplexWords <= 1.0
            && m.fogIndex == 0.4 * (m.avgSentenceLength + m.percentageOfComplexWords)
  {
    var words := AlphaWords(tokens);
    QuotientAgainstOne(AtLeastOne(|words|) as real, AtLeastOne(|sentences|) as real);
    QuotientAgainstOne(ComplexWordCount(words) as real, AtLeastOne(|words|) as real);
  }

  /** The word statistics over the unfiltered alphabetic tokens: with at
      least one such token every word has at least one syllable and one
      letter, so both averages are at least one; with none, both are 0. */
  lemma WordStatisticsFields(text: string, sentences: seq<string>, tokens: seq<string>, lex: WordSets)
    ensures var m := AnalyzeText(text, sentences, tokens, lex);
            && (AlphaWords(tokens) != [] ==> m.syllablePerWord >= 1.0 && m.avgWordLength >= 1.0)
            && (AlphaWords(tokens) == [] ==> m.syllablePerWord == 0.0 && m.avgWordLength == 0.0)
  {
    var words := AlphaWords(tokens);
    QuotientAgainstOne(TotalSyllables(words) as real, AtLeastOne(|words|) as real);
    QuotientAgainstOne(TotalCharacters(words) as real, AtLeastOne(|words|) as real);
  }

  /** PERSONAL PRONOUNS counts the pronoun matches in the raw text other
      than the country `US`. */
  lemma PronounField(text: string, sentences: seq<string>, tokens: seq<string>, lex: WordSets)
    ensures AnalyzeText(text, sentences, tokens, lex).personalPronouns
            == Pronouns.CountMatches(text, Pronouns.PronounOtherThanUs, |text|) >= 0
  {
  }

  /** An analyzed article never yields the zero record: its WORD COUNT is
      at least one, so a zero record always means "not analyzed". */
  lemma AnalyzedIsNotZero(text: string, sentences: seq<string>, tokens: seq<string>, lex: WordSets)
    ensures !IsZeroRecord(AnalyzeText(text, sentences, tokens, lex))
  {
  }
}
