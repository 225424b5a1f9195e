/** The lexicon loaders of `TextAnalyzer`: `load_stopwords`, which unions the
    words of every `.txt` file of the stopwords folder, and
    `load_sentiment_words`, which reads the positive and negative lists and
    drops every stopword from them. The file system is replaced by values
    that say what the folder listing and each read returned. */
module Lexicon {
  import opened AsciiText

  /** What reading a word-list file gave: its lines, or an error. */
  datatype FileRead = Unreadable | Lines(lines: seq<string>)

  /** One entry of the stopwords folder, in listing order. */
  datatype ListedFile = ListedFile(name: string, content: FileRead)

  datatype StopwordsFolder = NoStopwordsFolder | StopwordsFolder(files: seq<ListedFile>)

  /** `positive-words.txt` or `negative-words.txt`: missing, or present and read. */
  datatype DictionaryFile = Absent | Present(content: FileRead)

  datatype DictionaryFolder =
    | NoDictionaryFolder
    | DictionaryFolder(positiveFile: DictionaryFile, negativeFile: DictionaryFile)

  /** The three word sets a `TextAnalyzer` holds; they are never changed after loading. */
  datatype WordSets = WordSets(stopwords: set<string>, positiveWords: set<string>, negativeWords: set<string>)

  /** A word as the loaders keep it: non-empty, trimmed, lower case. */
  predicate IsNormalizedWord(w: string)
  {
    w != [] && IsTrimmed(w) && IsLowerCase(w)
  }

  /** The invariant of a loaded lexicon: normalized words, and no
      sentiment word is a stopword. */
  predicate IsValidWordSets(lex: WordSets)
  {
    (forall w :: w in lex.stopwords ==> IsNormalizedWord(w)) &&
    (forall w :: w in lex.positiveWords ==> IsNormalizedWord(w)) &&
    (forall w :: w in lex.negativeWords ==> IsNormalizedWord(w)) &&
    lex.positiveWords !! lex.stopwords && lex.negativeWords !! lex.stopwords
  }

  /** `line.strip().lower()`; a line that is not blank gives a normalized word. */
  function NormalizeLine(line: string): (w: string)
    ensures Strip(line) != [] ==> IsNormalizedWord(w)
  {
    var s := Strip(line);
    LowerIsLowerCase(s);
    LowerKeepsTrimmed(s);
    Lower(s)
  }

  /** The words of one list: every non-blank line, stripped and lower-cased. */
  function WordsOfLines(lines: seq<string>): (r: set<string>)
    ensures forall w :: w in r ==> IsNormalizedWord(w)
    ensures forall i :: 0 <= i < |lines| && Strip(lines[i]) != [] ==> NormalizeLine(lines[i]) in r
  {
    set line | line in lines && Strip(line) != [] :: NormalizeLine(line)
  }

  predicate IsTextFile(name: string)
  {
    EndsWith(name, ".txt")
  }

  /** What one listed file adds: nothing unless it is a `.txt` file that could be read. */
  function WordsOfFile(f: ListedFile): set<string>
  {
    if IsTextFile(f.name) && f.content.Lines? then WordsOfLines(f.content.lines) else {}
  }

  /** The union of `f(x)` over the elements `x` of `xs`, taken left to right. */
  function UnionOver<T>(xs: seq<T>, f: T -> set<string>): set<string>
  {
    if xs == [] then {} else UnionOver(xs[..|xs| - 1], f) + f(xs[|xs| - 1])
  }

  /** A word is in the union exactly when one of the parts holds it. */
  lemma {:induction false} UnionOverMembership<T>(xs: seq<T>, f: T -> set<string>, w: string)
    ensures w in UnionOver(xs, f) <==> exists i :: 0 <= i < |xs| && w in f(xs[i])
  {
    if xs != [] {
      var init := xs[..|xs| - 1];
      UnionOverMembership(init, f, w);
      if w in UnionOver(init, f) {
        var i :| 0 <= i < |init| && w in f(init[i]);
        assert xs[i] == init[i];
      }
      if exists i :: 0 <= i < |xs| && w in f(xs[i]) {
        var i :| 0 <= i < |xs| && w in f(xs[i]);
        if i < |init| {
          assert init[i] == xs[i];
        }
      }
    }
  }

  /** The union of the words of the listed files: normalized words only. */
  function StopwordsOfFiles(files: seq<ListedFile>): (r: set<string>)
    ensures forall w :: w in r ==> IsNormalizedWord(w)
  {
    forall w | w in UnionOver(files, WordsOfFile)
      ensures IsNormalizedWord(w)
    {
      UnionOverMembership(files, WordsOfFile, w);
    }
    UnionOver(files, WordsOfFile)
  }

  /** The set `load_stopwords` returns for a folder. */
  function Stopwords(folder: StopwordsFolder): set<string>
  {
    match folder
    case NoStopwordsFolder => {}
    case StopwordsFolder(files) => StopwordsOfFiles(files)
  }

  /** A stopword is exactly a word of some readable `.txt` file of an
      existing folder. */
  lemma StopwordsMembership(folder: StopwordsFolder, w: string)
    ensures w in Stopwords(folder) <==>
            folder.StopwordsFolder? && exists i :: 0 <= i < |folder.files| && w in WordsOfFile(folder.files[i])
  {
    if folder.StopwordsFolder? {
      UnionOverMembership(folder.files, WordsOfFile, w);
    }
  }

  /** `load_stopwords`: a missing folder gives the empty set; otherwise the
      words of every readable `.txt` file are added, file by file, and a
      file that cannot be read is skipped. */
  method LoadStopwords(folder: StopwordsFolder) returns (stopwords: set<string>)
    ensures stopwords == Stopwords(folder)
    ensures forall w :: w in stopwords ==> IsNormalizedWord(w)
  {
    stopwords := {};
    if folder.NoStopwordsFolder? {
      return;
    }
    var files := folder.files;
    for i := 0 to |files|
      invariant stopwords == StopwordsOfFiles(files[..i])
    {
      assert files[..i + 1][..i] == files[..i];
      var file := files[i];
      if IsTextFile(file.name) {
        match file.content
        case Unreadable =>
        case Lines(lines) =>
          stopwords := stopwords + WordsOfLines(lines);
      }
    }
    assert files[..|files|] == files;
  }

  /** One sentiment list: its words less the stopwords; empty when the file
      is missing or could not be read. */
  function SentimentWordsOf(file: DictionaryFile, stopwords: set<string>): (r: set<string>)
    ensures r !! stopwords
    ensures forall w :: w in r ==> IsNormalizedWord(w)
    ensures file.Present? && file.content.Lines? ==> r == WordsOfLines(file.content.lines) - stopwords
    ensures !(file.Present? && file.content.Lines?) ==> r == {}
  {
    match file
    case Present(Lines(lines)) =>
      set line | line in lines && Strip(line) != [] && NormalizeLine(line) !in stopwords :: NormalizeLine(line)
    case _ => {}
  }

  /** `load_sentiment_words`: the positive and the negative words. */
  function LoadSentimentWords(folder: DictionaryFolder, stopwords: set<string>): (r: (set<string>, set<string>))
    ensures r.0 !! stopwords && r.1 !! stopwords
    ensures folder.NoDictionaryFolder? ==> r == ({}, {})
  {
    match folder
    case NoDictionaryFolder => ({}, {})
    case DictionaryFolder(positiveFile, negativeFile) =>
      (SentimentWordsOf(positiveFile, stopwords), SentimentWordsOf(negativeFile, stopwords))
  }

  /** `TextAnalyzer.__init__`: load the stopwords, then the sentiment words
      filtered by them. */
  method NewTextAnalyzer(stopwordsFolder: StopwordsFolder, dictionaryFolder: DictionaryFolder)
    returns (lex: WordSets)
    ensures IsValidWordSets(lex)
    ensures lex.stopwords == Stopwords(stopwordsFolder)
    ensures (lex.positiveWords, lex.negativeWords) == LoadSentimentWords(dictionaryFolder, lex.stopwords)
  {
    var stopwords := LoadStopwords(stopwordsFolder);
    var (positiveWords, negativeWords) := LoadSentimentWords(dictionaryFolder, stopwords);
    lex := WordSets(stopwords, positiveWords, negativeWords);
  }
}
