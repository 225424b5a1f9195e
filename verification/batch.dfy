/** The per-article loop of `main`: one output row per input row, in input
    order, and a count of the articles whose text file exists. The input
    table, the article files and the tokenizers are inputs: each row
    carries what looking up `extracted_articles/<URL_ID>.txt` gave. */
module Batch {
  import opened MetricEngine
  import opened Lexicon

  /** The article file of a row: not there, there but unreadable, or its text. */
  datatype ArticleFile = NotFound | Unreadable | Readable(text: string)

  /** One row of the input table. */
  datatype InputRow = InputRow(urlId: string, url: string, article: ArticleFile)

  /** One row of the output table: the input columns, then the metrics. */
  datatype OutputRow = OutputRow(urlId: string, url: string, metrics: Metrics)

  /** `analyze_file`: the metrics of the text, or the zero record when the
      file cannot be opened or read. */
  function AnalyzeFile(article: ArticleFile, lex: WordSets,
                       sentTokenize: string -> seq<string>, wordTokenize: string -> seq<string>): (m: Metrics)
    ensures IsZeroRecord(m) <==> !article.Readable?
  {
    match article
    case Readable(text) =>
      AnalyzedIsNotZero(text, sentTokenize(text), wordTokenize(text), lex);
      AnalyzeText(text, sentTokenize(text), wordTokenize(text), lex)
    case _ => ZeroMetrics()
  }

  /** The number of rows whose article file exists. */
  function FoundCount(rows: seq<InputRow>): (n: nat)
    ensures n <= |rows|
    ensures n == |rows| <==> forall i :: 0 <= i < |rows| ==> !rows[i].article.NotFound?
  {
    if rows == [] then 0
    else FoundCount(rows[..|rows| - 1]) + if rows[|rows| - 1].article.NotFound? then 0 else 1
  }

  /** The output row `main` builds for one input row. */
  function OutputOf(row: InputRow, lex: WordSets,
                    sentTokenize: string -> seq<string>, wordTokenize: string -> seq<string>): (r: OutputRow)
    ensures r.urlId == row.urlId && r.url == row.url
    ensures IsZeroRecord(r.metrics) <==> !row.article.Readable?
  {
    OutputRow(row.urlId, row.url, AnalyzeFile(row.article, lex, sentTokenize, wordTokenize))
  }

  /** The body of the loop of `main` for one row: a missing file gives
      the zero record; an existing one is analyzed (a read error inside
      `analyze_file` also gives the zero record) and counts as a success. */
  method AnalyzeRow(row: InputRow, lex: WordSets,
                    sentTokenize: string -> seq<string>, wordTokenize: string -> seq<string>)
    returns (output: OutputRow, success: bool)
    ensures output == OutputOf(row, lex, sentTokenize, wordTokenize)
    ensures success <==> !row.article.NotFound?
  {
    var metrics: Metrics;
    if row.article.NotFound? {
      metrics := ZeroMetrics();
      success := false;
    } else {
      metrics := AnalyzeFile(row.article, lex, sentTokenize, wordTokenize);
      success := true;
    }
    output := OutputRow(row.urlId, row.url, metrics);
  }

  /** The output rows `main` builds for `rows`, in order. */
  function Outputs(rows: seq<InputRow>, lex: WordSets,
                   sentTokenize: string -> seq<string>, wordTokenize: string -> seq<string>): (r: seq<OutputRow>)
    ensures |r| == |rows|
  {
    if rows == [] then []
    else Outputs(rows[..|rows| - 1], lex, sentTokenize, wordTokenize)
         + [OutputOf(rows[|rows| - 1], lex, sentTokenize, wordTokenize)]
  }

  lemma {:induction false} OutputsAt(rows: seq<InputRow>, lex: WordSets,
                                     sentTokenize: string -> seq<string>, wordTokenize: string -> seq<string>, i: nat)
    requires i < |rows|
    ensures Outputs(rows, lex, sentTokenize, wordTokenize)[i] == OutputOf(rows[i], lex, sentTokenize, wordTokenize)
  {
    if i < |rows| - 1 {
      OutputsAt(rows[..|rows| - 1], lex, sentTokenize, wordTokenize, i);
    }
  }

  /** Extending the input by one row extends the output by that row's output. */
  lemma OutputsOfPrefix(rows: seq<InputRow>, lex: WordSets,
                        sentTokenize: string -> seq<string>, wordTokenize: string -> seq<string>, i: nat)
    requires i < |rows|
    ensures Outputs(rows[..i + 1], lex, sentTokenize, wordTokenize)
            == Outputs(rows[..i], lex, sentTokenize, wordTokenize) + [OutputOf(rows[i], lex, sentTokenize, wordTokenize)]
    ensures FoundCount(rows[..i + 1]) == FoundCount(rows[..i]) + if rows[i].article.NotFound? then 0 else 1
  {
    assert rows[..i + 1][..i] == rows[..i];
  }

  /** Each output row carries its input row's id and URL, and its metrics
      are the zero record exactly when the article could not be read. */
  lemma OutputsFollowRows(rows: seq<InputRow>, lex: WordSets,
                          sentTokenize: string -> seq<string>, wordTokenize: string -> seq<string>)
    ensures forall i :: 0 <= i < |rows| ==>
              Outputs(rows, lex, sentTokenize, wordTokenize)[i].urlId == rows[i].urlId &&
              Outputs(rows, lex, sentTokenize, wordTokenize)[i].url == rows[i].url &&
              (IsZeroRecord(Outputs(rows, lex, sentTokenize, wordTokenize)[i].metrics) <==> !rows[i].article.Readable?)
  {
    forall i | 0 <= i < |rows|
      ensures Outputs(rows, lex, sentTokenize, wordTokenize)[i] == OutputOf(rows[i], lex, sentTokenize, wordTokenize)
    {
      OutputsAt(rows, lex, sentTokenize, wordTokenize, i);
    }
  }

  /** The loop of `main`: one output row per input row, in order, and the
      number of rows whose article file exists. */
  method AnalyzeAll(rows: seq<InputRow>, lex: WordSets,
                    sentTokenize: string -> seq<string>, wordTokenize: string -> seq<string>)
    returns (results: seq<OutputRow>, successCount: nat)
    ensures results == Outputs(rows, lex, sentTokenize, wordTokenize)
    ensures successCount == FoundCount(rows) <= |rows|
  {
    results := [];
    successCount := 0;
    for i := 0 to |rows|
      invariant results == Outputs(rows[..i], lex, sentTokenize, wordTokenize)
      invariant successCount == FoundCount(rows[..i])
    {
      OutputsOfPrefix(rows, lex, sentTokenize, wordTokenize, i);
      var output, success := AnalyzeRow(rows[i], lex, sentTokenize, wordTokenize);
      if success {
        successCount := successCount + 1;
      }
      results := results + [output];
    }
    assert rows[..|rows|] == rows;
  }
}
