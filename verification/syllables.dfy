/** The heuristic syllable estimator `TextAnalyzer.count_syllables`:
    count the maximal runs of vowels in the lower-cased word, take one
    off for an `es` or `ed` ending, and never report fewer than one. */
module Syllables {
  import opened AsciiText

  predicate IsVowel(c: char)
  {
    c == 'a' || c == 'e' || c == 'i' || c == 'o' || c == 'u' || c == 'y'
  }

  /** Drops the vowels at the front of `s`. */
  function SkipVowels(s: string): (r: string)
    ensures |r| <= |s|
    ensures r == [] || !IsVowel(r[0])
  {
    if s != [] && IsVowel(s[0]) then SkipVowels(s[1..]) else s
  }

  /** The number of maximal runs of consecutive vowels in `s`: skip a
      consonant, or count a run and skip the whole of it. */
  function VowelRuns(s: string): nat
    decreases |s|
  {
    if s == [] then 0
    else if !IsVowel(s[0]) then VowelRuns(s[1..])
    else 1 + VowelRuns(SkipVowels(s[1..]))
  }

  /** The left-to-right scan of the source: a vowel counts when the
      character before it was not a vowel. */
  function GroupStarts(s: string, previousWasVowel: bool): nat
  {
    if s == [] then 0
    else
      (if IsVowel(s[0]) && !previousWasVowel then 1 else 0)
      + GroupStarts(s[1..], IsVowel(s[0]))
  }

  lemma {:induction false} ScanInsideRun(s: string)
    ensures GroupStarts(s, true) == GroupStarts(SkipVowels(s), false)
  {
    if s != [] {
      if IsVowel(s[0]) {
        ScanInsideRun(s[1..]);
      }
    }
  }

  /** The scan counts exactly the maximal vowel runs. */
  lemma {:induction false} ScanCountsRuns(s: string)
    ensures GroupStarts(s, false) == VowelRuns(s)
    decreases |s|
  {
    if s != [] {
      if IsVowel(s[0]) {
        ScanInsideRun(s[1..]);
        ScanCountsRuns(SkipVowels(s[1..]));
      } else {
        ScanCountsRuns(s[1..]);
      }
    }
  }

  predicate HasSilentEnding(w: string)
  {
    EndsWith(w, "es") || EndsWith(w, "ed")
  }

  /** The estimate for `word`: vowel runs of its lower-case form, one less
      for an `es`/`ed` ending, at least one. */
  function Estimate(word: string): (n: int)
    ensures n >= 1
  {
    var w := Lower(word);
    var runs := VowelRuns(w) - if HasSilentEnding(w) then 1 else 0;
    if runs < 1 then 1 else runs
  }

  /** The character loop of `count_syllables`, proved to compute `Estimate`. */
  method CountSyllables(word: string) returns (n: int)
    ensures n == Estimate(word)
    ensures n >= 1
  {
    var w := Lower(word);
    var syllableCount := 0;
    var previousWasVowel := false;
    assert w[0..] == w;
    for i := 0 to |w|
      invariant syllableCount + GroupStarts(w[i..], previousWasVowel) == GroupStarts(w, false)
    {
      assert w[i..][1..] == w[i + 1..];
      var isVowel := IsVowel(w[i]);
      if isVowel && !previousWasVowel {
        syllableCount := syllableCount + 1;
      }
      previousWasVowel := isVowel;
    }
    ScanCountsRuns(w);
    if EndsWith(w, "es") || EndsWith(w, "ed") {
      syllableCount := syllableCount - 1;
    }
    n := if syllableCount > 1 then syllableCount else 1;
  }

  /** For a word already in lower case the estimate depends only on its
      vowel runs and its ending. */
  lemma EstimateOfLowerCase(w: string, runs: nat)
    requires IsLowerCase(w) && VowelRuns(w) == runs
    ensures Estimate(w) == if HasSilentEnding(w) then (if runs < 2 then 1 else runs - 1)
                           else (if runs < 1 then 1 else runs)
  {
    LowerIsLowerCase(w);
  }

  /** "cakes": two vowel runs, one taken off for the `es` ending. */
  lemma CakesHasOneSyllable()
    ensures Estimate("cakes") == 1
  {
    var w := "cakes";
    assert HasSilentEnding(w) by { assert w[3..] == "es"; }
    assert VowelRuns("kes") == 1 by {
      assert "kes"[1..] == "es" && "es"[1..] == "s" && "s"[1..] == "";
      assert SkipVowels("s") == "s";
    }
    assert VowelRuns("akes") == 2 by {
      assert "akes"[0] == 'a' && "akes"[1..] == "kes";
      assert SkipVowels("kes") == "kes";
    }
    assert VowelRuns(w) == 2 by {
      assert w[0] == 'c' && w[1..] == "akes";
    }
    EstimateOfLowerCase(w, 2);
  }

  /** "running": vowel runs "u" and "i", no silent ending. */
  lemma RunningHasTwoSyllables()
    ensures Estimate("running") == 2
  {
    var w := "running";
    assert !HasSilentEnding(w) by { assert w[5..] == "ng"; }
    assert VowelRuns("ing") == 1 by {
      assert "ing"[0] == 'i' && "ing"[1..] == "ng" && SkipVowels("ng") == "ng";
      assert "ng"[1..] == "g" && "g"[1..] == "";
    }
    assert VowelRuns("nning") == 1 by {
      assert "nning"[1..] == "ning" && "ning"[1..] == "ing";
    }
    assert VowelRuns("unning") == 2 by {
      assert "unning"[0] == 'u' && "unning"[1..] == "nning" && SkipVowels("nning") == "nning";
    }
    assert VowelRuns(w) == 2 by {
      assert w[0] == 'r' && w[1..] == "unning";
    }
    EstimateOfLowerCase(w, 2);
  }
}
