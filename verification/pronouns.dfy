/** The pronoun counter `TextAnalyzer.count_personal_pronouns`: the
    case-insensitive whole-word matches of I, we, my, ours and us in the
    raw text, less the case-sensitive whole-word matches of US (the
    country), never below zero. A regular-expression match is modelled by
    the position where it starts. */
module Pronouns {
  import opened AsciiText

  /** `\b` at position `i` of `t`: a word character on exactly one side. */
  predicate IsBoundary(t: string, i: nat)
    requires i <= |t|
  {
    (i > 0 && IsWordChar(t[i - 1])) != (i < |t| && IsWordChar(t[i]))
  }

  /** `\b<word>\b` matches `t` at position `p`; with `ignoreCase` the
      letters are compared after lower-casing both sides. */
  predicate WholeWordAt(t: string, p: nat, word: string, ignoreCase: bool)
  {
    p + |word| <= |t| && IsBoundary(t, p) && IsBoundary(t, p + |word|) &&
    if ignoreCase then Lower(t[p..p + |word|]) == Lower(word) else t[p..p + |word|] == word
  }

  /** `\b(I|we|my|ours|us)\b` under IGNORECASE matches at `p`. */
  predicate PronounAt(t: string, p: nat)
  {
    WholeWordAt(t, p, "I", true) || WholeWordAt(t, p, "we", true) || WholeWordAt(t, p, "my", true)
    || WholeWordAt(t, p, "ours", true) || WholeWordAt(t, p, "us", true)
  }

  /** `\bUS\b`, case-sensitive, matches at `p`. */
  predicate CountryUsAt(t: string, p: nat)
  {
    WholeWordAt(t, p, "US", false)
  }

  datatype Pattern = Pronoun | CountryUs | PronounOtherThanUs

  predicate MatchAt(t: string, p: nat, pat: Pattern)
  {
    match pat
    case Pronoun => PronounAt(t, p)
    case CountryUs => CountryUsAt(t, p)
    case PronounOtherThanUs => PronounAt(t, p) && !CountryUsAt(t, p)
  }

  /** `len(re.findall(...))` over the positions below `n`: one per position
      where `pat` matches. */
  function CountMatches(t: string, pat: Pattern, n: nat): (c: nat)
    ensures c <= n
  {
    if n == 0 then 0
    else CountMatches(t, pat, n - 1) + if MatchAt(t, n - 1, pat) then 1 else 0
  }

  /** The positions below `n` where `pat` matches. */
  function MatchPositions(t: string, pat: Pattern, n: nat): set<nat>
  {
    set p: nat | p < n && MatchAt(t, p, pat)
  }

  /** Adding a position not yet in a set of positions adds one to its size. */
  lemma PositionsStep(before: set<nat>, after: set<nat>, n: nat, matches: bool)
    requires forall p :: p in before ==> p < n
    requires forall p :: p in after <==> p in before || (matches && p == n)
    ensures |after| == |before| + if matches then 1 else 0
  {
    if matches {
      assert after == before + {n};
    } else {
      assert after == before;
    }
  }

  /** The count is the number of match positions. */
  lemma {:induction false} CountMatchesIsCardinality(t: string, pat: Pattern, n: nat)
    ensures CountMatches(t, pat, n) == |MatchPositions(t, pat, n)|
  {
    if n > 0 {
      CountMatchesIsCardinality(t, pat, n - 1);
      PositionsStep(MatchPositions(t, pat, n - 1), MatchPositions(t, pat, n), n - 1, MatchAt(t, n - 1, pat));
    }
  }

  /** A match of an alphabetic word covers letters only, so no other match,
      which needs a boundary where it starts, can begin inside it: the
      non-overlapping scan of `re.findall` finds every match position. */
  lemma NoMatchStartsInsideAMatch(t: string, p: nat, word: string, ignoreCase: bool, q: nat)
    requires IsAlphaWord(word) && WholeWordAt(t, p, word, ignoreCase)
    requires p < q < p + |word|
    ensures !IsBoundary(t, q)
  {
    var s := t[p..p + |word|];
    assert s[q - 1 - p] == t[q - 1] && s[q - p] == t[q];
    if ignoreCase {
      assert LowerChar(s[q - 1 - p]) == LowerChar(word[q - 1 - p]);
      assert LowerChar(s[q - p]) == LowerChar(word[q - p]);
    }
    assert IsAlpha(t[q - 1]) && IsAlpha(t[q]);
  }

  /** Every whole-word `US` is also a case-insensitive match of `us`. */
  lemma CountryUsIsPronoun(t: string, p: nat)
    requires CountryUsAt(t, p)
    ensures PronounAt(t, p)
  {
    assert Lower("US") == "us" == Lower("us");
    assert WholeWordAt(t, p, "us", true);
  }

  /** Subtracting the `US` count removes exactly the `US` matches. */
  lemma {:induction false} SubtractCountryUs(t: string, n: nat)
    ensures CountMatches(t, Pronoun, n) - CountMatches(t, CountryUs, n)
            == CountMatches(t, PronounOtherThanUs, n)
  {
    if n > 0 {
      SubtractCountryUs(t, n - 1);
      if CountryUsAt(t, n - 1) {
        CountryUsIsPronoun(t, n - 1);
      }
    }
  }

  /** The pronoun count: the first pass less the second, floored at zero;
      it equals the number of pronoun matches whose text is not `US`. */
  function CountPersonalPronouns(text: string): (r: int)
    ensures r >= 0
    ensures r == CountMatches(text, PronounOtherThanUs, |text|)
  {
    SubtractCountryUs(text, |text|);
    var total := CountMatches(text, Pronoun, |text|) - CountMatches(text, CountryUs, |text|);
    if total < 0 then 0 else total
  }

  /** No pattern of the counter can match where the text does not start a
      word with i, w, m, o or u. */
  lemma NoMatchWithoutPronounStart(t: string, p: nat)
    requires p < |t|
    requires !IsBoundary(t, p) || !(LowerChar(t[p]) in {'i', 'w', 'm', 'o', 'u'})
    ensures !PronounAt(t, p) && !CountryUsAt(t, p)
  {
    forall word: string, ignoreCase: bool | |word| > 0 && WholeWordAt(t, p, word, ignoreCase)
      ensures LowerChar(t[p]) == LowerChar(word[0])
    {
      assert t[p..p + |word|][0] == t[p];
      if ignoreCase {
        assert Lower(t[p..p + |word|])[0] == Lower(word)[0];
      }
    }
  }

  /** The worked example of the counter, spelled out character by character. */
  predicate SpellsUsExample(t: string)
  {
    |t| == 27 && t[0] == 'I' && t[1] == ' ' && t[2] == 'l' && t[3] == 'o' && t[4] == 'v' && t[5] == 'e' && t[6] == ' ' && t[7] == 'u' && t[8] == 's' && t[9] == '.' && t[10] == ' ' && t[11] == 'T' && t[12] == 'h' && t[13] == 'e' && t[14] == ' ' && t[15] == 'U' && t[16] == 'S' && t[17] == ' ' && t[18] == 'i' && t[19] == 's' && t[20] == ' ' && t[21] == 'g' && t[22] == 'r' && t[23] == 'e' && t[24] == 'a' && t[25] == 't' && t[26] == '.'
  }

  /** "I love " : one match. */
  lemma UsExampleFirstClause(t: string)
    requires SpellsUsExample(t)
    ensures CountMatches(t, PronounOtherThanUs, 7) == 1
  {
    assert MatchAt(t, 0, PronounOtherThanUs) by {
      assert t[0..1] == "I";
      assert WholeWordAt(t, 0, "I", true);
    }
    assert CountMatches(t, PronounOtherThanUs, 1) == 1;
    NoMatchWithoutPronounStart(t, 1);
    assert CountMatches(t, PronounOtherThanUs, 2) == 1;
    NoMatchWithoutPronounStart(t, 2);
    assert CountMatches(t, PronounOtherThanUs, 3) == 1;
    NoMatchWithoutPronounStart(t, 3);
    assert CountMatches(t, PronounOtherThanUs, 4) == 1;
    NoMatchWithoutPronounStart(t, 4);
    assert CountMatches(t, PronounOtherThanUs, 5) == 1;
    NoMatchWithoutPronounStart(t, 5);
    assert CountMatches(t, PronounOtherThanUs, 6) == 1;
    NoMatchWithoutPronounStart(t, 6);
    assert CountMatches(t, PronounOtherThanUs, 7) == 1;
  }

  /** "us." : the second match. */
  lemma UsExampleFirstClauseEnd(t: string)
    requires SpellsUsExample(t)
    requires CountMatches(t, PronounOtherThanUs, 7) == 1
    ensures CountMatches(t, PronounOtherThanUs, 10) == 2
  {
    assert MatchAt(t, 7, PronounOtherThanUs) by {
      assert t[7..9] == "us" && Lower("us") == "us";
      assert WholeWordAt(t, 7, "us", true);
      assert t[7..9][0] == 'u';
    }
    assert CountMatches(t, PronounOtherThanUs, 8) == 2;
    NoMatchWithoutPronounStart(t, 8);
    assert CountMatches(t, PronounOtherThanUs, 9) == 2;
    NoMatchWithoutPronounStart(t, 9);
    assert CountMatches(t, PronounOtherThanUs, 10) == 2;
  }

  /** " The US" : the country is excluded. */
  lemma UsExampleSecondClause(t: string)
    requires SpellsUsExample(t)
    requires CountMatches(t, PronounOtherThanUs, 10) == 2
    ensures CountMatches(t, PronounOtherThanUs, 18) == 2
  {
    NoMatchWithoutPronounStart(t, 10);
    assert CountMatches(t, PronounOtherThanUs, 11) == 2;
    NoMatchWithoutPronounStart(t, 11);
    assert CountMatches(t, PronounOtherThanUs, 12) == 2;
    NoMatchWithoutPronounStart(t, 12);
    assert CountMatches(t, PronounOtherThanUs, 13) == 2;
    NoMatchWithoutPronounStart(t, 13);
    assert CountMatches(t, PronounOtherThanUs, 14) == 2;
    NoMatchWithoutPronounStart(t, 14);
    assert CountMatches(t, PronounOtherThanUs, 15) == 2;
    assert CountryUsAt(t, 15) by { assert t[15..17] == "US"; }
    assert CountMatches(t, PronounOtherThanUs, 16) == 2;
    NoMatchWithoutPronounStart(t, 16);
    assert CountMatches(t, PronounOtherThanUs, 17) == 2;
    NoMatchWithoutPronounStart(t, 17);
    assert CountMatches(t, PronounOtherThanUs, 18) == 2;
  }

  /** " is great." : "is" is not "I". */
  lemma UsExampleThirdClause(t: string)
    requires SpellsUsExample(t)
    requires CountMatches(t, PronounOtherThanUs, 18) == 2
    ensures CountMatches(t, PronounOtherThanUs, 27) == 2
  {
    assert !PronounAt(t, 18) by { assert !IsBoundary(t, 19); }
    assert CountMatches(t, PronounOtherThanUs, 19) == 2;
    NoMatchWithoutPronounStart(t, 19);
    assert CountMatches(t, PronounOtherThanUs, 20) == 2;
    NoMatchWithoutPronounStart(t, 20);
    assert CountMatches(t, PronounOtherThanUs, 21) == 2;
    NoMatchWithoutPronounStart(t, 21);
    assert CountMatches(t, PronounOtherThanUs, 22) == 2;
    NoMatchWithoutPronounStart(t, 22);
    assert CountMatches(t, PronounOtherThanUs, 23) == 2;
    NoMatchWithoutPronounStart(t, 23);
    assert CountMatches(t, PronounOtherThanUs, 24) == 2;
    NoMatchWithoutPronounStart(t, 24);
    assert CountMatches(t, PronounOtherThanUs, 25) == 2;
    NoMatchWithoutPronounStart(t, 25);
    assert CountMatches(t, PronounOtherThanUs, 26) == 2;
    NoMatchWithoutPronounStart(t, 26);
    assert CountMatches(t, PronounOtherThanUs, 27) == 2;
  }

  /** "I love us. The US is great." holds two pronouns: "I" and "us". */
  lemma CountryUsExcludedExample()
    ensures CountPersonalPronouns("I love us. The US is great.") == 2
  {
    var t := "I love us. The US is great.";
    assert SpellsUsExample(t);
    UsExampleFirstClause(t);
    UsExampleFirstClauseEnd(t);
    UsExampleSecondClause(t);
    UsExampleThirdClause(t);
  }
}
