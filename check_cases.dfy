/**
 The behaviour the unit tests of the checks expect, as lemmas: each test's
 history with a window of five, the word that should be reported and the
 words that should not. Each history is a parameter fixed by a `requires`
 rather than a literal argument, which keeps Dafny from unfolding the
 recursive scans on literals of its own accord.
 */
module CheckCases {
  import opened Strings
  import opened Glob
  import opened Tables
  import opened Findings
  import opened Windows
  import opened Checks
  import opened Expressions

  /** A part holding a character the whole lacks is no substring of it. */
  lemma AbsentChar(part: string, whole: string, k: nat)
    requires k < |part| && part[k] !in whole
    ensures !IsSubstring(part, whole)
  {
    forall i | 0 <= i <= |whole| - |part|
      ensures !OccursAt(part, whole, i)
    {
      assert whole[i..i + |part|][k] == whole[i + k];
    }
  }

  /** The mente scan of a four-word window, position by position. */
  lemma MenteScan4(word: string, a: string, b: string, c: string, d: string)
    ensures MenteScan(word, [a, b, c, d], 5)
         == (if IsAdverb(a) then [Mente(word, a, 5)] else [])
          + (if IsAdverb(b) then [Mente(word, b, 4)] else [])
          + (if IsAdverb(c) then [Mente(word, c, 3)] else [])
          + (if IsAdverb(d) then [Mente(word, d, 2)] else [])
  {
    assert [a, b, c, d][..3] == [a, b, c] && [a, b, c][..2] == [a, b] && [a, b][..1] == [a] && [a][..0] == [];
    assert MenteScan(word, [a], 5) == (if IsAdverb(a) then [Mente(word, a, 5)] else []);
    assert MenteScan(word, [a, b], 5) == MenteScan(word, [a], 5) + (if IsAdverb(b) then [Mente(word, b, 4)] else []);
    assert MenteScan(word, [a, b, c], 5) == MenteScan(word, [a, b], 5) + (if IsAdverb(c) then [Mente(word, c, 3)] else []);
  }

  /** The repetition scan of a four-word window, position by position. */
  lemma RepetitionScan4(word: string, a: string, b: string, c: string, d: string)
    ensures RepetitionScan(word, [a, b, c, d], 5)
         == (if a == word then [Repetition(word, 5)] else [])
          + (if b == word then [Repetition(word, 4)] else [])
          + (if c == word then [Repetition(word, 3)] else [])
          + (if d == word then [Repetition(word, 2)] else [])
  {
    assert [a, b, c, d][..3] == [a, b, c] && [a, b, c][..2] == [a, b] && [a, b][..1] == [a] && [a][..0] == [];
    assert RepetitionScan(word, [a], 5) == (if a == word then [Repetition(word, 5)] else []);
    assert RepetitionScan(word, [a, b], 5) == RepetitionScan(word, [a], 5) + (if b == word then [Repetition(word, 4)] else []);
    assert RepetitionScan(word, [a, b, c], 5) == RepetitionScan(word, [a, b], 5) + (if c == word then [Repetition(word, 3)] else []);
  }

  /** The contained scan of a four-word window, position by position. */
  lemma ContainedScan4(word: string, a: string, b: string, c: string, d: string)
    ensures ContainedScan(word, [a, b, c, d])
         == (if ContainedCandidate(word, a) then [Contained(word, a, 0)] else [])
          + (if ContainedCandidate(word, b) then [Contained(word, b, 1)] else [])
          + (if ContainedCandidate(word, c) then [Contained(word, c, 2)] else [])
          + (if ContainedCandidate(word, d) then [Contained(word, d, 3)] else [])
  {
    assert [a, b, c, d][..3] == [a, b, c] && [a, b, c][..2] == [a, b] && [a, b][..1] == [a] && [a][..0] == [];
    assert ContainedScan(word, [a]) == (if ContainedCandidate(word, a) then [Contained(word, a, 0)] else []);
    assert ContainedScan(word, [a, b]) == ContainedScan(word, [a]) + (if ContainedCandidate(word, b) then [Contained(word, b, 1)] else []);
    assert ContainedScan(word, [a, b, c]) == ContainedScan(word, [a, b]) + (if ContainedCandidate(word, c) then [Contained(word, c, 2)] else []);
  }

  /** An adverb in the window is reported with its distance from the new word. */
  lemma MenteReported(yes: seq<string>)
    requires yes == ["a", "a", "a", "facilmente", "b", "b", "b"]
    ensures MenteFindings("raramente", yes, 5) == [Mente("raramente", "facilmente", 4)]
  {
    var w := Window(yes, 5);
    assert w == ["a", "facilmente", "b", "b"];
    assert IsAdverb("raramente") && IsAdverb("facilmente") && !IsAdverb("a") && !IsAdverb("b");
    MenteScan4("raramente", "a", "facilmente", "b", "b");
  }

  /** A window without adverbs gives nothing. */
  lemma MenteNotReported(no: seq<string>)
    requires no == ["a", "a", "a", "x", "b", "b", "b"]
    ensures MenteFindings("raramente", no, 5) == []
  {
    var w := Window(no, 5);
    assert w == ["a", "x", "b", "b"];
    assert !IsAdverb("a") && !IsAdverb("x") && !IsAdverb("b");
    MenteScan4("raramente", "a", "x", "b", "b");
  }

  /** A new word that is no adverb is not checked. */
  lemma MenteNotAdverb(yes: seq<string>)
    requires yes == ["a", "a", "a", "facilmente", "b", "b", "b"]
    ensures MenteFindings("bla", yes, 5) == []
  {
    assert !EndsWith("bla", "mente");
  }

  /** The same word in the window is reported with its distance. */
  lemma RepetitionReported(yes: seq<string>)
    requires yes == ["la", "la", "la", "repetida", "su", "su", "su"]
    ensures RepetitionFindings("repetida", yes, 5) == [Repetition("repetida", 4)]
  {
    var w := Window(yes, 5);
    assert w == ["la", "repetida", "su", "su"];
    RepetitionScan4("repetida", "la", "repetida", "su", "su");
  }

  /** Words that differ from the new one, however similar, are not repetitions. */
  lemma RepetitionNotReported(no: seq<string>)
    requires no == ["la", "la", "repetid", "x", "el", "repe", "repetidas"]
    ensures RepetitionFindings("repetida", no, 5) == []
  {
    var w := Window(no, 5);
    assert w == ["repetid", "x", "el", "repe"];
    RepetitionScan4("repetida", "repetid", "x", "el", "repe");
  }

  lemma RepetitionOtherWord(yes: seq<string>)
    requires yes == ["la", "la", "la", "repetida", "su", "su", "su"]
    ensures RepetitionFindings("bla", yes, 5) == []
  {
    var w := Window(yes, 5);
    assert w == ["la", "repetida", "su", "su"];
    RepetitionScan4("bla", "la", "repetida", "su", "su");
  }

  /**
   A window word contained in the new one is reported at its position in the
   window. That "repetida" is not in the common-word table is taken as given:
   the table is too large for the verifier to rule a word out of it.
   */
  lemma ContainedReported(yes: seq<string>)
    requires yes == ["la", "la", "la", "repetida", "su", "su", "su"]
    requires "repetida" !in COMMON_WORDS
    ensures ContainedFindings("repetidas", yes, 5) == [Contained("repetidas", "repetida", 1)]
  {
    var w := Window(yes, 5);
    assert w == ["la", "repetida", "su", "su"];
    RepetidaCandidate();
    LaSuNotCandidates();
    ContainedScan4("repetidas", "la", "repetida", "su", "su");
  }

  lemma RepetidaCandidate()
    requires "repetida" !in COMMON_WORDS
    ensures ContainedCandidate("repetidas", "repetida")
  {
    assert "" + "repetida" + "s" == "repetidas";
    InfixIsSubstring("", "repetida", "s");
    assert !EndsWith("repetida", "mente");
  }

  lemma LaSuNotCandidates()
    ensures !ContainedCandidate("repetidas", "la") && !ContainedCandidate("repetidas", "su")
  {
    AbsentChar("la", "repetidas", 0);
    AbsentChar("repetidas", "la", 0);
    AbsentChar("su", "repetidas", 1);
    AbsentChar("repetidas", "su", 0);
  }

  /** Words that share a stem but neither holds the other are not reported. */
  lemma ContainedNotReported(no: seq<string>)
    requires no == ["la", "la", "repetidos", "x", "el", "que", "repetides"]
    ensures ContainedFindings("repetidas", no, 5) == []
  {
    var w := Window(no, 5);
    assert w == ["repetidos", "x", "el", "que"];
    AbsentChar("repetidos", "repetidas", 7);
    AbsentChar("repetidas", "repetidos", 7);
    AbsentChar("x", "repetidas", 0);
    AbsentChar("repetidas", "x", 0);
    AbsentChar("el", "repetidas", 1);
    AbsentChar("repetidas", "el", 0);
    AbsentChar("que", "repetidas", 0);
    AbsentChar("repetidas", "que", 0);
    assert !ContainedCandidate("repetidas", "repetidos");
    assert !ContainedCandidate("repetidas", "x");
    assert !ContainedCandidate("repetidas", "el");
    assert !ContainedCandidate("repetidas", "que");
    ContainedScan4("repetidas", "repetidos", "x", "el", "que");
  }

  /**
   A common word inside the new one is ignored; the membership of "la" in the
   common-word table is taken as given, as above.
   */
  lemma ContainedCommonIgnored(yes: seq<string>)
    requires yes == ["la", "la", "la", "repetida", "su", "su", "su"]
    requires "la" in COMMON_WORDS
    ensures ContainedFindings("bla", yes, 5) == []
  {
    var w := Window(yes, 5);
    assert w == ["la", "repetida", "su", "su"];
    AbsentChar("repetida", "bla", 0);
    AbsentChar("bla", "repetida", 0);
    AbsentChar("su", "bla", 0);
    AbsentChar("bla", "su", 0);
    assert !ContainedCandidate("bla", "la");
    assert !ContainedCandidate("bla", "repetida");
    assert !ContainedCandidate("bla", "su");
    ContainedScan4("bla", "la", "repetida", "su", "su");
  }

  /** A pedantic dialogue verb is reported, a plain one is not. */
  lemma SaywordsCases()
    ensures CheckSaywords("rebuznó") == [PedanticSay("rebuznó")]
    ensures CheckSaywords("dijo") == []
  {
  }

  /** "sacudía la cabeza" is reported on "cabeza". */
  lemma ExpressionReported(yes: seq<string>)
    requires yes == ["el", "veloz", "murcielago", "sacudia", "la", "cabeza"]
    ensures ExpressionFindings("cabeza", yes) == [MisusedExpression("cabeza", ["cabeza", "la", "sacud*"])]
  {
    var e := USUALLY_MISUSED_EXPRESSIONS[0];
    AnchorsValue();
    LiteralMatches("cabeza", "cabeza");
    LiteralMatches("la", "la");
    PrefixStarMatches("sacudia", "sacud");
    assert "sacud" + "*" == "sacud*";
    assert PrecedingMatch(e, yes);
    assert Fires(e, "cabeza", yes);
  }

  /** With another article before "cabeza" nothing fires. */
  lemma ExpressionNotReported(no: seq<string>)
    requires no == ["el", "veloz", "murcielago", "sacudia", "el", "cabeza"]
    ensures ExpressionFindings("cabeza", no) == []
  {
    forall j | 0 <= j < |USUALLY_MISUSED_EXPRESSIONS|
      ensures !Fires(USUALLY_MISUSED_EXPRESSIONS[j], "cabeza", no)
    {
      if j == 0 {
        var e := USUALLY_MISUSED_EXPRESSIONS[0];
        LiteralMatches("el", "la");
        assert no[|no| - 1 - 1] == "el" && e[1] == "la";
        assert !Matches(no[|no| - 1 - 1], e[1]);
        assert !PrecedingMatch(e, no);
      } else {
        OnlyHeadAnchor(j);
      }
    }
  }

  /** "cabeza" matches the anchor of the first expression only. */
  lemma OnlyHeadAnchor(j: nat)
    requires 0 < j < |USUALLY_MISUSED_EXPRESSIONS|
    ensures !Matches("cabeza", USUALLY_MISUSED_EXPRESSIONS[j][0])
  {
    var anchor := USUALLY_MISUSED_EXPRESSIONS[j][0];
    if '*' in anchor {
      assert anchor == "sentad" + "*";
      PrefixStarMatches("cabeza", "sentad");
    } else {
      LiteralMatches("cabeza", anchor);
    }
  }
}
