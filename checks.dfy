/**
 The single-word and windowed checks. Each takes the current word and, where
 it needs one, the history `words` (the current word already appended last)
 and returns the list of findings it raises. Window sizes are parameters; the
 values the linter runs with are the constants below.
 */
module Checks {
  import opened Strings
  import opened Glob
  import opened Tables
  import opened Findings
  import opened Windows

  const MENTE_OLDWORDS: nat := 100
  const REPETITION_OLDWORDS: nat := 50
  const CONTAINED_OLDWORDS: nat := 15

  // ----- overused vocabulary ------------------------------------------------

  /** `check_overused`: any pattern of the overused tables matches the word. */
  function CheckOverused(word: string): (r: seq<Finding>)
    ensures r == [] || r == [OverUsed(word)]
    ensures r != [] <==> exists p :: p in OVERUSED_ALL && Matches(word, p)
  {
    // which matching pattern is tried first does not matter: each gives the same finding
    if exists p :: p in OVERUSED_ALL && Matches(word, p) then [OverUsed(word)] else []
  }

  const OVERUSED_EXACT: set<string> := {"usar", "usó", "usamos", "usáb"}
  const OVERUSED_PREFIXES: set<string> :=
    {"sonido", "ruido", "cosa", "provoc", "usab", "usas", "usar", "usad", "emplea"}

  /** The exact words are patterns of the overused tables, free of wildcards. */
  lemma OverusedExactListed()
    ensures forall e :: e in OVERUSED_EXACT ==> e in OVERUSED_ALL && '*' !in e
  {
  }

  /** Each prefix followed by `*` is a pattern of the overused tables. */
  lemma OverusedPrefixesListed()
    ensures forall s :: s in OVERUSED_PREFIXES ==> s + "*" in OVERUSED_ALL && '*' !in s
  {
    assert "sonido" + "*" == "sonido*";
    assert "ruido" + "*" == "ruido*";
    assert "cosa" + "*" == "cosa*";
    assert "provoc" + "*" == "provoc*";
    assert "usab" + "*" == "usab*";
    assert "usas" + "*" == "usas*";
    assert "usar" + "*" == "usar*";
    assert "usad" + "*" == "usad*";
    assert "emplea" + "*" == "emplea*";
  }

  /** Every overused pattern is one of the exact words, or one of the prefixes followed by `*`. */
  lemma OverusedShapes()
    ensures forall p :: p in OVERUSED_ALL ==>
      p in OVERUSED_EXACT || exists s :: s in OVERUSED_PREFIXES && p == s + "*"
  {
    OverusedPrefixesListed();
    forall p | p in OVERUSED_ALL && p !in OVERUSED_EXACT
      ensures exists s :: s in OVERUSED_PREFIXES && p == s + "*"
    {
      if p == "sonido*" {
        assert p == "sonido" + "*";
      } else if p == "ruido*" {
        assert p == "ruido" + "*";
      } else if p == "cosa*" {
        assert p == "cosa" + "*";
      } else if p == "provoc*" {
        assert p == "provoc" + "*";
      } else if p == "usab*" {
        assert p == "usab" + "*";
      } else if p == "usas*" {
        assert p == "usas" + "*";
      } else if p == "usar*" {
        assert p == "usar" + "*";
      } else if p == "usad*" {
        assert p == "usad" + "*";
      } else {
        assert p == "emplea" + "*";
      }
    }
  }

  /** The overused words are four exact words and every word with one of nine prefixes. */
  lemma OverusedIffListed(word: string)
    ensures CheckOverused(word) != [] <==>
      word in OVERUSED_EXACT || exists s :: s in OVERUSED_PREFIXES && s <= word
  {
    OverusedShapes();
    OverusedExactListed();
    OverusedPrefixesListed();
    if CheckOverused(word) != [] {
      var p :| p in OVERUSED_ALL && Matches(word, p);
      if p in OVERUSED_EXACT {
        LiteralMatches(word, p);
      } else {
        var s :| s in OVERUSED_PREFIXES && p == s + "*";
        PrefixStarMatches(word, s);
      }
    }
    if word in OVERUSED_EXACT {
      LiteralMatches(word, word);
    }
    if exists s :: s in OVERUSED_PREFIXES && s <= word {
      var s :| s in OVERUSED_PREFIXES && s <= word;
      PrefixStarMatches(word, s);
    }
  }

  // ----- windowed checks -----------------------------------------------------

  /** The findings that carry a distance. */
  predicate HasDistance(f: Finding)
  {
    f.Mente? || f.Repetition? || f.Contained?
  }

  predicate Decreasing(r: seq<Finding>)
  {
    forall j, l :: 0 <= j < l < |r| ==> HasDistance(r[j]) && HasDistance(r[l]) && r[j].idx > r[l].idx
  }

  predicate Increasing(r: seq<Finding>)
  {
    forall j, l :: 0 <= j < l < |r| ==> HasDistance(r[j]) && HasDistance(r[l]) && r[j].idx < r[l].idx
  }

  /** A finding nearer than all earlier ones keeps the distances decreasing. */
  lemma DecreasingSnoc(r: seq<Finding>, f: Finding)
    requires Decreasing(r) && HasDistance(f)
    requires forall g :: g in r ==> HasDistance(g) && g.idx > f.idx
    ensures Decreasing(r + [f])
  {
    var r' := r + [f];
    forall j, l | 0 <= j < l < |r'| ensures HasDistance(r'[j]) && HasDistance(r'[l]) && r'[j].idx > r'[l].idx {
      assert r'[j] == r[j] && r[j] in r;
      if l < |r| {
        assert r'[l] == r[l];
      }
    }
  }

  /** A finding further on than all earlier ones keeps the positions increasing. */
  lemma IncreasingSnoc(r: seq<Finding>, f: Finding)
    requires Increasing(r) && HasDistance(f)
    requires forall g :: g in r ==> HasDistance(g) && g.idx < f.idx
    ensures Increasing(r + [f])
  {
    var r' := r + [f];
    forall j, l | 0 <= j < l < |r'| ensures HasDistance(r'[j]) && HasDistance(r'[l]) && r'[j].idx < r'[l].idx {
      assert r'[j] == r[j] && r[j] in r;
      if l < |r| {
        assert r'[l] == r[l];
      }
    }
  }

  // ----- adverbs ending in -mente ---------------------------------------------

  /** An adverb for the check: ends with "mente" and is not "mente" itself. */
  predicate IsAdverb(w: string)
  {
    w != "mente" && EndsWith(w, "mente")
  }

  /** `check_mente`'s result: nothing unless the word is an adverb, else a scan of the window. */
  function MenteFindings(word: string, words: seq<string>, oldwords: nat): seq<Finding>
  {
    if IsAdverb(word) then MenteScan(word, Window(words, oldwords), oldwords) else []
  }

  /** The findings for the window `w`, in window order; position `idx` is reported as `oldwords - idx`. */
  function MenteScan(word: string, w: seq<string>, oldwords: nat): seq<Finding>
  {
    if w == [] then []
    else
      var n := |w| - 1;
      MenteScan(word, w[..n], oldwords)
      + (if IsAdverb(w[n]) then [Mente(word, w[n], oldwords - n)] else [])
  }

  /** `f` reports an adverb of the window `w`, found `oldwords - idx` back. */
  predicate MenteReport(word: string, w: seq<string>, oldwords: nat, f: Finding)
  {
    && f.Mente? && f.word == word
    && 0 <= oldwords - f.idx < |w| && w[oldwords - f.idx] == f.oldword
    && IsAdverb(f.oldword)
  }

  lemma {:induction false} MenteScanSound(word: string, w: seq<string>, oldwords: nat)
    ensures forall f :: f in MenteScan(word, w, oldwords) ==> MenteReport(word, w, oldwords, f)
  {
    if w != [] {
      var n := |w| - 1;
      MenteScanSound(word, w[..n], oldwords);
      forall f | f in MenteScan(word, w[..n], oldwords) ensures MenteReport(word, w, oldwords, f) {
        assert w[oldwords - f.idx] == w[..n][oldwords - f.idx];
      }
    }
  }

  /** Every adverb of the window is reported. */
  lemma {:induction false} MenteScanComplete(word: string, w: seq<string>, oldwords: nat)
    ensures forall idx :: 0 <= idx < |w| && IsAdverb(w[idx]) ==>
      Mente(word, w[idx], oldwords - idx) in MenteScan(word, w, oldwords)
  {
    if w != [] {
      var n := |w| - 1;
      MenteScanComplete(word, w[..n], oldwords);
      assert forall idx :: 0 <= idx < n ==> w[..n][idx] == w[idx];
    }
  }

  /** Oldest first: the reported distances strictly decrease. */
  lemma {:induction false} MenteScanOrdered(word: string, w: seq<string>, oldwords: nat)
    ensures Decreasing(MenteScan(word, w, oldwords))
  {
    if w != [] {
      var n := |w| - 1;
      var r0, r := MenteScan(word, w[..n], oldwords), MenteScan(word, w, oldwords);
      var extra := if IsAdverb(w[n]) then [Mente(word, w[n], oldwords - n)] else [];
      assert r == r0 + extra;
      MenteScanOrdered(word, w[..n], oldwords);
      MenteScanSound(word, w[..n], oldwords);
      if extra != [] {
        DecreasingSnoc(r0, extra[0]);
      } else {
        assert r == r0;
      }
    }
  }

  /** `check_mente` */
  method CheckMente(word: string, words: seq<string>, oldwords: nat) returns (findings: seq<Finding>)
    ensures findings == MenteFindings(word, words, oldwords)
  {
    findings := [];
    if word != "mente" && EndsWith(word, "mente") {
      var window := Window(words, oldwords);
      for idx := 0 to |window|
        invariant findings == MenteScan(word, window[..idx], oldwords)
      {
        assert window[..idx + 1][..idx] == window[..idx];
        var oldword := window[idx];
        if oldword != "mente" && EndsWith(oldword, "mente") {
          findings := findings + [Mente(word, oldword, oldwords - idx)];
        }
      }
      assert window[..|window|] == window;
    }
  }

  // ----- exact repetition -----------------------------------------------------

  /** `check_repetition`'s result: a scan of the window for the word itself. */
  function RepetitionFindings(word: string, words: seq<string>, oldwords: nat): seq<Finding>
  {
    RepetitionScan(word, Window(words, oldwords), oldwords)
  }

  /** The findings for the window `w`, in window order; position `idx` is reported as `oldwords - idx`. */
  function RepetitionScan(word: string, w: seq<string>, oldwords: nat): seq<Finding>
  {
    if w == [] then []
    else
      var n := |w| - 1;
      RepetitionScan(word, w[..n], oldwords)
      + (if w[n] == word then [Repetition(word, oldwords - n)] else [])
  }

  /** `f` reports an occurrence of the word, found `oldwords - idx` back. */
  predicate RepetitionReport(word: string, w: seq<string>, oldwords: nat, f: Finding)
  {
    && f.Repetition? && f.word == word
    && 0 <= oldwords - f.idx < |w| && w[oldwords - f.idx] == word
  }

  lemma {:induction false} RepetitionScanSound(word: string, w: seq<string>, oldwords: nat)
    ensures forall f :: f in RepetitionScan(word, w, oldwords) ==> RepetitionReport(word, w, oldwords, f)
  {
    if w != [] {
      var n := |w| - 1;
      RepetitionScanSound(word, w[..n], oldwords);
      forall f | f in RepetitionScan(word, w[..n], oldwords) ensures RepetitionReport(word, w, oldwords, f) {
        assert w[oldwords - f.idx] == w[..n][oldwords - f.idx];
      }
    }
  }

  /** Every occurrence of the word in the window is reported. */
  lemma {:induction false} RepetitionScanComplete(word: string, w: seq<string>, oldwords: nat)
    ensures forall idx :: 0 <= idx < |w| && w[idx] == word ==>
      Repetition(word, oldwords - idx) in RepetitionScan(word, w, oldwords)
  {
    if w != [] {
      var n := |w| - 1;
      RepetitionScanComplete(word, w[..n], oldwords);
      assert forall idx :: 0 <= idx < n ==> w[..n][idx] == w[idx];
    }
  }

  /** There are exactly as many findings as occurrences of the word in the window. */
  lemma {:induction false} RepetitionScanCount(word: string, w: seq<string>, oldwords: nat)
    ensures |RepetitionScan(word, w, oldwords)| == multiset(w)[word]
  {
    if w != [] {
      var n := |w| - 1;
      RepetitionScanCount(word, w[..n], oldwords);
      assert w == w[..n] + [w[n]];
      assert multiset(w) == multiset(w[..n]) + multiset{w[n]};
    }
  }

  /** Oldest first: the reported distances strictly decrease. */
  lemma {:induction false} RepetitionScanOrdered(word: string, w: seq<string>, oldwords: nat)
    ensures Decreasing(RepetitionScan(word, w, oldwords))
  {
    if w != [] {
      var n := |w| - 1;
      var r0, r := RepetitionScan(word, w[..n], oldwords), RepetitionScan(word, w, oldwords);
      var extra := if w[n] == word then [Repetition(word, oldwords - n)] else [];
      assert r == r0 + extra;
      RepetitionScanOrdered(word, w[..n], oldwords);
      RepetitionScanSound(word, w[..n], oldwords);
      if extra != [] {
        DecreasingSnoc(r0, extra[0]);
      } else {
        assert r == r0;
      }
    }
  }

  /** `check_repetition` */
  method CheckRepetition(word: string, words: seq<string>, oldwords: nat) returns (findings: seq<Finding>)
    ensures findings == RepetitionFindings(word, words, oldwords)
  {
    findings := [];
    var window := Window(words, oldwords);
    for idx := 0 to |window|
      invariant findings == RepetitionScan(word, window[..idx], oldwords)
    {
      assert window[..idx + 1][..idx] == window[..idx];
      var oldword := window[idx];
      if oldword == word {
        findings := findings + [Repetition(word, oldwords - idx)];
      }
    }
    assert window[..|window|] == window;
  }

  // ----- substring containment ------------------------------------------------

  /** A window word the containment check reports against `word`. */
  predicate ContainedCandidate(word: string, oldword: string)
  {
    && oldword !in COMMON_WORDS
    && oldword != ""
    && !EndsWith(oldword, "mente")
    && oldword != word
    && (IsSubstring(word, oldword) || IsSubstring(oldword, word))
  }

  /** `check_contained`'s result: a scan of the window for containing or contained words. */
  function ContainedFindings(word: string, words: seq<string>, oldwords: nat): seq<Finding>
  {
    ContainedScan(word, Window(words, oldwords))
  }

  /** The findings for the window `w`, in window order; position `idx` is reported as is. */
  function ContainedScan(word: string, w: seq<string>): seq<Finding>
  {
    if w == [] then []
    else
      var n := |w| - 1;
      ContainedScan(word, w[..n])
      + (if ContainedCandidate(word, w[n]) then [Contained(word, w[n], n)] else [])
  }

  /** `f` reports a candidate word sitting at window position `idx`. */
  predicate ContainedReport(word: string, w: seq<string>, f: Finding)
  {
    && f.Contained? && f.word == word
    && 0 <= f.idx < |w| && w[f.idx] == f.oldword
    && ContainedCandidate(word, f.oldword)
  }

  lemma {:induction false} ContainedScanSound(word: string, w: seq<string>)
    ensures forall f :: f in ContainedScan(word, w) ==> ContainedReport(word, w, f)
  {
    if w != [] {
      var n := |w| - 1;
      ContainedScanSound(word, w[..n]);
      forall f | f in ContainedScan(word, w[..n]) ensures ContainedReport(word, w, f) {
        assert w[f.idx] == w[..n][f.idx];
      }
    }
  }

  /** Every candidate word of the window is reported. */
  lemma {:induction false} ContainedScanComplete(word: string, w: seq<string>)
    ensures forall idx :: 0 <= idx < |w| && ContainedCandidate(word, w[idx]) ==>
      Contained(word, w[idx], idx) in ContainedScan(word, w)
  {
    if w != [] {
      var n := |w| - 1;
      ContainedScanComplete(word, w[..n]);
      forall idx | 0 <= idx < |w| && ContainedCandidate(word, w[idx])
        ensures Contained(word, w[idx], idx) in ContainedScan(word, w)
      {
        if idx < n {
          assert w[..n][idx] == w[idx];
        }
      }
    }
  }

  /** The reported positions strictly increase. */
  lemma {:induction false} ContainedScanOrdered(word: string, w: seq<string>)
    ensures Increasing(ContainedScan(word, w))
  {
    if w != [] {
      var n := |w| - 1;
      var r0, r := ContainedScan(word, w[..n]), ContainedScan(word, w);
      var extra := if ContainedCandidate(word, w[n]) then [Contained(word, w[n], n)] else [];
      assert r == r0 + extra;
      ContainedScanOrdered(word, w[..n]);
      ContainedScanSound(word, w[..n]);
      if extra != [] {
        IncreasingSnoc(r0, extra[0]);
      } else {
        assert r == r0;
      }
    }
  }

  /** `check_contained` */
  method CheckContained(word: string, words: seq<string>, oldwords: nat) returns (findings: seq<Finding>)
    ensures findings == ContainedFindings(word, words, oldwords)
  {
    findings := [];
    var window := Window(words, oldwords);
    for idx := 0 to |window|
      invariant findings == ContainedScan(word, window[..idx])
    {
      assert window[..idx + 1][..idx] == window[..idx];
      var oldword := window[idx];
      if oldword in COMMON_WORDS {
        continue;
      }
      if oldword != "" && !EndsWith(oldword, "mente") && oldword != word {
        if IsSubstring(word, oldword) || IsSubstring(oldword, word) {
          findings := findings + [Contained(word, oldword, idx)];
        }
      }
    }
    assert window[..|window|] == window;
  }

  // ----- dialogue verbs -------------------------------------------------------

  /** `check_saywords`: a finding per dialogue-verb table holding the word. */
  function CheckSaywords(word: string): (r: seq<Finding>)
    ensures PedanticSay(word) in r <==> word in USUALLY_PEDANTIC_SAYWORDS
    ensures MisusedSay(word) in r <==> word in USUALLY_MISUSED_SAYWORDS
    ensures forall f :: f in r ==> f == PedanticSay(word) || f == MisusedSay(word)
    ensures |r| <= 1
  {
    SaywordTablesDisjoint();
    (if word in USUALLY_PEDANTIC_SAYWORDS then [PedanticSay(word)] else [])
    + (if word in USUALLY_MISUSED_SAYWORDS then [MisusedSay(word)] else [])
  }

  // ----- misused verb roots ---------------------------------------------------

  /** The first root of `roots` that prefixes the word decides; later roots are never consulted. */
  function VerbFindings(roots: seq<VerbRoot>, word: string): (r: seq<Finding>)
    ensures (forall i :: 0 <= i < |roots| ==> !(roots[i].root <= word)) ==> r == []
    ensures forall i :: 0 <= i < |roots| && roots[i].root <= word
                       && (forall j :: 0 <= j < i ==> !(roots[j].root <= word))
                       ==> r == if word in roots[i].allowed then [] else [MisusedVerb(word)]
  {
    if roots == [] then []
    else if roots[0].root <= word then
      if word in roots[0].allowed then [] else [MisusedVerb(word)]
    else
      VerbFindings(roots[1..], word)
  }

  /** `check_verbs` */
  function CheckVerbs(word: string): (r: seq<Finding>)
    ensures r == [] || r == [MisusedVerb(word)]
    ensures r != [] <==>
      exists i :: 0 <= i < |USUALLY_MISUSED_VERB_ROOTS| && USUALLY_MISUSED_VERB_ROOTS[i].root <= word
                  && word !in USUALLY_MISUSED_VERB_ROOTS[i].allowed
  {
    AtMostOneRoot(word);
    VerbFindings(USUALLY_MISUSED_VERB_ROOTS, word)
  }

  /** `a` and `b` have different letters at position `k`. */
  predicate DivergeAt(a: string, b: string, k: nat)
  {
    k < |a| && k < |b| && a[k] != b[k]
  }

  /** Any two roots of the table differ at some position both have. */
  lemma RootsDiverge(i: nat, j: nat)
    requires j < i < |USUALLY_MISUSED_VERB_ROOTS|
    ensures exists k: nat :: DivergeAt(USUALLY_MISUSED_VERB_ROOTS[j].root, USUALLY_MISUSED_VERB_ROOTS[i].root, k)
  {
    var a, b := USUALLY_MISUSED_VERB_ROOTS[j].root, USUALLY_MISUSED_VERB_ROOTS[i].root;
    if a[0] != b[0] {
      assert DivergeAt(a, b, 0);
    } else if a[1] != b[1] {
      assert DivergeAt(a, b, 1);
    } else if a[2] != b[2] {
      assert DivergeAt(a, b, 2);
    } else {
      assert DivergeAt(a, b, 4);
    }
  }

  /** No root of the table is a prefix of another, so at most one root prefixes a word. */
  lemma RootsExclusive(i: nat, j: nat, word: string)
    requires j < i < |USUALLY_MISUSED_VERB_ROOTS|
    requires USUALLY_MISUSED_VERB_ROOTS[i].root <= word
    ensures !(USUALLY_MISUSED_VERB_ROOTS[j].root <= word)
  {
    var a, b := USUALLY_MISUSED_VERB_ROOTS[j].root, USUALLY_MISUSED_VERB_ROOTS[i].root;
    RootsDiverge(i, j);
    var k: nat :| DivergeAt(a, b, k);
    assert b[k] == word[k];
  }

  /** Only one root of the table can prefix a given word. */
  lemma AtMostOneRoot(word: string)
    ensures var roots := USUALLY_MISUSED_VERB_ROOTS;
      forall i, j :: 0 <= j < i < |roots| && roots[i].root <= word ==> !(roots[j].root <= word)
  {
    forall i, j | 0 <= j < i < |USUALLY_MISUSED_VERB_ROOTS| && USUALLY_MISUSED_VERB_ROOTS[i].root <= word
      ensures !(USUALLY_MISUSED_VERB_ROOTS[j].root <= word)
    {
      RootsExclusive(i, j, word);
    }
  }
}
