/**
 The multi-word expression check. An expression is stored last word first;
 it fires on the current word when its first element matches that word and
 each further element matches the word that many places back in the
 history (the current word is the last entry of the history). Only words in
 the anchor set are considered at all, and the first expression of the
 table that fires is the one reported.
 */
module Expressions {
  import opened Strings
  import opened Glob
  import opened Tables
  import opened Findings
  import opened Wrappers

  /** Element `k` of `exp` (for `k >= 1`) matches the word `k` places before the last one. */
  predicate PrecedingMatch(exp: seq<string>, words: seq<string>)
    requires |exp| <= |words|
  {
    forall k :: 1 <= k < |exp| ==> Matches(words[|words| - 1 - k], exp[k])
  }

  /** `exp` fires on `word` with the history `words`. */
  predicate Fires(exp: seq<string>, word: string, words: seq<string>)
  {
    1 <= |exp| <= |words| && Matches(word, exp[0]) && PrecedingMatch(exp, words)
  }

  /** The finding of the first expression from position `i` on that fires, if any. */
  function FirstFiring(exps: seq<seq<string>>, i: nat, word: string, words: seq<string>): (r: seq<Finding>)
    requires i <= |exps|
    ensures r == [] <==> forall j :: i <= j < |exps| ==> !Fires(exps[j], word, words)
    ensures r != [] ==>
      exists j :: i <= j < |exps| && Fires(exps[j], word, words)
        && (forall l :: i <= l < j ==> !Fires(exps[l], word, words))
        && r == [MisusedExpression(word, exps[j])]
    decreases |exps| - i
  {
    if i == |exps| then []
    else if Fires(exps[i], word, words) then [MisusedExpression(word, exps[i])]
    else FirstFiring(exps, i + 1, word, words)
  }

  /** What `check_expressions` returns, with the length guard corrected (see `CheckExpressionsAsWritten`). */
  function ExpressionFindings(word: string, words: seq<string>): (r: seq<Finding>)
    ensures word !in EXPRESSION_ANCHORS ==> r == []
    ensures r != [] <==>
      word in EXPRESSION_ANCHORS
      && exists j :: 0 <= j < |USUALLY_MISUSED_EXPRESSIONS| && Fires(USUALLY_MISUSED_EXPRESSIONS[j], word, words)
    ensures r != [] ==>
      exists j :: 0 <= j < |USUALLY_MISUSED_EXPRESSIONS| && Fires(USUALLY_MISUSED_EXPRESSIONS[j], word, words)
        && (forall l :: 0 <= l < j ==> !Fires(USUALLY_MISUSED_EXPRESSIONS[l], word, words))
        && r == [MisusedExpression(word, USUALLY_MISUSED_EXPRESSIONS[j])]
  {
    if word !in EXPRESSION_ANCHORS then [] else FirstFiring(USUALLY_MISUSED_EXPRESSIONS, 0, word, words)
  }

  /** `check_expressions`, with the guard skipping expressions longer than the history. */
  method CheckExpressions(word: string, words: seq<string>) returns (r: seq<Finding>)
    ensures r == ExpressionFindings(word, words)
  {
    if word !in EXPRESSION_ANCHORS {
      return [];
    }
    ExpressionsNonEmpty();
    r := ScanExpressions(USUALLY_MISUSED_EXPRESSIONS, word, words);
  }

  /** The loop of `check_expressions` over a table of expressions. */
  method ScanExpressions(exps: seq<seq<string>>, word: string, words: seq<string>) returns (r: seq<Finding>)
    requires forall i :: 0 <= i < |exps| ==> exps[i] != []
    ensures r == FirstFiring(exps, 0, word, words)
  {
    for i := 0 to |exps|
      invariant FirstFiring(exps, 0, word, words) == FirstFiring(exps, i, word, words)
    {
      var exp := exps[i];
      if |exp| > |words| || !Matches(word, exp[0]) {
        continue;
      }
      // the anchor matched: walk back over the history
      var prevcount := 2;
      var complete := true;
      while prevcount <= |exp|
        invariant 2 <= prevcount <= |exp| + 1
        invariant forall k :: 1 <= k < prevcount - 1 ==> Matches(words[|words| - 1 - k], exp[k])
      {
        if !Matches(words[|words| - prevcount], exp[prevcount - 1]) {
          complete := false;
          break;
        }
        prevcount := prevcount + 1;
      }
      if complete {
        return [MisusedExpression(word, exp)];
      }
    }
    return [];
  }

  // ----- the guard as written -------------------------------------------------

  /**
   The inner loop as written, from `prevcount` on: `Ok(true)` when every
   remaining element matched, `Ok(false)` at the first mismatch, and
   `IndexError` when `words[-prevcount]` runs off the front of the history.
   */
  function MatchBackAsWritten(exp: seq<string>, words: seq<string>, prevcount: nat): Result<bool>
    requires 2 <= prevcount <= |exp| + 1
    decreases |exp| + 1 - prevcount
  {
    if prevcount > |exp| then Ok(true)
    else if prevcount > |words| then IndexError
    else if !Matches(words[|words| - prevcount], exp[prevcount - 1]) then Ok(false)
    else MatchBackAsWritten(exp, words, prevcount + 1)
  }

  /** The outer loop as written, from expression `i` on. */
  function ScanAsWritten(exps: seq<seq<string>>, i: nat, word: string, words: seq<string>): Result<seq<Finding>>
    requires i <= |exps|
    decreases |exps| - i
  {
    if i == |exps| then Ok([])
    else
      var exp := exps[i];
      if exp == [] then IndexError  // `exp[0]` of an empty expression
      else if |exp| > |words| + 1 || !Matches(word, exp[0]) then ScanAsWritten(exps, i + 1, word, words)
      else
        match MatchBackAsWritten(exp, words, 2)
        case IndexError => IndexError
        case Ok(complete) =>
          if complete then Ok([MisusedExpression(word, exp)]) else ScanAsWritten(exps, i + 1, word, words)
  }

  /** `check_expressions` exactly as written, guard `len(exp) > len(words) + 1` included. */
  function CheckExpressionsAsWritten(word: string, words: seq<string>): Result<seq<Finding>>
  {
    if word !in EXPRESSION_ANCHORS then Ok([]) else ScanAsWritten(USUALLY_MISUSED_EXPRESSIONS, 0, word, words)
  }

  /** Within the history, the inner loop computes `PrecedingMatch` from `prevcount` on. */
  lemma {:induction false} MatchBackInRange(exp: seq<string>, words: seq<string>, prevcount: nat)
    requires 2 <= prevcount <= |exp| + 1 && |exp| <= |words|
    ensures MatchBackAsWritten(exp, words, prevcount)
      == Ok(forall k :: prevcount - 1 <= k < |exp| ==> Matches(words[|words| - 1 - k], exp[k]))
    decreases |exp| + 1 - prevcount
  {
    if prevcount <= |exp| {
      MatchBackInRange(exp, words, prevcount + 1);
    }
  }

  /** An expression one word longer than the history never completes: it mismatches or raises. */
  lemma {:induction false} MatchBackTooLong(exp: seq<string>, words: seq<string>, prevcount: nat)
    requires 2 <= prevcount <= |exp| && |exp| > |words|
    ensures MatchBackAsWritten(exp, words, prevcount) != Ok(true)
    decreases |exp| - prevcount
  {
    if prevcount <= |words| && Matches(words[|words| - prevcount], exp[prevcount - 1]) {
      MatchBackTooLong(exp, words, prevcount + 1);
    }
  }

  /** Whenever the code as written returns, it returns what the corrected check does. */
  lemma {:induction false} ScanAgrees(exps: seq<seq<string>>, i: nat, word: string, words: seq<string>)
    requires i <= |exps|
    requires forall j :: i <= j < |exps| ==> |exps[j]| >= 2
    ensures ScanAsWritten(exps, i, word, words).Ok? ==>
      ScanAsWritten(exps, i, word, words).value == FirstFiring(exps, i, word, words)
    ensures ScanAsWritten(exps, i, word, words).IndexError? ==>
      exists j :: i <= j < |exps| && |exps[j]| == |words| + 1
    decreases |exps| - i
  {
    if i < |exps| {
      var exp := exps[i];
      ScanAgrees(exps, i + 1, word, words);
      if |exp| <= |words| + 1 && Matches(word, exp[0]) {
        if |exp| <= |words| {
          MatchBackInRange(exp, words, 2);
        } else {
          MatchBackTooLong(exp, words, 2);
          assert !Fires(exp, word, words);
          match MatchBackAsWritten(exp, words, 2)
          case IndexError =>
          case Ok(complete) =>
            assert !complete;
            assert ScanAsWritten(exps, i, word, words) == ScanAsWritten(exps, i + 1, word, words);
        }
      }
    }
  }

  /** The guard as written lets through an expression one word longer than the history. */
  lemma AsWrittenRaises()
    ensures CheckExpressionsAsWritten("cabeza", ["la", "cabeza"]) == IndexError
  {
    AnchorsValue();
    LiteralMatches("cabeza", "cabeza");
    LiteralMatches("la", "la");
  }

  /** Apart from that error, the code as written and the corrected check agree. */
  lemma AsWrittenAgrees(word: string, words: seq<string>)
    ensures CheckExpressionsAsWritten(word, words).Ok? ==>
      CheckExpressionsAsWritten(word, words).value == ExpressionFindings(word, words)
    ensures CheckExpressionsAsWritten(word, words).IndexError? ==> 1 <= |words| <= 2
  {
    ScanAgrees(USUALLY_MISUSED_EXPRESSIONS, 0, word, words);
    ExpressionsNonEmpty();
  }

  // ----- properties of the table ----------------------------------------------

  /** The message of an expression finding lists the expression in reading order. */
  lemma MessageInReadingOrder(word: string, i: nat)
    requires i < |USUALLY_MISUSED_EXPRESSIONS|
    ensures var f := MisusedExpression(word, USUALLY_MISUSED_EXPRESSIONS[i]);
      Message(f) == Tag(f) + Join(AUTHORED_EXPRESSIONS[i], " ")
  {
    ExpressionsReversed();
    ReverseReverse(AUTHORED_EXPRESSIONS[i]);
  }

  /**
   The anchor test is literal set membership, so the pattern anchor "sentad*"
   only admits the word "sentad*" itself: for a real word, none of the three
   expressions ending in "sentad*" is ever reported.
   */
  lemma SeatedNeverReported(word: string, words: seq<string>, j: nat)
    requires '*' !in word
    requires j < |USUALLY_MISUSED_EXPRESSIONS| && USUALLY_MISUSED_EXPRESSIONS[j][0] == "sentad*"
    ensures MisusedExpression(word, USUALLY_MISUSED_EXPRESSIONS[j]) !in ExpressionFindings(word, words)
  {
    var f := MisusedExpression(word, USUALLY_MISUSED_EXPRESSIONS[j]);
    if f in ExpressionFindings(word, words) {
      ReportedFires(word, words, f);
      assert "sentad*" == "sentad" + "*";
      PrefixStarMatches(word, "sentad");
      LiteralAnchors(word);
    }
  }

  /** A reported expression fires on an anchor word. */
  lemma ReportedFires(word: string, words: seq<string>, f: Finding)
    requires f in ExpressionFindings(word, words)
    ensures word in EXPRESSION_ANCHORS && f.MisusedExpression? && Fires(f.expression, word, words)
  {
  }

  /** The anchors a real word can equal: none of them starts with "sentad". */
  lemma LiteralAnchors(word: string)
    requires '*' !in word && word in EXPRESSION_ANCHORS
    ensures word in {"cabeza", "frente", "polémica", "pie"}
    ensures word[0] != 's'
  {
    AnchorsValue();
    assert "sentad*"[6] == '*';
  }

  /** "quedó sentado" fits its expression ... */
  lemma SeatedFits(words: seq<string>)
    requires |words| >= 2 && words[|words| - 2] == "quedó" && words[|words| - 1] == "sentado"
    ensures Fires(USUALLY_MISUSED_EXPRESSIONS[4], "sentado", words)
  {
    var e := USUALLY_MISUSED_EXPRESSIONS[4];
    PrefixStarMatches("sentado", "sentad");
    PrefixStarMatches("quedó", "qued");
    assert PrecedingMatch(e, words);
  }

  /** ... but is not reported, because "sentado" is no anchor. */
  lemma SeatedBlockedByAnchor(words: seq<string>)
    ensures ExpressionFindings("sentado", words) == []
  {
    AnchorsValue();
    assert "sentado" !in EXPRESSION_ANCHORS;
  }
}
