/**
 The findings the checks produce, one variant per kind of finding, and the
 message each kind renders.
 */
module Findings {
  import opened Strings

  datatype Finding =
    | OverUsed(word: string)
    | Mente(word: string, oldword: string, idx: int)
    | Repetition(word: string, idx: int)
    | Contained(word: string, oldword: string, idx: int)
    | PedanticSay(word: string)
    | MisusedSay(word: string)
    | MisusedVerb(word: string)
      // `expression` is kept in matching form (last word first)
    | MisusedExpression(word: string, expression: seq<string>)

  /** The fixed text that opens each kind of message. */
  function Tag(f: Finding): string
  {
    match f
    case OverUsed(_) => "Palabras/verbos comodín: "
    case Mente(_, _, _) => "Repetición de palabra con sufijo mente (\""
    case Repetition(_, _) => "Repetición de palabra \""
    case Contained(_, _, _) => "Repetición de palabra contenida \""
    case PedanticSay(_) => "Verbo generalmente pedante en diálogos: "
    case MisusedSay(_) => "Verbo generalmente mal usado en diálogos: "
    case MisusedVerb(_) => "Verbo generalmente mal usado: "
    case MisusedExpression(_, _) => "Expression generalmente mal usada: "
  }

  /** `get_message`: the human-readable text of a finding. */
  function Message(f: Finding): string
  {
    var t := Tag(f);
    match f
    case OverUsed(w) => t + w
    case Mente(w, prior, idx) => t + w + "\") " + IntToDecimal(idx) + " palabras atrás: " + prior
    case Repetition(w, idx) => t + w + "\" " + IntToDecimal(idx) + " palabras atrás"
    case Contained(w, prior, idx) => t + w + "\" " + IntToDecimal(idx) + " palabras atrás: " + prior
    case PedanticSay(w) => t + w
    case MisusedSay(w) => t + w
    case MisusedVerb(w) => t + w
    case MisusedExpression(_, exp) => t + Join(Reverse(exp), " ")
  }

  /**
   Every message opens with its tag and names the word; distance messages give
   the distance in decimal, and those with an old word end with it; an
   expression message shows the expression in reading order.
   */
  lemma MessageShape(f: Finding)
    ensures var m := Message(f);
      && Tag(f) <= m
      && (!f.MisusedExpression? ==> IsSubstring(f.word, m))
      && (f.MisusedExpression? ==> m[|Tag(f)|..] == Join(Reverse(f.expression), " "))
      && ((f.Mente? || f.Repetition? || f.Contained?) ==> IsSubstring(IntToDecimal(f.idx), m))
      && ((f.Mente? || f.Contained?) ==> EndsWith(m, f.oldword))
  {
    var t := Tag(f);
    match f
    case OverUsed(w) => TagThenWord(t, w);
    case Mente(w, prior, idx) =>
      Layout(t, w, "\") ", IntToDecimal(idx), " palabras atrás: ", prior);
    case Repetition(w, idx) =>
      var d := IntToDecimal(idx);
      Layout(t, w, "\" ", d, " palabras atrás", "");
      assert t + w + "\" " + d + " palabras atrás" + "" == t + w + "\" " + d + " palabras atrás";
    case Contained(w, prior, idx) =>
      Layout(t, w, "\" ", IntToDecimal(idx), " palabras atrás: ", prior);
    case PedanticSay(w) => TagThenWord(t, w);
    case MisusedSay(w) => TagThenWord(t, w);
    case MisusedVerb(w) => TagThenWord(t, w);
    case MisusedExpression(_, exp) =>
  }

  lemma TagThenWord(tag: string, word: string)
    ensures tag <= tag + word && IsSubstring(word, tag + word)
  {
    InfixIsSubstring(tag, word, "");
    assert tag + word + "" == tag + word;
  }

  /** Where the tag, the word, the distance and the old word sit in a message. */
  lemma Layout(tag: string, word: string, quote: string, distance: string, middle: string, oldword: string)
    ensures var m := tag + word + quote + distance + middle + oldword;
      tag <= m && IsSubstring(word, m) && IsSubstring(distance, m) && EndsWith(m, oldword)
  {
    var m := tag + word + quote + distance + middle + oldword;
    assert m == tag + word + (quote + distance + middle + oldword);
    InfixIsSubstring(tag, word, quote + distance + middle + oldword);
    assert m == (tag + word + quote) + distance + (middle + oldword);
    InfixIsSubstring(tag + word + quote, distance, middle + oldword);
    SuffixEndsWith(tag + word + quote + distance + middle, oldword);
  }
}
