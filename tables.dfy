/**
 The fixed vocabulary of the checks: the common-word filter, the misused verb
 roots, the overused patterns, the two dialogue-verb sets and the misused
 multi-word expressions, together with the start-up code that turns the
 expressions into their matching form (each one reversed) and collects their
 anchors (the literal first element of each reversed expression).
 */
module Tables {
  import opened Strings

  /** Closed-class words that are never analysed. */
  const COMMON_WORDS: set<string> := {
    "el", "él", "lo", "la", "le", "los", "las", "que", "qué", "cual", "cuál",
    "cuales", "como", "cómo", "este", "éste", "esta", "ésta", "ese", "esa", "eso",
    "esos", "aquel", "aquello", "aquella", "y", "o", "ha", "han", "con", "sin",
    "desde", "ya", "aquellos", "aquellas", "se", "de", "un", "uno", "unos", "una",
    "unas", "con", "ante", "ya", "para", "sin", "mas", "más",
    "serían", "sería", "en", "por", "mi", "mis", "si", "sí", "no", "hasta", "su",
    "mi", "sus", "tus", "sobre", "del", "a", "e", "pero", "había", "habías", "habían",
    "habría", "habrías", "habrían", "ser", "al", "sido", "haya", "otra", "me", "te",
    "dijo", "dije", "preguntó", "pregunté", "ni", "les", "hecho",
    // forms of "ser"
    "sea", "sean", "soy", "eres", "es", "somos", "sois", "son", "era", "eras",
    "érais", "eran", "seré", "serás", "será", "seréis", "serán", "sido",
    "sería", "serías", "seríamos", "seríais", "serían", "fui", "fuiste", "fue",
    "fuimos", "fueron", "sé", "sed", "sean", "fuera",
    "fueras", "fuera", "fuese", "fueses", "fuesen", "siendo"
  }

  /** A verb root and the full words sharing it that are not verb forms. */
  datatype VerbRoot = VerbRoot(root: string, allowed: seq<string>)

  const USUALLY_MISUSED_VERB_ROOTS: seq<VerbRoot> := [
    VerbRoot("espet", ["espeto", "espetos"]),
    VerbRoot("mascull", []),
    VerbRoot("perl", ["perla", "perlas"]),
    VerbRoot("empalid", []),
    VerbRoot("tinti", []),
    VerbRoot("manten", ["mantenido", "mantenida", "mantenidos", "mantenidas"]),
    VerbRoot("mantuv", []),
    VerbRoot("tamboril", ["tamborilero", "tamborilera", "tamborileros", "tamborileras"])
  ]

  const OVERUSED_WORDS: set<string> := {
    "sonido*", "ruido*", "cosa*", "provoc*", "usar", "usó", "usamos",
    "usab*", "usáb", "usas*", "usar*", "usad*", "emplea*"
  }

  const OVERUSED_VERBS: set<string> := {
    "provoc*", "usar", "usó", "usamos", "usab*", "usáb", "usas*",
    "usar*", "usad*", "emplea*"
  }

  /** Every pattern the overused check tries. */
  const OVERUSED_ALL: set<string> := OVERUSED_WORDS + OVERUSED_VERBS

  const USUALLY_PEDANTIC_SAYWORDS: set<string> := {
    "rebuznó", "rugió", "rugí", "bramó", "bramé", "declaró", "declaré",
    "inquirió", "inquirí", "sostuvo", "sostuve", "refirió", "referí",
    "aseveró", "aseveré", "arguyó", "argüí"
  }

  const USUALLY_MISUSED_SAYWORDS: set<string> := {
    "comentó", "comenté", "interrogó", "interrogué", "amenazó", "amenacé",
    "conminó", "conminé", "exhortó", "exhorté", "aludió", "aludí"
  }

  /** The misused expressions as written, in reading order. */
  const AUTHORED_EXPRESSIONS: seq<seq<string>> := [
    ["sacud*", "la", "cabeza"],
    ["perlab*", "*", "frente"],
    ["provoc*", "*", "polémica"],
    ["qued*", "de", "pie"], ["qued*", "sentad*"],
    ["esta*", "de", "pie"], ["esta*", "sentad*"],
    ["encontr*", "de", "pie"], ["encontr*", "sentad*"]
  ]

  function ReverseAll(exps: seq<seq<string>>): (r: seq<seq<string>>)
    ensures |r| == |exps| && forall i :: 0 <= i < |exps| ==> r[i] == Reverse(exps[i])
  {
    seq(|exps|, i requires 0 <= i < |exps| => Reverse(exps[i]))
  }

  /** The expressions in matching form, last word first, as the start-up code leaves them. */
  const USUALLY_MISUSED_EXPRESSIONS: seq<seq<string>> := [
    ["cabeza", "la", "sacud*"],
    ["frente", "*", "perlab*"],
    ["polémica", "*", "provoc*"],
    ["pie", "de", "qued*"], ["sentad*", "qued*"],
    ["pie", "de", "esta*"], ["sentad*", "esta*"],
    ["pie", "de", "encontr*"], ["sentad*", "encontr*"]
  ]

  /** The first element of each (non-empty) expression. */
  function AnchorSet(exps: seq<seq<string>>): set<string>
  {
    set i | 0 <= i < |exps| && exps[i] != [] :: exps[i][0]
  }

  /** The words on which an expression can fire. */
  const EXPRESSION_ANCHORS: set<string> := AnchorSet(USUALLY_MISUSED_EXPRESSIONS)

  /** Start-up step one: every expression list is reversed in place. */
  method ReverseEach(exps: array<seq<string>>)
    modifies exps
    ensures exps[..] == ReverseAll(old(exps[..]))
  {
    var i := 0;
    while i < exps.Length
      invariant 0 <= i <= exps.Length
      invariant forall j :: 0 <= j < i ==> exps[j] == Reverse(old(exps[j]))
      invariant forall j :: i <= j < exps.Length ==> exps[j] == old(exps[j])
    {
      exps[i] := Reverse(exps[i]);
      i := i + 1;
    }
  }

  /** Start-up step two: the first element of every expression is collected. */
  method CollectAnchors(exps: seq<seq<string>>) returns (anchors: set<string>)
    requires forall i :: 0 <= i < |exps| ==> exps[i] != []
    ensures forall w :: w in anchors <==> exists i :: 0 <= i < |exps| && exps[i][0] == w
  {
    anchors := {};
    var i := 0;
    while i < |exps|
      invariant 0 <= i <= |exps|
      invariant forall w :: w in anchors <==> exists j :: 0 <= j < i && exps[j][0] == w
    {
      anchors := anchors + {exps[i][0]};
      i := i + 1;
    }
  }

  /** Running the start-up code on the authored table yields the tables the checks use. */
  method PrepareExpressions() returns (exps: seq<seq<string>>, anchors: set<string>)
    ensures exps == USUALLY_MISUSED_EXPRESSIONS && anchors == EXPRESSION_ANCHORS
  {
    var a := new seq<string>[|AUTHORED_EXPRESSIONS|](i requires 0 <= i < |AUTHORED_EXPRESSIONS| => AUTHORED_EXPRESSIONS[i]);
    assert a[..] == AUTHORED_EXPRESSIONS;
    ReverseEach(a);
    exps := a[..];
    ExpressionsReversed();
    ExpressionsNonEmpty();
    anchors := CollectAnchors(exps);
    assert anchors == EXPRESSION_ANCHORS;
  }

  /** Every stored expression has a first element. */
  lemma ExpressionsNonEmpty()
    ensures |USUALLY_MISUSED_EXPRESSIONS| == 9
    ensures forall i :: 0 <= i < |USUALLY_MISUSED_EXPRESSIONS| ==> 2 <= |USUALLY_MISUSED_EXPRESSIONS[i]| <= 3
  {
  }

  /** The stored expressions are the authored ones, each reversed. */
  lemma ExpressionsReversed()
    ensures USUALLY_MISUSED_EXPRESSIONS == ReverseAll(AUTHORED_EXPRESSIONS)
  {
    var a := AUTHORED_EXPRESSIONS;
    forall i | 0 <= i < 9
      ensures USUALLY_MISUSED_EXPRESSIONS[i] == Reverse(a[i])
      ensures |a[i]| == 3 ==> Reverse(a[i]) == [a[i][2], a[i][1], a[i][0]]
      ensures |a[i]| == 2 ==> Reverse(a[i]) == [a[i][1], a[i][0]]
    {
      var r := Reverse(a[i]);
      if |a[i]| == 3 {
        assert r[0] == a[i][2] && r[1] == a[i][1] && r[2] == a[i][0];
      } else if |a[i]| == 2 {
        assert r[0] == a[i][1] && r[1] == a[i][0];
      }
    }
  }

  /** The anchors: four literal words and one pattern, "sentad*". */
  lemma AnchorsValue()
    ensures EXPRESSION_ANCHORS == {"cabeza", "frente", "polémica", "pie", "sentad*"}
  {
    var e := USUALLY_MISUSED_EXPRESSIONS;
    assert e[0][0] == "cabeza" && e[1][0] == "frente" && e[2][0] == "polémica";
    assert e[3][0] == "pie" && e[4][0] == "sentad*";
  }

  /** No dialogue verb is both pedantic and misused. */
  lemma SaywordTablesDisjoint()
    ensures USUALLY_PEDANTIC_SAYWORDS !! USUALLY_MISUSED_SAYWORDS
  {
  }
}
