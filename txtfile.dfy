/**
 The plain-text word iterator. The whole text is split on whitespace when the
 iterator is built; each step takes the first remaining word, keeps only its
 alphanumeric characters, appends the result to the history and yields it
 with no page number.
 */
module TxtFile {
  import opened Strings
  import opened Wrappers
  import opened Driver

  // ----- splitting on whitespace ----------------------------------------------

  /** The characters `str.split()` separates on, restricted to ASCII. */
  predicate IsSpace(c: char)
  {
    c == ' ' || c == '\t' || c == '\n' || c == '\r' || c == '\U{0B}' || c == '\U{0C}'
    || c == '\U{1C}' || c == '\U{1D}' || c == '\U{1E}' || c == '\U{1F}'
  }

  predicate NoSpace(w: string)
  {
    forall i :: 0 <= i < |w| ==> !IsSpace(w[i])
  }

  /** The longest prefix of `t` that holds no whitespace. */
  function TakeWord(t: string): (w: string)
    ensures w <= t && NoSpace(w)
    ensures |w| < |t| ==> IsSpace(t[|w|])
    ensures t != [] && !IsSpace(t[0]) ==> w != []
  {
    if t == [] || IsSpace(t[0]) then [] else [t[0]] + TakeWord(t[1..])
  }

  /** `text.split()`: the maximal runs of non-whitespace characters, in order. */
  function Split(text: string): seq<string>
    decreases |text|
  {
    if text == [] then []
    else if IsSpace(text[0]) then Split(text[1..])
    else
      var w := TakeWord(text);
      [w] + Split(text[|w|..])
  }

  /** The characters of `text` that are not whitespace, in order. */
  function NonSpace(text: string): string
  {
    if text == [] then [] else (if IsSpace(text[0]) then [] else [text[0]]) + NonSpace(text[1..])
  }

  /** All parts, one after the other. */
  function Concat(ws: seq<string>): string
  {
    if ws == [] then [] else ws[0] + Concat(ws[1..])
  }

  /** Every word of a split is non-empty and holds no whitespace. */
  lemma {:induction false} SplitWords(text: string)
    ensures forall w :: w in Split(text) ==> w != [] && NoSpace(w)
    decreases |text|
  {
    if text != [] {
      if IsSpace(text[0]) {
        SplitWords(text[1..]);
      } else {
        SplitWords(text[|TakeWord(text)|..]);
      }
    }
  }

  /** Splitting drops exactly the whitespace: the words make up the rest of the text. */
  lemma {:induction false} SplitKeepsText(text: string)
    ensures Concat(Split(text)) == NonSpace(text)
    decreases |text|
  {
    if text != [] {
      if IsSpace(text[0]) {
        SplitKeepsText(text[1..]);
      } else {
        var w := TakeWord(text);
        SplitKeepsText(text[|w|..]);
        TakeWordNonSpace(text);
        assert Split(text) == [w] + Split(text[|w|..]);
        assert ([w] + Split(text[|w|..]))[1..] == Split(text[|w|..]);
      }
    }
  }

  lemma {:induction false} TakeWordNonSpace(t: string)
    ensures NonSpace(t) == TakeWord(t) + NonSpace(t[|TakeWord(t)|..])
  {
    if t != [] && !IsSpace(t[0]) {
      TakeWordNonSpace(t[1..]);
      assert t[1..][|TakeWord(t[1..])|..] == t[|TakeWord(t)|..];
    }
  }

  /** Words free of whitespace, joined with single spaces, split back into themselves. */
  lemma {:induction false} SplitJoin(ws: seq<string>)
    requires forall i :: 0 <= i < |ws| ==> ws[i] != [] && NoSpace(ws[i])
    ensures Split(Join(ws, " ")) == ws
  {
    if |ws| == 1 {
      TakeWhole(ws[0], "");
      assert ws[0] + "" == ws[0];
      assert Split(ws[0][|ws[0]|..]) == [];
    } else if |ws| > 1 {
      var rest := " " + Join(ws[1..], " ");
      SplitJoin(ws[1..]);
      TakeWhole(ws[0], rest);
      assert Join(ws, " ") == ws[0] + rest;
      assert (ws[0] + rest)[|ws[0]|..] == rest;
      assert Split(rest) == Split(rest[1..]);
      assert rest[1..] == Join(ws[1..], " ");
    }
  }

  /** A word free of whitespace is taken whole when whitespace or nothing follows it. */
  lemma {:induction false} TakeWhole(w: string, rest: string)
    requires NoSpace(w)
    requires rest == [] || IsSpace(rest[0])
    ensures TakeWord(w + rest) == w
  {
    if w != [] {
      TakeWhole(w[1..], rest);
      assert (w + rest)[1..] == w[1..] + rest;
    }
  }

  // ----- keeping the alphanumeric characters ----------------------------------

  /** `''.join(filter(str.isalnum, w))`, with the character test as a parameter. */
  function AlnumOnly(isAlnum: char -> bool, w: string): (r: string)
    ensures |r| <= |w|
    ensures forall i :: 0 <= i < |r| ==> isAlnum(r[i])
  {
    if w == [] then [] else (if isAlnum(w[0]) then [w[0]] else []) + AlnumOnly(isAlnum, w[1..])
  }

  /** A one-character chunk keeps its character exactly when it is alphanumeric. */
  lemma AlnumOnlySingle(isAlnum: char -> bool, c: char)
    ensures AlnumOnly(isAlnum, [c]) == if isAlnum(c) then [c] else []
  {
    assert [c][1..] == [];
  }

  /**
   Stripping works piece by piece: the token of two pieces is the token of the
   first followed by the token of the second. With `AlnumOnlySingle` this fixes
   the token as the chunk's alphanumeric characters, in order and in number.
   */
  lemma {:induction false} AlnumOnlyAppend(isAlnum: char -> bool, a: string, b: string)
    ensures AlnumOnly(isAlnum, a + b) == AlnumOnly(isAlnum, a) + AlnumOnly(isAlnum, b)
  {
    if a == [] {
      assert a + b == b;
    } else {
      var head := if isAlnum(a[0]) then [a[0]] else [];
      AlnumOnlyAppend(isAlnum, a[1..], b);
      assert (a + b)[0] == a[0] && (a + b)[1..] == a[1..] + b;
      assert AlnumOnly(isAlnum, a + b) == head + AlnumOnly(isAlnum, a[1..] + b);
      assert AlnumOnly(isAlnum, a) == head + AlnumOnly(isAlnum, a[1..]);
    }
  }

  /** A character survives exactly when it is in the word and alphanumeric. */
  lemma {:induction false} AlnumOnlyMembers(isAlnum: char -> bool, w: string, c: char)
    ensures c in AlnumOnly(isAlnum, w) <==> c in w && isAlnum(c)
  {
    if w != [] {
      AlnumOnlyMembers(isAlnum, w[1..], c);
      assert w == [w[0]] + w[1..];
    }
  }

  /** A word that is already alphanumeric is kept as it is, so stripping twice is stripping once. */
  lemma {:induction false} AlnumOnlyKeeps(isAlnum: char -> bool, w: string)
    requires forall i :: 0 <= i < |w| ==> isAlnum(w[i])
    ensures AlnumOnly(isAlnum, w) == w
  {
    if w != [] {
      AlnumOnlyKeeps(isAlnum, w[1..]);
    }
  }

  lemma AlnumOnlyIdempotent(isAlnum: char -> bool, w: string)
    ensures AlnumOnly(isAlnum, AlnumOnly(isAlnum, w)) == AlnumOnly(isAlnum, w)
  {
    AlnumOnlyKeeps(isAlnum, AlnumOnly(isAlnum, w));
  }

  // ----- the iterator ----------------------------------------------------------

  /** The stripped form of each word. */
  function Stripped(isAlnum: char -> bool, ws: seq<string>): (r: seq<string>)
    ensures |r| == |ws|
  {
    if ws == [] then [] else Stripped(isAlnum, ws[..|ws| - 1]) + [AlnumOnly(isAlnum, ws[|ws| - 1])]
  }

  /** The entries the iterator yields for the words `ws`, in order. */
  function Entries(isAlnum: char -> bool, ws: seq<string>): (es: seq<Entry>)
    ensures |es| == |ws|
  {
    if ws == [] then [] else Entries(isAlnum, ws[..|ws| - 1]) + [Entry(AlnumOnly(isAlnum, ws[|ws| - 1]), None)]
  }

  /** The history the iterator keeps is the token sequence of what it has yielded. */
  lemma {:induction false} EntriesTokens(isAlnum: char -> bool, ws: seq<string>)
    ensures Tokens(Entries(isAlnum, ws)) == Stripped(isAlnum, ws)
    ensures forall i :: 0 <= i < |ws| ==> Entries(isAlnum, ws)[i].page == None
  {
    if ws != [] {
      var n := |ws| - 1;
      EntriesTokens(isAlnum, ws[..n]);
      var es := Entries(isAlnum, ws);
      assert es[..n] == Entries(isAlnum, ws[..n]);
    }
  }

  lemma {:induction false} StrippedSnoc(isAlnum: char -> bool, ws: seq<string>, n: nat)
    requires n < |ws|
    ensures Stripped(isAlnum, ws[..n + 1]) == Stripped(isAlnum, ws[..n]) + [AlnumOnly(isAlnum, ws[n])]
    ensures Entries(isAlnum, ws[..n + 1]) == Entries(isAlnum, ws[..n]) + [Entry(AlnumOnly(isAlnum, ws[n]), None)]
  {
    assert ws[..n + 1][..n] == ws[..n];
  }

  class TxtFileWordIterator {
    const isAlnum: char -> bool
    /** The text read, from a file or standard input. */
    const text: string
    /** The words not yet yielded, as split, before stripping. */
    var words: seq<string>
    /** The stripped words yielded so far, the current one last: the history `prev_words` exposes. */
    var prevWords: seq<string>

    /** What has been yielded and what remains always make up the split text. */
    predicate Valid()
      reads this
    {
      var source := Split(text);
      |prevWords| <= |source|
      && words == source[|prevWords|..]
      && prevWords == Stripped(isAlnum, source[..|prevWords|])
    }

    constructor (text: string, isAlnum: char -> bool)
      ensures Valid()
      ensures this.text == text && this.isAlnum == isAlnum
      ensures words == Split(text) && prevWords == []
    {
      this.isAlnum := isAlnum;
      this.text := text;
      words := Split(text);
      prevWords := [];
      new;
      assert Split(text)[..0] == [];
    }

    /** `__next__`: the next stripped word with no page, or none once the words run out. */
    method Next() returns (r: Option<Entry>)
      requires Valid()
      modifies this
      ensures Valid()
      ensures r.None? <==> old(words) == []
      ensures r.None? ==> words == old(words) && prevWords == old(prevWords)
      ensures r.Some? ==>
        && r.value == Entry(AlnumOnly(isAlnum, old(words)[0]), None)
        && words == old(words)[1..]
        && prevWords == old(prevWords) + [r.value.word]
      // the entry is the next one of the whole text's stream
      ensures r.Some? ==> r.value == Entries(isAlnum, Split(text))[|prevWords| - 1]
    {
      if words == [] {
        return None;
      }
      var ret := AlnumOnly(isAlnum, words[0]);
      var n := |prevWords|;
      var source := Split(text);
      StrippedSnoc(isAlnum, source, n);
      prevWords := prevWords + [ret];
      words := words[1..];
      r := Some(Entry(ret, None));
      EntryAt(isAlnum, source, n);
    }
  }

  /** The entry at position `n` of a text's stream is its stripped `n`-th word. */
  lemma {:induction false} EntryAt(isAlnum: char -> bool, ws: seq<string>, n: nat)
    requires n < |ws|
    ensures Entries(isAlnum, ws)[n] == Entry(AlnumOnly(isAlnum, ws[n]), None)
    decreases |ws|
  {
    var m := |ws| - 1;
    if n < m {
      EntryAt(isAlnum, ws[..m], n);
    }
  }
}
