/**
 The command-line driver: it reads (word, page) entries from a word iterator,
 skips empty and common words, runs the seven checks in a fixed order on
 every other word and keeps, per page, the non-empty finding lists in the
 order they were produced; pages are kept in the order they first occur.
 The iterator appends every word it yields to the history, skipped words
 included, so each check sees the whole history with the current word last.
 */
module Driver {
  import opened Strings
  import opened Tables
  import opened Findings
  import opened Checks
  import opened Expressions
  import opened Wrappers

  /** A page number, or none when the iterator does not track pages. */
  type Page = Option<int>

  /** One item of the word iterator. */
  datatype Entry = Entry(word: string, page: Page)

  /** The window sizes of the three windowed checks. */
  datatype WindowSizes = WindowSizes(mente: nat, repetition: nat, contained: nat)

  const DEFAULT_SIZES: WindowSizes := WindowSizes(MENTE_OLDWORDS, REPETITION_OLDWORDS, CONTAINED_OLDWORDS)

  /** The findings gathered so far: the pages in first-seen order and each page's finding lists. */
  datatype Report = Report(pages: seq<Page>, buckets: map<Page, seq<seq<Finding>>>)

  /** Words the driver does not analyse. */
  predicate Skipped(word: string)
  {
    word == "" || word in COMMON_WORDS
  }

  /** The words of the entries, in order: the history the iterator builds. */
  function Tokens(stream: seq<Entry>): (ws: seq<string>)
    ensures |ws| == |stream| && forall i :: 0 <= i < |stream| ==> ws[i] == stream[i].word
  {
    if stream == [] then [] else Tokens(stream[..|stream| - 1]) + [stream[|stream| - 1].word]
  }

  /** The results of the seven checks on one word, in the order the driver runs them. */
  function AllChecks(word: string, history: seq<string>, sizes: WindowSizes): seq<seq<Finding>>
  {
    [ CheckOverused(word),
      MenteFindings(word, history, sizes.mente),
      RepetitionFindings(word, history, sizes.repetition),
      ContainedFindings(word, history, sizes.contained),
      CheckSaywords(word),
      CheckVerbs(word),
      ExpressionFindings(word, history) ]
  }

  /** What the driver computes for a word and its history: the seven checks' results. */
  function Analysis(sizes: WindowSizes): (string, seq<string>) -> seq<seq<Finding>>
  {
    (word, history) => AllChecks(word, history, sizes)
  }

  /** The seven checks, run one after the other as the main loop does. */
  method RunChecks(word: string, history: seq<string>, sizes: WindowSizes) returns (tmpfindings: seq<seq<Finding>>)
    ensures tmpfindings == Analysis(sizes)(word, history)
  {
    var overused := CheckOverused(word);
    var mente := CheckMente(word, history, sizes.mente);
    var repetition := CheckRepetition(word, history, sizes.repetition);
    var contained := CheckContained(word, history, sizes.contained);
    var saywords := CheckSaywords(word);
    var verbs := CheckVerbs(word);
    var expressions := CheckExpressions(word, history);
    // appended in this order, one list per check, empty lists included
    tmpfindings := [overused, mente, repetition, contained, saywords, verbs, expressions];
  }

  /** The non-empty lists of `groups`, in order. */
  function NonEmpty(groups: seq<seq<Finding>>): seq<seq<Finding>>
  {
    if groups == [] then []
    else
      var n := |groups| - 1;
      NonEmpty(groups[..n]) + (if groups[n] != [] then [groups[n]] else [])
  }

  /** All findings of a sequence of lists, in order. */
  function Flatten(groups: seq<seq<Finding>>): seq<Finding>
  {
    if groups == [] then [] else Flatten(groups[..|groups| - 1]) + groups[|groups| - 1]
  }

  /** Dropping the empty lists loses no finding and leaves no empty list. */
  lemma {:induction false} NonEmptyKeepsFindings(groups: seq<seq<Finding>>)
    ensures Flatten(NonEmpty(groups)) == Flatten(groups)
    ensures forall g :: g in NonEmpty(groups) ==> g != []
    ensures |NonEmpty(groups)| <= |groups|
  {
    if groups != [] {
      var n := |groups| - 1;
      NonEmptyKeepsFindings(groups[..n]);
      FlattenAppend(NonEmpty(groups[..n]), if groups[n] != [] then [groups[n]] else []);
    }
  }

  lemma {:induction false} FlattenAppend(a: seq<seq<Finding>>, b: seq<seq<Finding>>)
    ensures Flatten(a + b) == Flatten(a) + Flatten(b)
    decreases |b|
  {
    if b != [] {
      var n := |b| - 1;
      assert (a + b)[..|a + b| - 1] == a + b[..n];
      FlattenAppend(a, b[..n]);
    } else {
      assert a + b == a;
    }
  }

  /** One entry of the main loop: a skipped word changes nothing, any other adds its non-empty results to its page. */
  function Step(report: Report, e: Entry, history: seq<string>, analyse: (string, seq<string>) -> seq<seq<Finding>>): Report
  {
    if Skipped(e.word) then report
    else
      var known := e.page in report.buckets;
      var prior := if known then report.buckets[e.page] else [];
      Report(if known then report.pages else report.pages + [e.page],
             report.buckets[e.page := prior + NonEmpty(analyse(e.word, history))])
  }

  /** The report after the whole stream; every step sees the history up to its own word. */
  function Run(stream: seq<Entry>, analyse: (string, seq<string>) -> seq<seq<Finding>>): Report
  {
    if stream == [] then Report([], map[])
    else Step(Run(stream[..|stream| - 1], analyse), stream[|stream| - 1], Tokens(stream), analyse)
  }

  /** `main`, over the entries the word iterator yields. */
  method Analyse(stream: seq<Entry>, sizes: WindowSizes) returns (report: Report)
    ensures report == Run(stream, Analysis(sizes))
  {
    var pages: seq<Page> := [];
    var findings: map<Page, seq<seq<Finding>>> := map[];
    var history: seq<string> := [];
    for i := 0 to |stream|
      invariant Report(pages, findings) == Run(stream[..i], Analysis(sizes))
      invariant history == Tokens(stream[..i])
    {
      RunStep(stream, i, Analysis(sizes));
      pages, findings, history := MainStep(pages, findings, history, stream[i], sizes);
    }
    assert stream[..|stream|] == stream;
    report := Report(pages, findings);
  }

  /** The body of the main loop: record the word, skip it or analyse it. */
  method MainStep(pages: seq<Page>, findings: map<Page, seq<seq<Finding>>>, history: seq<string>, e: Entry,
                  sizes: WindowSizes)
    returns (pages': seq<Page>, findings': map<Page, seq<seq<Finding>>>, history': seq<string>)
    ensures history' == history + [e.word]
    ensures Report(pages', findings') == Step(Report(pages, findings), e, history', Analysis(sizes))
  {
    var word, page := e.word, e.page;
    history' := history + [word];
    pages', findings' := pages, findings;
    if word == "" || word in COMMON_WORDS {
      return;  // `continue`
    }
    if page !in findings' {
      findings' := findings'[page := []];
      pages' := pages' + [page];
    }
    var tmpfindings := RunChecks(word, history', sizes);
    ghost var started := findings';
    findings' := KeepNonEmpty(findings', page, tmpfindings);
    BucketOpened(findings, started, page, NonEmpty(tmpfindings));
  }

  /** One more entry is one more `Step`, seeing the history up to that entry. */
  lemma RunStep(stream: seq<Entry>, i: nat, analyse: (string, seq<string>) -> seq<seq<Finding>>)
    requires i < |stream|
    ensures Run(stream[..i + 1], analyse) == Step(Run(stream[..i], analyse), stream[i], Tokens(stream[..i]) + [stream[i].word], analyse)
  {
    assert stream[..i + 1][..i] == stream[..i];
  }

  /** Opening a page's bucket on first sight and then appending to it is one update of the map. */
  lemma BucketOpened(buckets: map<Page, seq<seq<Finding>>>, started: map<Page, seq<seq<Finding>>>, page: Page, added: seq<seq<Finding>>)
    requires started == if page in buckets then buckets else buckets[page := []]
    ensures started[page := started[page] + added]
         == buckets[page := (if page in buckets then buckets[page] else []) + added]
  {
    if page !in buckets {
      assert [] + added == added;
    }
  }

  /** The inner loop of `main`: appends each non-empty result list to the page's bucket. */
  method KeepNonEmpty(findings: map<Page, seq<seq<Finding>>>, page: Page, tmpfindings: seq<seq<Finding>>)
    returns (updated: map<Page, seq<seq<Finding>>>)
    requires page in findings
    ensures updated == findings[page := findings[page] + NonEmpty(tmpfindings)]
  {
    updated := findings;
    assert tmpfindings[..0] == [];
    assert findings[page] + [] == findings[page];
    for k := 0 to |tmpfindings|
      invariant updated == findings[page := findings[page] + NonEmpty(tmpfindings[..k])]
    {
      assert tmpfindings[..k + 1][..k] == tmpfindings[..k];
      if |tmpfindings[k]| > 0 {
        assert NonEmpty(tmpfindings[..k + 1]) == NonEmpty(tmpfindings[..k]) + [tmpfindings[k]];
        ghost var kept := findings[page] + NonEmpty(tmpfindings[..k]);
        assert kept + [tmpfindings[k]] == findings[page] + NonEmpty(tmpfindings[..k + 1]);
        updated := updated[page := updated[page] + [tmpfindings[k]]];
      } else {
        assert NonEmpty(tmpfindings[..k + 1]) == NonEmpty(tmpfindings[..k]) + [];
        assert NonEmpty(tmpfindings[..k]) + [] == NonEmpty(tmpfindings[..k]);
      }
    }
    assert tmpfindings[..|tmpfindings|] == tmpfindings;
  }

  // ----- properties of the report ---------------------------------------------

  /** The entries the driver analyses. */
  predicate Kept(e: Entry)
  {
    !Skipped(e.word)
  }

  /** The pages of the analysed entries, repetitions included. */
  function KeptPages(stream: seq<Entry>): seq<Page>
  {
    if stream == [] then []
    else
      var n := |stream| - 1;
      KeptPages(stream[..n]) + (if Kept(stream[n]) then [stream[n].page] else [])
  }

  /** Each page once, at its first occurrence: the key order of an ordered dictionary. */
  function FirstSeen(ps: seq<Page>): seq<Page>
  {
    if ps == [] then []
    else
      var n := |ps| - 1;
      var seen := FirstSeen(ps[..n]);
      if ps[n] in seen then seen else seen + [ps[n]]
  }

  /** `FirstSeen` keeps exactly the pages of its input, each once. */
  lemma {:induction false} FirstSeenExact(ps: seq<Page>)
    ensures forall p :: p in FirstSeen(ps) <==> p in ps
    ensures forall j, l :: 0 <= j < l < |FirstSeen(ps)| ==> FirstSeen(ps)[j] != FirstSeen(ps)[l]
  {
    if ps != [] {
      var n := |ps| - 1;
      FirstSeenExact(ps[..n]);
      assert ps == ps[..n] + [ps[n]];
    }
  }

  /** The report's pages are the analysed entries' pages in first-seen order, and exactly the keys of its map. */
  lemma {:induction false} RunPages(stream: seq<Entry>, analyse: (string, seq<string>) -> seq<seq<Finding>>)
    ensures Run(stream, analyse).pages == FirstSeen(KeptPages(stream))
    ensures forall p :: p in Run(stream, analyse).buckets <==> p in Run(stream, analyse).pages
  {
    if stream != [] {
      var n := |stream| - 1;
      RunPages(stream[..n], analyse);
      var ps := KeptPages(stream[..n]);
      var e := stream[n];
      if Kept(e) {
        assert KeptPages(stream) == ps + [e.page];
        assert (ps + [e.page])[..|ps|] == ps;
      } else {
        assert KeptPages(stream) == ps + [];
        assert ps + [] == ps;
      }
    }
  }

  /** A page is reported exactly when some analysed entry lies on it. */
  lemma RunPageMembers(stream: seq<Entry>, analyse: (string, seq<string>) -> seq<seq<Finding>>, p: Page)
    ensures p in Run(stream, analyse).pages <==> exists i :: 0 <= i < |stream| && OnPage(stream[i], p)
  {
    RunPages(stream, analyse);
    FirstSeenExact(KeptPages(stream));
    KeptPagesMembers(stream, p);
  }

  lemma {:induction false} KeptPagesMembers(stream: seq<Entry>, p: Page)
    ensures p in KeptPages(stream) <==> exists i :: 0 <= i < |stream| && OnPage(stream[i], p)
  {
    if stream != [] {
      var n := |stream| - 1;
      KeptPagesMembers(stream[..n], p);
      assert forall i :: 0 <= i < n ==> stream[..n][i] == stream[i];
      assert p in KeptPages(stream) <==> p in KeptPages(stream[..n]) || OnPage(stream[n], p);
    }
  }

  /** An analysed entry on page `p`. */
  predicate OnPage(e: Entry, p: Page)
  {
    Kept(e) && e.page == p
  }

  /** The finding lists of page `p`: those of its analysed entries, in stream order. */
  function PageGroups(stream: seq<Entry>, p: Page, analyse: (string, seq<string>) -> seq<seq<Finding>>): seq<seq<Finding>>
  {
    if stream == [] then []
    else
      var n := |stream| - 1;
      var e := stream[n];
      PageGroups(stream[..n], p, analyse)
      + (if Kept(e) && e.page == p then NonEmpty(analyse(e.word, Tokens(stream))) else [])
  }

  /** Each page collects the non-empty results of its own entries, unaffected by other pages. */
  lemma {:induction false} RunBuckets(stream: seq<Entry>, analyse: (string, seq<string>) -> seq<seq<Finding>>, p: Page)
    ensures p in Run(stream, analyse).buckets ==> Run(stream, analyse).buckets[p] == PageGroups(stream, p, analyse)
    ensures p !in Run(stream, analyse).buckets ==> PageGroups(stream, p, analyse) == []
  {
    if stream != [] {
      var n := |stream| - 1;
      RunBuckets(stream[..n], analyse, p);
    }
  }

  /** No page holds an empty finding list. */
  lemma {:induction false} RunNoEmptyGroups(stream: seq<Entry>, analyse: (string, seq<string>) -> seq<seq<Finding>>)
    ensures forall p :: p in Run(stream, analyse).buckets ==> NoEmptyGroup(Run(stream, analyse).buckets[p])
  {
    if stream != [] {
      var n := |stream| - 1;
      var before := Run(stream[..n], analyse);
      RunNoEmptyGroups(stream[..n], analyse);
      var e := stream[n];
      if !Skipped(e.word) {
        var added := NonEmpty(analyse(e.word, Tokens(stream)));
        NonEmptyKeepsFindings(analyse(e.word, Tokens(stream)));
        var prior := if e.page in before.buckets then before.buckets[e.page] else [];
        assert NoEmptyGroup(prior + added);
      }
    }
  }

  predicate NoEmptyGroup(groups: seq<seq<Finding>>)
  {
    forall g :: g in groups ==> g != []
  }

  // ----- printing -------------------------------------------------------------

  /** The header line of a page; pages without a number get none. */
  function Header(p: Page): seq<string>
  {
    match p
    case None => []
    case Some(n) => ["Página " + IntToDecimal(n) + ": "]
  }

  /** `render` applied to each element, in order. */
  function MapLines<T>(render: T -> string, xs: seq<T>): (ls: seq<string>)
    ensures |ls| == |xs|
  {
    if xs == [] then [] else MapLines(render, xs[..|xs| - 1]) + [render(xs[|xs| - 1])]
  }

  lemma {:induction false} MapLinesAt<T>(render: T -> string, xs: seq<T>, i: nat)
    requires i < |xs|
    ensures MapLines(render, xs)[i] == render(xs[i])
  {
    var n := |xs| - 1;
    if i < n {
      MapLinesAt(render, xs[..n], i);
      assert xs[..n][i] == xs[i];
    }
  }

  lemma {:induction false} MapLinesAppend<T>(render: T -> string, a: seq<T>, b: seq<T>)
    ensures MapLines(render, a + b) == MapLines(render, a) + MapLines(render, b)
    decreases |b|
  {
    if b == [] {
      assert a + b == a;
    } else {
      var n := |b| - 1;
      MapLinesAppend(render, a, b[..n]);
      assert (a + b)[..|a + b| - 1] == a + b[..n];
    }
  }

  /** One output line per finding. */
  function Messages(fs: seq<Finding>): (ls: seq<string>)
    ensures |ls| == |fs|
  {
    MapLines(Message, fs)
  }

  /** Line `i` is the message of finding `i`. */
  lemma MessagesAt(fs: seq<Finding>, i: nat)
    requires i < |fs|
    ensures Messages(fs)[i] == Message(fs[i])
  {
    MapLinesAt(Message, fs, i);
  }

  /** The messages of two runs of findings are the messages of each, one after the other. */
  lemma MessagesAppend(a: seq<Finding>, b: seq<Finding>)
    ensures Messages(a + b) == Messages(a) + Messages(b)
  {
    MapLinesAppend(Message, a, b);
  }

  /** The lines `print_results` prints for one page: header, messages, an empty line. */
  function PageBlock(p: Page, groups: seq<seq<Finding>>): seq<string>
  {
    Header(p) + Messages(Flatten(groups)) + [""]
  }

  /** Everything `print_results` prints, page by page in key order. */
  function Render(pages: seq<Page>, buckets: map<Page, seq<seq<Finding>>>): seq<string>
    requires forall p :: p in pages ==> p in buckets
  {
    if pages == [] then []
    else
      var n := |pages| - 1;
      Render(pages[..n], buckets) + PageBlock(pages[n], buckets[pages[n]])
  }

  /** `print_results`: the printed lines, in order. */
  method PrintResults(report: Report) returns (lines: seq<string>)
    requires forall p :: p in report.pages ==> p in report.buckets
    ensures lines == Render(report.pages, report.buckets)
  {
    lines := [];
    for i := 0 to |report.pages|
      invariant lines == Render(report.pages[..i], report.buckets)
    {
      RenderStep(report.pages, report.buckets, i);
      var page := report.pages[i];
      var block := PrintPage(page, report.buckets[page]);
      lines := lines + block;
    }
    assert report.pages[..|report.pages|] == report.pages;
  }

  lemma RenderStep(pages: seq<Page>, buckets: map<Page, seq<seq<Finding>>>, i: nat)
    requires forall p :: p in pages ==> p in buckets
    requires i < |pages|
    ensures Render(pages[..i + 1], buckets) == Render(pages[..i], buckets) + PageBlock(pages[i], buckets[pages[i]])
  {
    assert pages[..i + 1][..i] == pages[..i];
  }

  /** What the linter prints for a stream with the given window sizes. */
  function Output(stream: seq<Entry>, sizes: WindowSizes): seq<string>
  {
    var report := Run(stream, Analysis(sizes));
    RunPages(stream, Analysis(sizes));
    Render(report.pages, report.buckets)
  }

  /** `main` as a whole: the stream analysed with the linter's own window sizes, then printed. */
  method Lint(stream: seq<Entry>) returns (lines: seq<string>)
    ensures lines == Output(stream, DEFAULT_SIZES)
  {
    var report := Analyse(stream, DEFAULT_SIZES);
    RunPages(stream, Analysis(DEFAULT_SIZES));
    lines := PrintResults(report);
  }

  /** The body of the loop of `print_results`, for one page. */
  method PrintPage(page: Page, flist: seq<seq<Finding>>) returns (lines: seq<string>)
    ensures lines == PageBlock(page, flist)
  {
    lines := [];
    if page.Some? {
      lines := lines + ["Página " + IntToDecimal(page.value) + ": "];
    }
    var body := PrintGroups(flist);
    lines := lines + body + [""];
  }

  /** The loop over one page's finding lists. */
  method PrintGroups(flist: seq<seq<Finding>>) returns (lines: seq<string>)
    ensures lines == Messages(Flatten(flist))
  {
    lines := [];
    for j := 0 to |flist|
      invariant lines == Messages(Flatten(flist[..j]))
    {
      assert flist[..j + 1][..j] == flist[..j];
      MessagesAppend(Flatten(flist[..j]), flist[j]);
      var block := PrintGroup(flist[j]);
      lines := lines + block;
    }
    assert flist[..|flist|] == flist;
  }

  /** The innermost loop of `print_results`: one line per finding of one check. */
  method PrintGroup(typefindings: seq<Finding>) returns (lines: seq<string>)
    ensures lines == Messages(typefindings)
  {
    lines := [];
    for k := 0 to |typefindings|
      invariant lines == Messages(typefindings[..k])
    {
      assert typefindings[..k + 1][..k] == typefindings[..k];
      lines := lines + [Message(typefindings[k])];
    }
    assert typefindings[..|typefindings|] == typefindings;
  }

  /** Number of pages that carry a page number. */
  function NumberedPages(pages: seq<Page>): nat
  {
    if pages == [] then 0 else NumberedPages(pages[..|pages| - 1]) + (if pages[|pages| - 1].Some? then 1 else 0)
  }

  /** Number of findings over all pages. */
  function TotalFindings(pages: seq<Page>, buckets: map<Page, seq<seq<Finding>>>): nat
    requires forall p :: p in pages ==> p in buckets
  {
    if pages == [] then 0
    else
      var n := |pages| - 1;
      TotalFindings(pages[..n], buckets) + |Flatten(buckets[pages[n]])|
  }

  /** One line per finding, one header per numbered page and one empty line per page. */
  lemma {:induction false} RenderLength(pages: seq<Page>, buckets: map<Page, seq<seq<Finding>>>)
    requires forall p :: p in pages ==> p in buckets
    ensures |Render(pages, buckets)| == |pages| + NumberedPages(pages) + TotalFindings(pages, buckets)
  {
    if pages != [] {
      RenderLength(pages[..|pages| - 1], buckets);
    }
  }
}
