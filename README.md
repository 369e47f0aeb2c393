# pyterato — the checking engine of a Spanish prose linter, in Dafny

pyterato reads a text word by word and flags stylistic problems of Spanish
prose. It flags these:
- adverbs ending in "-mente" that cluster;
- words repeated within a short distance;
- words that contain, or are contained in, a nearby word;
- overused "wildcard" words and verbs;
- pedantic or misused dialogue verbs;
- misused verb roots;
- a few misused multi-word expressions.

This project models four parts of it:
- the seven checks and their tables;
- the driver loop, which filters the words, feeds each one with its history to the checks, and collects the non-empty results into per-page buckets;
- the printing of those buckets;
- the plain-text word iterator, which splits the text on whitespace, strips each chunk to its alphanumeric characters and records it in the shared history.

Modules:

- `Strings`, `Wrappers`: suffix and substring tests, reversal, joining, and `%d` rendering with its round trip. `Option`, and `Result`, which `Ok` a value or signals Python's `IndexError`.
- `Glob`: `fnmatch` restricted to `*`, the only wildcard the tables use. It is proved equivalent to "the name is the pattern with its stars filled in".
- `Tables`: the word tables, the verb roots, the expression table and its anchor set. The start-up code reverses every expression in place and collects the anchors. It is modelled as a method over an array, proved to yield the stored tables.
- `Findings`: one datatype variant per kind of finding and the message each renders.
- `Windows`: the history slice `words[-oldwords:-1]`, with Python's slicing rules.
- `Checks`: `check_overused`, `check_mente`, `check_repetition`, `check_contained`, `check_saywords` and `check_verbs`.
  - The windowed checks are loops in the source. Here each is a method whose loop is proved equal to a scan function.
  - Lemmas state which findings that scan holds: sound, complete and ordered.
- `Expressions`: `check_expressions`, in two forms. One is the corrected guard the rest of the model uses. The other is the guard as written; see Findings.
- `Driver`: the main loop, over an abstract stream of `(word, page)` entries, and `print_results`, which returns its lines.
  - The loop is a method proved equal to a left fold, `Run`, across the stream.
  - Lemmas state the page order, each page's bucket and the printed layout.
- `TxtFile`: `TxtFileWordIterator` as a class. It has the remaining chunks and the history as fields, a constructor that takes the text, and `Next` for `__next__`.
- `CheckCases`: the unit tests' cases, as lemmas.

Where the code and its description disagree, the model follows the code:
- `check_mente` and `check_repetition` report the distance `oldwords - idx`, where `idx` counts from the oldest word of the window. `check_contained` reports the raw `idx`.
- `check_contained` has no minimum word length.
- No registry exists for enabling or disabling checks, so none is modelled.

The expressions whose anchor is `"sentad*"` can never fire on a real word. The anchor test is literal set membership, so only the word `"sentad*"` itself passes it. `SeatedFits` and `SeatedBlockedByAnchor` show both halves of this: the expression would match "quedó sentado", and the anchor test rejects it.

## Model

| member | source | states |
|---|---|---|
| Strings.ReverseReverse | pyterato/checks.py:232-233 | reversing the stored (reversed) expression gives back the authored one |
| Strings.IntToDecimalRoundTrip | pyterato/checks.py:113-115 | the `%d` rendering of a distance is a signed decimal that reads back as the same integer |
| Glob.MatchesIffInstance | pyterato/checks.py:102 | a name matches a `*`-pattern exactly when it is the pattern with some strings put in place of its stars |
| Glob.LiteralMatches | pyterato/checks.py:246 | a pattern without `*` matches exactly the equal name |
| Glob.PrefixStarMatches | pyterato/checks.py:102 | `stem*` matches exactly the names starting with `stem` |
| Tables.ReverseEach | pyterato/checks.py:76-77 | every expression list is reversed in place, the array keeping its order |
| Tables.CollectAnchors | pyterato/checks.py:80-82 | the anchor set holds exactly the first element of each expression |
| Tables.PrepareExpressions | pyterato/checks.py:66-82 | the start-up code on the authored table yields the stored reversed table and its anchor set |
| Tables.ExpressionsNonEmpty | pyterato/checks.py:67-75 | nine expressions, each of two or three words, so `exp[0]` always exists |
| Tables.ExpressionsReversed | pyterato/checks.py:66-77 | the stored table is the authored table with each expression reversed |
| Tables.AnchorsValue | pyterato/checks.py:79-82 | the anchors are "cabeza", "frente", "polémica", "pie" and the pattern "sentad*" |
| Tables.SaywordTablesDisjoint | pyterato/checks.py:55-64 | no dialogue verb is both pedantic and misused |
| Findings.MessageShape | pyterato/checks.py:96-233 | every message opens with its kind's text and names the word; distance messages show the distance in decimal and end with the old word where they have one; an expression message shows the expression in reading order |
| Windows.Window | pyterato/checks.py:121 | the window is the last `min(oldwords, len(words))` words without the current one; a zero size keeps all but the current word; the window never holds the current word and an empty history gives an empty window |
| Checks.CheckOverused | pyterato/checks.py:100-104 | at most one finding, for the word itself, present exactly when some overused pattern matches the word |
| Checks.OverusedShapes | pyterato/checks.py:43-53 | every overused pattern is an exact word or a stem followed by one `*` |
| Checks.OverusedIffListed | pyterato/checks.py:100-104 | the word is flagged exactly when it is one of the exact words or starts with one of the stems |
| Checks.CheckMente | pyterato/checks.py:118-126 | the loop yields the mente scan of the window |
| Checks.MenteScanSound | pyterato/checks.py:118-126 | each mente finding names an adverb of the window at the distance `oldwords - idx` |
| Checks.MenteScanComplete | pyterato/checks.py:118-126 | each adverb of the window is reported, at distance `oldwords - idx` |
| Checks.MenteScanOrdered | pyterato/checks.py:121-124 | mente findings come in strictly decreasing distance, oldest first |
| Checks.CheckRepetition | pyterato/checks.py:140-148 | the loop yields the repetition scan of the window |
| Checks.RepetitionScanSound | pyterato/checks.py:140-148 | each repetition finding is an exact occurrence of the word in the window at distance `oldwords - idx` |
| Checks.RepetitionScanComplete | pyterato/checks.py:140-148 | every exact occurrence of the word in the window is reported |
| Checks.RepetitionScanCount | pyterato/checks.py:143-146 | the number of findings is the number of occurrences of the word in the window |
| Checks.RepetitionScanOrdered | pyterato/checks.py:143-146 | repetition findings come in strictly decreasing distance |
| Checks.CheckContained | pyterato/checks.py:164-174 | the loop, with its `continue` on common words, yields the contained scan of the window |
| Checks.ContainedScanSound | pyterato/checks.py:166-172 | each contained finding is a window word, not common, non-empty, not ending in "mente", different from the word and holding it or held by it, at its raw index |
| Checks.ContainedScanComplete | pyterato/checks.py:166-172 | every such window word is reported at its raw index |
| Checks.ContainedScanOrdered | pyterato/checks.py:166-172 | contained findings come in strictly increasing index |
| Checks.CheckSaywords | pyterato/checks.py:195-204 | a pedantic finding exactly for pedantic verbs, a misused finding exactly for misused verbs, nothing else, at most one |
| Checks.VerbFindings | pyterato/checks.py:215-225 | no root prefixes the word: nothing; otherwise the first root that does decides, nothing for its exempt forms and one finding for any other word |
| Checks.CheckVerbs | pyterato/checks.py:215-225 | at most one finding, present exactly when some root prefixes the word and the word is not one of that root's exempt forms |
| Checks.RootsExclusive | pyterato/checks.py:31-40 | a word prefixed by one root is prefixed by no earlier root |
| Checks.AtMostOneRoot | pyterato/checks.py:31-40 | no word starts with two roots of the table, so table order never matters |
| Expressions.FirstFiring | pyterato/checks.py:239-251 | empty exactly when no expression from `i` on fires; otherwise the finding of the first that fires |
| Expressions.ExpressionFindings | pyterato/checks.py:235-253 | nothing for non-anchors; a finding exactly when the word is an anchor and some expression fires; then it is the first firing expression's finding |
| Expressions.CheckExpressions | pyterato/checks.py:235-253 | the method computes the expression findings |
| Expressions.ScanExpressions | pyterato/checks.py:239-251 | the nested loops with `prevcount` and `for`-`else` yield the first firing expression |
| Expressions.ScanAgrees | pyterato/checks.py:239-251 | the loop as written agrees with the corrected one whenever it raises nothing, and raises only when some expression is one longer than the history |
| Expressions.AsWrittenRaises | pyterato/checks.py:240-246 | with the guard as written, "cabeza" after "la" raises `IndexError` |
| Expressions.AsWrittenAgrees | pyterato/checks.py:235-253 | the check as written agrees with the corrected one except on histories of one or two words, where it may raise |
| Expressions.MessageInReadingOrder | pyterato/checks.py:232-233 | an expression's message shows the authored left-to-right expression |
| Expressions.ReportedFires | pyterato/checks.py:236-251 | a reported expression finding comes from an anchor word whose expression fires |
| Expressions.LiteralAnchors | pyterato/checks.py:79-82 | a real word (with no `*`) passes the anchor test only if it is "cabeza", "frente", "polémica" or "pie" |
| Expressions.SeatedNeverReported | pyterato/checks.py:72-82 | no expression anchored on "sentad*" is ever reported for a real word |
| Expressions.SeatedFits | pyterato/checks.py:72 | "quedó sentado" matches the stored expression `["sentad*", "qued*"]` |
| Expressions.SeatedBlockedByAnchor | pyterato/checks.py:236-237 | "sentado" yields no expression finding whatever the history |
| Driver.Tokens | pyterato/worditerator_base.py:14-16 | the history lists the stream's words in order, one per entry |
| Driver.RunChecks | pyterato/cli.py:94-105 | the seven checks' results, in the order overused, mente, repetition, contained, saywords, verbs, expressions |
| Driver.Analyse | pyterato/cli.py:86-112 | the loop's report is the fold of one step per entry over the stream |
| Driver.MainStep | pyterato/cli.py:90-110 | one iteration: the history grows by the word; a skipped word changes nothing; otherwise the page's bucket is opened if new and gets the non-empty results |
| Driver.KeepNonEmpty | pyterato/cli.py:108-110 | only the current page's bucket changes, by the non-empty result lists in order |
| Driver.NonEmptyKeepsFindings | pyterato/cli.py:108-110 | dropping the empty lists keeps every finding in order and leaves no empty list |
| Driver.FirstSeenExact | pyterato/cli.py:88 | the key order holds each page of its input once, and no other |
| Driver.RunPages | pyterato/cli.py:91-97 | the pages are the analysed entries' pages in first-seen order, and exactly the map's keys |
| Driver.RunPageMembers | pyterato/cli.py:91-97 | a page has a bucket exactly when some non-empty, non-common word lies on it, even one without findings |
| Driver.RunBuckets | pyterato/cli.py:96-110 | each page's bucket is the non-empty results of its own analysed entries in stream order, whatever the other pages hold |
| Driver.RunNoEmptyGroups | pyterato/cli.py:108-110 | no bucket holds an empty result list |
| Driver.MessagesAt | pyterato/cli.py:80-81 | line `i` prints finding `i` |
| Driver.MessagesAppend | pyterato/cli.py:79-81 | printing two runs of findings prints each in turn |
| Driver.Lint | pyterato/cli.py:86-112 | the whole program prints the rendering of the analysed stream, with window sizes 100, 50 and 15 |
| Driver.PrintResults | pyterato/cli.py:73-83 | the printed lines are the page blocks in key order |
| Driver.PrintPage | pyterato/cli.py:74-83 | a header for a numbered page only, every finding of the page in stored order, then an empty line |
| Driver.PrintGroups | pyterato/cli.py:78-81 | the findings of a page's lists, flattened in order, one line each |
| Driver.PrintGroup | pyterato/cli.py:80-81 | one line per finding of one list, in order |
| Driver.RenderLength | pyterato/cli.py:73-83 | the output has one line per finding, one header per numbered page and one empty line per page |
| TxtFile.SplitWords | pyterato/worditerator_txtfile.py:19 | every chunk of the split is non-empty and free of whitespace |
| TxtFile.SplitKeepsText | pyterato/worditerator_txtfile.py:19 | the chunks, one after the other, are the text without its whitespace |
| TxtFile.SplitJoin | pyterato/worditerator_txtfile.py:19 | chunks joined with single spaces split back into the same chunks |
| TxtFile.AlnumOnly | pyterato/worditerator_txtfile.py:25 | the token is no longer than the chunk and holds only alphanumeric characters |
| TxtFile.AlnumOnlySingle | pyterato/worditerator_txtfile.py:25 | a one-character chunk keeps its character exactly when it is alphanumeric |
| TxtFile.AlnumOnlyAppend | pyterato/worditerator_txtfile.py:25 | the token of two pieces is the token of the first followed by that of the second; with the one-character case this makes the token the chunk's alphanumeric characters in their order and number |
| TxtFile.AlnumOnlyMembers | pyterato/worditerator_txtfile.py:25 | a character is in the token exactly when it is in the chunk and alphanumeric |
| TxtFile.AlnumOnlyIdempotent | pyterato/worditerator_txtfile.py:25 | stripping a token again changes nothing |
| TxtFile.EntriesTokens | pyterato/worditerator_txtfile.py:26-28 | the history built from the yielded entries is their stripped words in order, and every page is None |
| TxtFile.EntryAt | pyterato/worditerator_txtfile.py:25-28 | entry `n` of a text is its stripped `n`-th chunk, with no page |
| TxtFile.TxtFileWordIterator.constructor | pyterato/worditerator_txtfile.py:9-19 | the remaining chunks are the split text and the history is empty |
| TxtFile.TxtFileWordIterator.Next | pyterato/worditerator_txtfile.py:21-28 | stops exactly when no chunk remains; otherwise it removes the first chunk, yields its stripped form with no page, appends it to the history, and that entry is the next one of the text's stream |
| CheckCases.MenteReported | tests/test.py:10-13 | "facilmente" in a window of five is reported for "raramente", at distance 4 |
| CheckCases.MenteNotReported | tests/test.py:11-14 | a window without adverbs gives nothing |
| CheckCases.MenteNotAdverb | tests/test.py:15 | "bla" is no adverb and gives nothing |
| CheckCases.RepetitionReported | tests/test.py:20-22 | "repetida" repeated in the window is reported at distance 4 |
| CheckCases.RepetitionNotReported | tests/test.py:21-23 | near-misses "repetid", "repe" and the current "repetidas" give nothing |
| CheckCases.RepetitionOtherWord | tests/test.py:24 | "bla" repeats nothing |
| CheckCases.ContainedReported | tests/test.py:29-32 | "repetida" inside "repetidas" is reported at window index 1 |
| CheckCases.ContainedNotReported | tests/test.py:30-33 | "repetidos", "x", "el" and "que" are not reported for "repetidas" |
| CheckCases.ContainedCommonIgnored | tests/test.py:34 | the common word "la" inside "bla" is ignored |
| CheckCases.SaywordsCases | tests/test.py:36-38 | "rebuznó" is reported as pedantic, "dijo" is not reported |
| CheckCases.ExpressionReported | tests/test.py:44-47 | "sacudia la cabeza" is reported on "cabeza" with the stored expression |
| CheckCases.ExpressionNotReported | tests/test.py:45-48 | "sacudia el cabeza" gives nothing |

## Left out

- The LibreOffice word iterator, its UNO connection, cursor walking and paging (pyterato/cli.py:28-70) are not part of this model. They are a foreign API over a socket. The driver takes the entries as an abstract sequence instead, so any page numbering can be fed to it.
- File and standard-input reading in the plain-text iterator's constructor is not modelled. The constructor takes the text read as a parameter. The "reading from standard input" notice is not modelled either.
- The standalone script pyterato.py, setup.py and worditerator_lo.py are not part of this model.
- `str.isalnum` is a parameter of the iterator, a test on characters, because Unicode character classes are out of reach. `str.split()` is modelled on the ASCII whitespace characters plus `\x1c`-`\x1f`. Unicode spaces, such as U+00A0 and U+2028, are not treated as separators.
- `fnmatch` is modelled for `*` only. The tables use no `?` or `[...]`. `normcase` is the identity on POSIX and is not modelled.
- The window sizes are parameters, collected in `Driver.WindowSizes`, with the linter's values 100, 50 and 15 as constants. In the source they are mutable function attributes that the tests overwrite.
- Printing is modelled as the list of lines printed. The built-in `print` and the `str()` of a finding become `Message`.
- The `OrderedDict` is a key sequence plus a map: `Driver.Report`.
- `CheckCases.SaywordsCases` uses "rebuznó" as the test evidently meant. The test file spells the word in a mis-decoded form.
- The verb test is empty (tests/test.py:40-41), so it has no case lemma. `Checks.CheckVerbs` and `Checks.VerbFindings` cover the check.
- CheckCases.ContainedReported: takes as a premise that "repetida" is not a common word. The verifier cannot rule a word out of a literal set of about 130 strings at an acceptable cost. The table in `Tables.COMMON_WORDS` plainly does not hold it.
- CheckCases.ContainedCommonIgnored: takes as a premise that "la" is a common word, for the same reason. The table lists it on its first line.
- Integer width is not an issue: the distances are small non-negative Python integers, and `%d` renders any integer.

## Findings

| source | as written | input that shows it | evidently intended | confidence | as-written member | corrected member |
|---|---|---|---|---|---|---|
| pyterato/checks.py:240 | the guard `len(exp) > len(words) + 1` lets through an expression one longer than the history, and `words[-prevcount]` at line 246 then runs off the front of the history once the earlier words all matched | word "cabeza" with history ["la", "cabeza"]: the expression ["cabeza", "la", "sacud*"] passes the guard, "la" matches at `words[-2]`, and `words[-3]` raises IndexError | the expression is tried only when the history is at least as long as the expression (guard `len(exp) > len(words)`), so a too-short history means no match | not executed | Expressions.CheckExpressionsAsWritten, Expressions.AsWrittenRaises | Expressions.ExpressionFindings, Expressions.CheckExpressions |
