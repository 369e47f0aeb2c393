/**
 The bounded view of the word history that the windowed checks scan.
 The history holds every token read so far, the current one last; a check
 with window size `oldwords` looks at `words[-oldwords:-1]`.
 */
module Windows {

  function Min(a: int, b: int): int
  {
    if a <= b then a else b
  }

  /** `words[-oldwords:-1]` under Python's slicing rules (`-0` is `0`). */
  function Window(words: seq<string>, oldwords: nat): (w: seq<string>)
    // the last min(oldwords, |words|) words, minus the current one
    ensures |words| >= 1 && oldwords >= 1 ==>
      w == words[|words| - Min(oldwords, |words|)..|words| - 1]
    // a zero window keeps everything but the current word
    ensures |words| >= 1 && oldwords == 0 ==> w == words[..|words| - 1]
    // the window ends right before the current word, which it never holds
    ensures |words| >= 1 ==> w + [words[|words| - 1]] == words[|words| - |w| - 1..]
    ensures |words| == 0 ==> w == []
  {
    var n := |words|;
    var start := if oldwords == 0 then 0 else if oldwords <= n then n - oldwords else 0;
    var stop := if n == 0 then 0 else n - 1;
    if start < stop then words[start..stop] else []
  }
}
