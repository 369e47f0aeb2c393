/**
 Shell-style wildcard matching as the checks use it (`fnmatch(name, pattern)`).
 Every table in the linter uses only `*`, which matches any run of characters,
 including the empty one; each other pattern character matches itself.
 Both ends of the pattern are anchored.
 */
module Glob {

  /** True iff `name` matches `pattern` as a whole. */
  function Matches(name: string, pattern: string): bool
    decreases |pattern| + |name|
  {
    if pattern == [] then name == []
    else if pattern[0] == '*' then
      Matches(name, pattern[1..]) || (name != [] && Matches(name[1..], pattern))
    else
      name != [] && name[0] == pattern[0] && Matches(name[1..], pattern[1..])
  }

  /** The number of `*` wildcards in a pattern. */
  function StarCount(pattern: string): nat
  {
    if pattern == [] then 0
    else (if pattern[0] == '*' then 1 else 0) + StarCount(pattern[1..])
  }

  /** The string obtained by putting `fills[i]` in place of the i-th `*`. */
  function Fill(pattern: string, fills: seq<string>): string
    requires |fills| == StarCount(pattern)
  {
    if pattern == [] then []
    else if pattern[0] == '*' then fills[0] + Fill(pattern[1..], fills[1..])
    else [pattern[0]] + Fill(pattern[1..], fills)
  }

  /** Reference meaning of a pattern: `name` is an instance of it. */
  ghost predicate Instance(name: string, pattern: string)
  {
    exists fills: seq<string> :: |fills| == StarCount(pattern) && Fill(pattern, fills) == name
  }

  /** A matching name determines how each `*` is filled in. */
  ghost function Witness(name: string, pattern: string): (fills: seq<string>)
    requires Matches(name, pattern)
    ensures |fills| == StarCount(pattern) && Fill(pattern, fills) == name
    decreases |pattern| + |name|
  {
    if pattern == [] then []
    else if pattern[0] == '*' then
      if Matches(name, pattern[1..]) then [""] + Witness(name, pattern[1..])
      else
        var rest := Witness(name[1..], pattern);
        [[name[0]] + rest[0]] + rest[1..]
    else
      Witness(name[1..], pattern[1..])
  }

  /** A leading `*` absorbs any prefix in front of a match of the rest. */
  lemma {:induction false} StarAbsorbs(prefix: string, rest: string, pattern: string)
    requires pattern != [] && pattern[0] == '*'
    requires Matches(rest, pattern[1..])
    ensures Matches(prefix + rest, pattern)
    decreases |prefix|
  {
    if prefix == [] {
      assert prefix + rest == rest;
    } else {
      StarAbsorbs(prefix[1..], rest, pattern);
      assert (prefix + rest)[1..] == prefix[1..] + rest;
      assert prefix + rest != [];
    }
  }

  /** Every instance of a pattern matches it. */
  lemma {:induction false} FillMatches(pattern: string, fills: seq<string>)
    requires |fills| == StarCount(pattern)
    ensures Matches(Fill(pattern, fills), pattern)
  {
    if pattern == [] {
    } else if pattern[0] == '*' {
      FillMatches(pattern[1..], fills[1..]);
      StarAbsorbs(fills[0], Fill(pattern[1..], fills[1..]), pattern);
    } else {
      FillMatches(pattern[1..], fills);
      var s := [pattern[0]] + Fill(pattern[1..], fills);
      assert s[1..] == Fill(pattern[1..], fills);
    }
  }

  /** The matcher agrees with the reference meaning, in both directions. */
  lemma MatchesIffInstance(name: string, pattern: string)
    ensures Matches(name, pattern) <==> Instance(name, pattern)
  {
    if Matches(name, pattern) {
      var fills := Witness(name, pattern);
      assert Fill(pattern, fills) == name;
    }
    if Instance(name, pattern) {
      var fills: seq<string> :| |fills| == StarCount(pattern) && Fill(pattern, fills) == name;
      FillMatches(pattern, fills);
    }
  }

  /** A pattern without wildcards matches exactly itself. */
  lemma {:induction false} LiteralMatches(name: string, literal: string)
    requires '*' !in literal
    ensures Matches(name, literal) <==> name == literal
  {
    if literal != [] && name != [] {
      assert '*' !in literal[1..] by {
        forall k | 0 <= k < |literal[1..]| ensures literal[1..][k] != '*' {
          assert literal[1..][k] == literal[k + 1];
        }
      }
      LiteralMatches(name[1..], literal[1..]);
      if name[0] == literal[0] && name[1..] == literal[1..] {
        assert name == [name[0]] + name[1..];
        assert literal == [literal[0]] + literal[1..];
      }
    }
  }

  /** `literal*` matches exactly the names that start with `literal`. */
  lemma {:induction false} PrefixStarMatches(name: string, literal: string)
    requires '*' !in literal
    ensures Matches(name, literal + "*") <==> literal <= name
  {
    if literal == [] {
      assert literal + "*" == "*";
      StarAbsorbs(name, [], "*");
      assert name + [] == name;
    } else {
      var p := literal + "*";
      assert p[0] == literal[0] && p[1..] == literal[1..] + "*";
      assert '*' !in literal[1..] by {
        forall k | 0 <= k < |literal[1..]| ensures literal[1..][k] != '*' {
          assert literal[1..][k] == literal[k + 1];
        }
      }
      if name != [] {
        PrefixStarMatches(name[1..], literal[1..]);
      }
    }
  }
}
