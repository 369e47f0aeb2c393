/**
 The string operations the linter takes from its host language: `endswith`,
 substring containment (`a in b`), list reversal, `' '.join` and `%d`.
 */
module Strings {

  /** `s.endswith(suffix)` */
  predicate EndsWith(s: string, suffix: string)
  {
    |suffix| <= |s| && s[|s| - |suffix|..] == suffix
  }

  /** `part in whole` for strings: `part` occurs at some offset of `whole`. */
  predicate IsSubstring(part: string, whole: string)
  {
    exists i :: 0 <= i <= |whole| - |part| && OccursAt(part, whole, i)
  }

  predicate OccursAt(part: string, whole: string, i: int)
    requires 0 <= i <= |whole| - |part|
  {
    whole[i..i + |part|] == part
  }

  /** A string occurs inside any concatenation that has it as a middle part. */
  lemma InfixIsSubstring(before: string, part: string, after: string)
    ensures IsSubstring(part, before + part + after)
  {
    var whole := before + part + after;
    assert whole[|before|..|before| + |part|] == part;
    assert OccursAt(part, whole, |before|);
  }

  lemma SuffixEndsWith(before: string, suffix: string)
    ensures EndsWith(before + suffix, suffix)
  {
    assert (before + suffix)[|before|..] == suffix;
  }

  /** `list.reverse()` */
  function Reverse<T>(s: seq<T>): (r: seq<T>)
    ensures |r| == |s|
    ensures forall i :: 0 <= i < |s| ==> r[i] == s[|s| - 1 - i]
  {
    if s == [] then [] else Reverse(s[1..]) + [s[0]]
  }

  /** Reversing twice gives back the original order. */
  lemma ReverseReverse<T>(s: seq<T>)
    ensures Reverse(Reverse(s)) == s
  {
    var r := Reverse(Reverse(s));
    assert forall i :: 0 <= i < |s| ==> r[i] == s[i];
  }

  /** `sep.join(parts)` */
  function Join(parts: seq<string>, sep: string): string
  {
    if parts == [] then ""
    else if |parts| == 1 then parts[0]
    else parts[0] + sep + Join(parts[1..], sep)
  }

  predicate IsDigit(c: char)
  {
    '0' <= c <= '9'
  }

  function DigitChar(d: nat): (c: char)
    requires d < 10
    ensures IsDigit(c)
  {
    "0123456789"[d]
  }

  function DigitValue(c: char): (d: nat)
    requires IsDigit(c)
    ensures d < 10
  {
    (c as int - '0' as int) as nat
  }

  predicate AllDigits(s: string)
  {
    forall i :: 0 <= i < |s| ==> IsDigit(s[i])
  }

  /** Decimal digits of a natural number, most significant first, without leading zeros. */
  function NatToDecimal(n: nat): (s: string)
    ensures s != [] && AllDigits(s)
    ensures |s| > 1 ==> s[0] != '0'
  {
    if n < 10 then [DigitChar(n)] else NatToDecimal(n / 10) + [DigitChar(n % 10)]
  }

  /** The value of a string of decimal digits. */
  function DecimalValue(s: string): nat
    requires AllDigits(s)
  {
    if s == [] then 0 else DecimalValue(s[..|s| - 1]) * 10 + DigitValue(s[|s| - 1])
  }

  /** `'%d' % n`: an optional minus sign followed by the decimal digits of |n|. */
  function IntToDecimal(n: int): string
  {
    if n < 0 then "-" + NatToDecimal(-n) else NatToDecimal(n)
  }

  /** A `%d` rendering: digits, optionally after a minus sign. */
  predicate IsSignedDecimal(s: string)
  {
    s != [] && if s[0] == '-' then |s| > 1 && AllDigits(s[1..]) else AllDigits(s)
  }

  /** The number a `%d` rendering stands for. */
  function SignedValue(s: string): int
    requires IsSignedDecimal(s)
  {
    if s[0] == '-' then -(DecimalValue(s[1..]) as int) else DecimalValue(s)
  }

  /** Reading the digits back gives the number that was printed. */
  lemma {:induction false} NatToDecimalRoundTrip(n: nat)
    ensures DecimalValue(NatToDecimal(n)) == n
  {
    if n >= 10 {
      NatToDecimalRoundTrip(n / 10);
      var s := NatToDecimal(n);
      assert s[..|s| - 1] == NatToDecimal(n / 10);
    }
  }

  /** `%d` is read back as the number that was printed, sign included. */
  lemma IntToDecimalRoundTrip(n: int)
    ensures IsSignedDecimal(IntToDecimal(n)) && SignedValue(IntToDecimal(n)) == n
  {
    if n < 0 {
      NatToDecimalRoundTrip(-n);
      assert IntToDecimal(n)[1..] == NatToDecimal(-n);
    } else {
      NatToDecimalRoundTrip(n);
    }
  }
}

/** Optional values and the error outcome of an indexing operation. */
module Wrappers {

  datatype Option<T> = None | Some(value: T)

  /** A computation that either yields a value or raises Python's IndexError. */
  datatype Result<T> = Ok(value: T) | IndexError
}
