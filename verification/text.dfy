/** String helpers for the parts of the source that build or inspect text:
    `int.ToString()`, `string.Contains` and counting line breaks. */
module Text {

  predicate IsDigit(c: char) {
    '0' <= c <= '9'
  }

  function DigitChar(d: nat): (c: char)
    requires d < 10
    ensures IsDigit(c)
  {
    ['0', '1', '2', '3', '4', '5', '6', '7', '8', '9'][d]
  }

  /** Decimal digits of `n`, most significant first, without leading zeros. */
  function NatToString(n: nat): (s: string)
    decreases n
  {
    if n < 10 then [DigitChar(n)] else NatToString(n / 10) + [DigitChar(n % 10)]
  }

  /** `int.ToString()` under the invariant culture: a leading '-' for negative
      values, then the decimal digits. */
  function IntToString(i: int): string {
    if i < 0 then "-" + NatToString(-i) else NatToString(i)
  }

  lemma {:induction false} NatToStringDigits(n: nat)
    ensures |NatToString(n)| > 0
    ensures forall k :: 0 <= k < |NatToString(n)| ==> IsDigit(NatToString(n)[k])
    decreases n
  {
    if n >= 10 {
      NatToStringDigits(n / 10);
    }
  }

  /** A rendered integer is non-empty, starts with '-' exactly when it is
      negative, and otherwise consists of digits only; in particular it never
      holds a line break or a '+'. */
  lemma IntToStringShape(i: int)
    ensures |IntToString(i)| > 0
    ensures (IntToString(i)[0] == '-') == (i < 0)
    ensures forall k :: 0 < k < |IntToString(i)| ==> IsDigit(IntToString(i)[k])
    ensures forall k :: 0 <= k < |IntToString(i)| ==> IntToString(i)[k] != '\n' && IntToString(i)[k] != '+'
  {
    if i < 0 {
      NatToStringDigits(-i);
    } else {
      NatToStringDigits(i);
    }
  }

  /** `haystack.Contains(needle)`: ordinal substring search. */
  predicate Contains(haystack: string, needle: string) {
    exists k | 0 <= k <= |haystack| :: OccursAt(haystack, needle, k)
  }

  predicate OccursAt(haystack: string, needle: string, k: int) {
    0 <= k <= |haystack| - |needle| && haystack[k..k + |needle|] == needle
  }

  function CountChar(s: string, c: char): (n: nat)
    ensures n <= |s|
  {
    if |s| == 0 then 0 else (if s[0] == c then 1 else 0) + CountChar(s[1..], c)
  }

  lemma {:induction false} CountCharAppend(a: string, b: string, c: char)
    ensures CountChar(a + b, c) == CountChar(a, c) + CountChar(b, c)
  {
    if |a| == 0 {
      assert a + b == b;
    } else {
      assert (a + b)[1..] == a[1..] + b;
      CountCharAppend(a[1..], b, c);
    }
  }

  lemma {:induction false} CountCharAbsent(s: string, c: char)
    requires forall k :: 0 <= k < |s| ==> s[k] != c
    ensures CountChar(s, c) == 0
  {
    if |s| > 0 {
      CountCharAbsent(s[1..], c);
    }
  }
}
