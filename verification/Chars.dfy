/** Digits, hex digits, and words that stand in a text. */
module Chars {
  import opened Common

  predicate IsDigit(c: char) {
    '0' <= c <= '9'
  }

  function Digit(c: char): nat
    requires IsDigit(c)
  {
    (c as int) - ('0' as int)
  }

  predicate AllDigits(s: string) {
    forall i | 0 <= i < |s| :: IsDigit(s[i])
  }

  /** The number that decimal digits stand for. */
  function Decimal(digits: string): nat
    requires AllDigits(digits)
  {
    if digits == "" then 0 else Decimal(digits[..|digits| - 1]) * 10 + Digit(digits[|digits| - 1])
  }

  function HexDigit(c: char): Option<nat> {
    if '0' <= c <= '9' then Some((c as int) - ('0' as int))
    else if 'A' <= c <= 'F' then Some((c as int) - ('A' as int) + 10)
    else if 'a' <= c <= 'f' then Some((c as int) - ('a' as int) + 10)
    else None
  }

  function HexChar(n: nat): char
    requires n < 16
  {
    if n < 10 then (('0' as int) + n) as char else (('A' as int) + n - 10) as char
  }

  lemma HexRoundTrip(n: nat)
    requires n < 16
    ensures HexDigit(HexChar(n)) == Some(n)
  {
  }

  /** The word stands in s at pos. */
  predicate Ahead(s: string, pos: nat, word: string) {
    pos + |word| <= |s| && s[pos..pos + |word|] == word
  }

  lemma AheadTwo(s: string, pos: nat, a: string, b: string)
    ensures Ahead(s, pos, a + b) <==> Ahead(s, pos, a) && Ahead(s, pos + |a|, b)
  {
    if pos + |a| + |b| <= |s| {
      var ab := s[pos..pos + |a| + |b|];
      assert ab[..|a|] == s[pos..pos + |a|] && ab[|a|..] == s[pos + |a|..pos + |a| + |b|];
      assert (a + b)[..|a|] == a && (a + b)[|a|..] == b;
      assert ab == ab[..|a|] + ab[|a|..];
    }
  }

  lemma AheadAt(s: string, pos: nat, word: string, i: nat)
    requires Ahead(s, pos, word) && i < |word|
    ensures pos + i < |s| && s[pos + i] == word[i]
  {
    assert s[pos..pos + |word|][i] == s[pos + i];
  }
}
