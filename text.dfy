/**
 * Decimal rendering of integers (what C# string interpolation writes for an `int`)
 * and splitting a rendered line into space-separated words, with the parsers that
 * undo the rendering.
 */
module Text {
  import opened Wrappers

  predicate IsDigit(c: char) {
    '0' <= c <= '9'
  }

  predicate AllDigits(s: string) {
    forall i :: 0 <= i < |s| ==> IsDigit(s[i])
  }

  function Digit(d: nat): (c: char)
    requires d < 10
    ensures IsDigit(c)
  {
    ('0' as int + d) as char
  }

  function DigitValue(c: char): nat
    requires IsDigit(c)
  {
    c as int - '0' as int
  }

  /** The decimal digits of `n`, most significant first, without leading zeros. */
  function NatToString(n: nat): (s: string)
    ensures |s| > 0 && AllDigits(s)
    decreases n
  {
    if n < 10 then [Digit(n)] else NatToString(n / 10) + [Digit(n % 10)]
  }

  /** `n.ToString()`: a minus sign for negative numbers, then the digits. */
  function IntToString(n: int): (s: string)
    ensures ' ' !in s && ',' !in s
  {
    if n < 0 then "-" + NatToString(-n) else NatToString(n)
  }

  function ParseDigits(s: string): nat
    requires AllDigits(s)
    decreases |s|
  {
    if s == [] then 0 else ParseDigits(s[..|s| - 1]) * 10 + DigitValue(s[|s| - 1])
  }

  /** Reads back an optionally negative decimal numeral; anything else is rejected. */
  function ParseInt(s: string): Option<int> {
    if |s| > 1 && s[0] == '-' && AllDigits(s[1..]) then Some(-(ParseDigits(s[1..]) as int))
    else if |s| > 0 && AllDigits(s) then Some(ParseDigits(s))
    else None
  }

  lemma {:induction false} ParseNatToString(n: nat)
    ensures ParseDigits(NatToString(n)) == n
    decreases n
  {
    if n >= 10 {
      var s := NatToString(n);
      var init := NatToString(n / 10);
      assert s[..|s| - 1] == init;
      ParseNatToString(n / 10);
    }
  }

  /** Parsing undoes rendering, for every integer. */
  lemma ParseIntToString(n: int)
    ensures ParseInt(IntToString(n)) == Some(n)
  {
    if n < 0 {
      var s := IntToString(n);
      assert s[1..] == NatToString(-n);
      ParseNatToString(-n);
    } else {
      ParseNatToString(n);
    }
  }

  /** Position of the first `c` in `s`. */
  function IndexOf(s: string, c: char): (i: nat)
    requires c in s
    ensures i < |s| && s[i] == c && c !in s[..i]
    decreases |s|
  {
    if s[0] == c then 0 else 1 + IndexOf(s[1..], c)
  }

  /** The words of `s` between single spaces (empty words included). */
  function Split(s: string): (words: seq<string>)
    decreases |s|
  {
    if ' ' !in s then [s]
    else
      var i := IndexOf(s, ' ');
      [s[..i]] + Split(s[i + 1..])
  }

  /** A leading word without spaces splits off exactly as itself. */
  lemma SplitLeadingWord(a: string, b: string)
    requires ' ' !in a
    ensures Split(a + " " + b) == [a] + Split(b)
  {
    var s := a + " " + b;
    assert s[|a|] == ' ';
    var i := IndexOf(s, ' ');
    assert s[..|a|] == a;
    assert s[..i] == a;
    assert s[i + 1..] == b;
  }

  /** Two leading words without spaces split off as themselves. */
  lemma SplitTwoLeadingWords(a: string, b: string, rest: string)
    requires ' ' !in a && ' ' !in b
    ensures Split(a + " " + (b + " " + rest)) == [a, b] + Split(rest)
  {
    SplitLeadingWord(b, rest);
    SplitLeadingWord(a, b + " " + rest);
  }

  /** Three leading words without spaces split off as themselves. */
  lemma SplitThreeLeadingWords(a: string, b: string, c: string, rest: string)
    requires ' ' !in a && ' ' !in b && ' ' !in c
    ensures Split(a + " " + (b + " " + (c + " " + rest))) == [a, b, c] + Split(rest)
  {
    SplitLeadingWord(c, rest);
    SplitTwoLeadingWords(a, b, c + " " + rest);
  }
}
