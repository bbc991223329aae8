/**
 * Java's decimal rendering of an `int` (`Integer.toString`, which is what
 * string concatenation such as `"Member" + i` uses), and the facts the
 * group-membership encoding relies on: the rendering is injective, and it
 * starts with a digit or a minus sign, so it never continues a key prefix
 * the way a letter would.
 */
module Decimal {

  predicate IsDigit(c: char) {
    '0' <= c <= '9'
  }

  function DigitChar(d: int): (c: char)
    requires 0 <= d < 10
    ensures IsDigit(c)
    ensures c as int - '0' as int == d
  {
    ('0' as int + d) as char
  }

  /** The decimal digits of n, most significant first, without leading zeros. */
  function NatToString(n: nat): (s: string)
    ensures |s| >= 1
    ensures forall i :: 0 <= i < |s| ==> IsDigit(s[i])
    ensures n >= 10 ==> |s| >= 2
  {
    if n < 10 then [DigitChar(n)] else NatToString(n / 10) + [DigitChar(n % 10)]
  }

  /** Integer.toString(i): a minus sign for negative numbers, then the digits. */
  function IntToString(i: int): (s: string)
    ensures |s| >= 1
    ensures s[0] == '-' <==> i < 0
    ensures s[0] == '-' || IsDigit(s[0])
  {
    if i < 0 then "-" + NatToString(-i) else NatToString(i)
  }

  lemma {:induction false} NatToStringInjective(a: nat, b: nat)
    requires NatToString(a) == NatToString(b)
    ensures a == b
  {
    var sa, sb := NatToString(a), NatToString(b);
    if a < 10 && b < 10 {
      assert DigitChar(a) == sa[0] == sb[0] == DigitChar(b);
    } else if a >= 10 && b >= 10 {
      var pa, pb := NatToString(a / 10), NatToString(b / 10);
      assert sa == pa + [DigitChar(a % 10)];
      assert sb == pb + [DigitChar(b % 10)];
      assert |pa| == |pb|;
      assert DigitChar(a % 10) == sa[|sa| - 1] == sb[|sb| - 1] == DigitChar(b % 10);
      assert pa == sa[..|sa| - 1] == sb[..|sb| - 1] == pb;
      NatToStringInjective(a / 10, b / 10);
    }
  }

  lemma IntToStringInjective(a: int, b: int)
    requires IntToString(a) == IntToString(b)
    ensures a == b
  {
    var sa, sb := IntToString(a), IntToString(b);
    if a < 0 && b < 0 {
      assert NatToString(-a) == sa[1..] == sb[1..] == NatToString(-b);
      NatToStringInjective(-a, -b);
    } else if a >= 0 && b >= 0 {
      NatToStringInjective(a, b);
    }
  }

  /** `prefix + i` names a different key for every i. */
  lemma PrefixedInjective(prefix: string, a: int, b: int)
    requires prefix + IntToString(a) == prefix + IntToString(b)
    ensures a == b
  {
    var ka, kb := prefix + IntToString(a), prefix + IntToString(b);
    assert IntToString(a) == ka[|prefix|..] == kb[|prefix|..] == IntToString(b);
    IntToStringInjective(a, b);
  }

  /**
   * `prefix + i` differs from `prefix + word` whenever the word starts with a
   * letter other than a digit or '-', e.g. "Member" + i versus
   * "MembersEnumerated".
   */
  lemma PrefixedNotWord(prefix: string, i: int, word: string)
    requires |word| > 0 && word[0] != '-' && !IsDigit(word[0])
    ensures prefix + IntToString(i) != prefix + word
  {
    var k, w := prefix + IntToString(i), prefix + word;
    assert k[|prefix|] == IntToString(i)[0];
    assert w[|prefix|] == word[0];
  }
}
