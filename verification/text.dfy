/** The string formatting the bill identifiers are built from:
    `Number.prototype.toString` on natural numbers and `String.prototype.padStart`. */
module Text {

  predicate IsDigit(c: char) {
    '0' <= c <= '9'
  }

  predicate AllDigits(s: string) {
    forall i :: 0 <= i < |s| ==> IsDigit(s[i])
  }

  predicate StartsWith(s: string, prefix: string) {
    |prefix| <= |s| && s[..|prefix|] == prefix
  }

  /** Appending keeps a prefix a prefix. */
  lemma StartsWithAppend(s: string, more: string, prefix: string)
    requires StartsWith(s, prefix)
    ensures StartsWith(s + more, prefix)
  {
    assert (s + more)[..|prefix|] == s[..|prefix|];
  }

  /** A string starting with `prefix + more` starts with `prefix`. */
  lemma StartsWithShorter(s: string, prefix: string, more: string)
    ensures StartsWith(s, prefix + more) ==> StartsWith(s, prefix)
  {
    if StartsWith(s, prefix + more) {
      assert s[..|prefix|] == s[..|prefix + more|][..|prefix|];
    }
  }

  function DigitChar(d: nat): (c: char)
    requires d < 10
    ensures IsDigit(c)
  {
    (48 + d) as char
  }

  /** Decimal form of `n`, without leading zeros. */
  function NatToString(n: nat): (s: string)
    ensures 1 <= |s| && AllDigits(s)
    ensures |s| == 1 <==> n < 10
    ensures s[0] == '0' <==> n == 0
  {
    if n < 10 then [DigitChar(n)] else NatToString(n / 10) + [DigitChar(n % 10)]
  }

  /** `s.padStart(width, c)`: `s` with copies of `c` in front, up to `width` characters. */
  function PadStart(s: string, width: nat, c: char): (r: string)
    ensures |r| == if |s| < width then width else |s|
    ensures r[|r| - |s|..] == s
    ensures forall i :: 0 <= i < |r| - |s| ==> r[i] == c
  {
    if |s| >= width then s else seq(width - |s|, _ => c) + s
  }

  /** `n.toString().padStart(2, '0')`. */
  function Pad2(n: nat): string {
    PadStart(NatToString(n), 2, '0')
  }

  /** Two numbers with the same decimal form are the same number. */
  lemma {:induction false} NatToStringInjective(a: nat, b: nat)
    requires NatToString(a) == NatToString(b)
    ensures a == b
  {
    var s := NatToString(a);
    if a < 10 {
      assert b < 10;
      assert s[0] == DigitChar(a) && s[0] == DigitChar(b);
    } else {
      assert b >= 10;
      var n := |s|;
      assert NatToString(a / 10) == s[..n - 1] == NatToString(b / 10);
      NatToStringInjective(a / 10, b / 10);
      assert DigitChar(a % 10) == s[n - 1] == DigitChar(b % 10);
    }
  }

  /** Two-digit padding keeps numbers apart: "05" is never the decimal form of a number. */
  lemma Pad2Injective(a: nat, b: nat)
    requires Pad2(a) == Pad2(b)
    ensures a == b
  {
    var sa, sb := NatToString(a), NatToString(b);
    if |sa| == 1 && |sb| == 1 {
      assert Pad2(a) == ['0'] + sa by { assert Pad2(a)[1..] == sa; }
      assert Pad2(b) == ['0'] + sb by { assert Pad2(b)[1..] == sb; }
      assert sa == Pad2(a)[1..] == sb;
    } else if |sa| >= 2 && |sb| >= 2 {
      assert sa == Pad2(a) == Pad2(b) == sb;
    } else {
      assert false;
    }
    NatToStringInjective(a, b);
  }

  /** The padded form is at least two characters long and only digits. */
  lemma Pad2Digits(n: nat)
    ensures 2 <= |Pad2(n)| && AllDigits(Pad2(n))
  {
    var s := NatToString(n);
    var p := Pad2(n);
    var k := |p| - |s|;
    forall i | 0 <= i < |p| ensures IsDigit(p[i]) {
      if i >= k {
        assert p[k..][i - k] == s[i - k];
      }
    }
  }

  /** Numbers below 100 pad to exactly two characters. */
  lemma Pad2Short(n: nat)
    requires n < 100
    ensures |Pad2(n)| == 2
  {
    if n >= 10 {
      assert |NatToString(n / 10)| == 1;
    }
  }
}
