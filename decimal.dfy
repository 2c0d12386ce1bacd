/**
 * Python's `str(n)` on an integer and `int(s)` on a string of decimal
 * digits, enough to state what `int(str(n)[2:])` computes
 * (HistogramMatching.py:429-451).
 */
module Decimal {
  import opened PyNum

  function Pow10(k: nat): (p: nat)
    ensures p >= 1
  {
    if k == 0 then 1 else 10 * Pow10(k - 1)
  }

  predicate IsDigit(c: char)
  {
    '0' <= c <= '9'
  }

  predicate AllDigits(s: string)
  {
    forall i :: 0 <= i < |s| ==> IsDigit(s[i])
  }

  function DigitChar(d: nat): (c: char)
    requires d < 10
    ensures IsDigit(c)
  {
    (48 + d) as char
  }

  /** `str(n)` for n >= 0: its decimal digits, most significant first, without leading zeros. */
  function NatStr(n: nat): (s: string)
    ensures |s| >= 1 && AllDigits(s)
  {
    if n < 10 then [DigitChar(n)] else NatStr(n / 10) + [DigitChar(n % 10)]
  }

  /** `str(n)` for any integer. */
  function Str(n: int): (s: string)
    ensures |s| >= 1
  {
    if n < 0 then "-" + NatStr(-n) else NatStr(n)
  }

  /** `int(s)` on a string of decimal digits (leading zeros allowed, as in Python). */
  function ParseDigits(s: string): nat
    requires AllDigits(s)
  {
    if s == [] then 0 else ParseDigits(s[..|s| - 1]) * 10 + (s[|s| - 1] as int - 48)
  }

  /** `int(str(n)) == n`. */
  lemma {:induction false} ParseNatStr(n: nat)
    ensures ParseDigits(NatStr(n)) == n
  {
    if n >= 10 {
      ParseNatStr(n / 10);
      var s := NatStr(n);
      assert s[..|s| - 1] == NatStr(n / 10);
    }
  }

  /** A digit string of length k denotes a number below 10^k. */
  lemma {:induction false} ParseBound(s: string)
    requires AllDigits(s)
    ensures ParseDigits(s) < Pow10(|s|)
  {
    if s != [] {
      ParseBound(s[..|s| - 1]);
    }
  }

  /** Splitting a digit string at k splits its value into a high and a low part. */
  lemma {:induction false} ParseSplit(s: string, k: nat)
    requires AllDigits(s) && k <= |s|
    ensures ParseDigits(s) == ParseDigits(s[..k]) * Pow10(|s| - k) + ParseDigits(s[k..])
    decreases |s| - k
  {
    if k == |s| {
      assert s[..k] == s && s[k..] == [];
    } else {
      var init := s[..|s| - 1];
      ParseSplit(init, k);
      assert init[..k] == s[..k];
      assert s[k..][..|s| - k - 1] == init[k..];
      var a, p, b := ParseDigits(s[..k]), Pow10(|init| - k), ParseDigits(init[k..]);
      var c := s[|s| - 1] as int - 48;
      assert ParseDigits(s[k..]) == b * 10 + c;
      Regroup(a, p, b, c);
    }
  }

  lemma Regroup(a: int, p: int, b: int, c: int)
    ensures (a * p + b) * 10 + c == a * (10 * p) + (b * 10 + c)
  {
  }

  /** Dropping the k leading digits keeps the value modulo 10^(|s|-k). */
  lemma ParseSuffix(s: string, k: nat)
    requires AllDigits(s) && k <= |s|
    ensures ParseDigits(s[k..]) == ParseDigits(s) % Pow10(|s| - k)
  {
    ParseSplit(s, k);
    ParseBound(s[k..]);
    DivModOfMulAdd(ParseDigits(s[..k]), Pow10(|s| - k), ParseDigits(s[k..]));
  }

  /** A number between 10^(k-1) and 10^k has k digits. */
  lemma {:induction false} NatStrLength(n: nat, k: nat)
    requires k >= 1 && Pow10(k - 1) <= n < Pow10(k)
    ensures |NatStr(n)| == k
  {
    if k > 1 {
      assert Pow10(k - 1) == 10 * Pow10(k - 2);
      NatStrLength(n / 10, k - 1);
    }
  }

  /** What `int(str(n)[2:])` needs: at least one character left after dropping two. */
  predicate TailDefined(n: int)
  {
    |Str(n)| >= 3
  }

  /** `int(str(n)[2:])`. */
  function PyTail(n: int): (t: int)
    requires TailDefined(n)
    ensures 0 <= t < Pow10(|Str(n)| - 2)
  {
    ParseBound(Str(n)[2..]);
    ParseDigits(Str(n)[2..])
  }

  /** For a six-digit number, `int(str(n)[2:])` is its last four digits. */
  lemma PyTailSixDigits(n: int)
    requires 100000 <= n <= 999999
    ensures TailDefined(n) && PyTail(n) == n % 10000
  {
    assert Pow10(5) == 100000 && Pow10(6) == 1000000 && Pow10(4) == 10000;
    NatStrLength(n, 6);
    ParseSuffix(NatStr(n), 2);
    ParseNatStr(n);
  }

  /** For a five-digit number only the last three digits survive. */
  lemma PyTailFiveDigits(n: int)
    requires 10000 <= n <= 99999
    ensures TailDefined(n) && PyTail(n) == n % 1000
  {
    assert Pow10(4) == 10000 && Pow10(5) == 100000 && Pow10(3) == 1000;
    NatStrLength(n, 5);
    ParseSuffix(NatStr(n), 2);
    ParseNatStr(n);
  }

  /** A character of `str(n)` is a digit or the minus sign. */
  lemma StrChars(n: int, i: nat)
    requires i < |Str(n)|
    ensures IsDigit(Str(n)[i]) || (i == 0 && Str(n)[i] == '-')
  {
  }

  /** `str(n)` starts with a minus sign exactly when n is negative. */
  lemma StrSign(n: int)
    ensures Str(n)[0] == '-' <==> n < 0
  {
    StrChars(n, 0);
  }

  /** `str` is injective on integers: the decimal forms of two different numbers differ. */
  lemma StrInjective(a: int, b: int)
    requires Str(a) == Str(b)
    ensures a == b
  {
    StrSign(a);
    StrSign(b);
    if a >= 0 && b >= 0 {
      ParseNatStr(a);
      ParseNatStr(b);
    } else if a < 0 && b < 0 {
      var na, nb := -a, -b;
      assert NatStr(na) == Str(a)[1..] == Str(b)[1..] == NatStr(nb);
      ParseNatStr(na);
      ParseNatStr(nb);
    }
  }
}
