/** The string operations the reports and the roll-number handling rely on:
    Python's `str(int)`, `int(str)`, `f"{s:<n}"`, `c * n` and `s.split('.')[0]`. */
module Text {
  import opened Wrappers

  /** `c * n`: n copies of the character c. */
  function Repeat(c: char, n: nat): (r: string)
    ensures |r| == n
    ensures forall i :: 0 <= i < n ==> r[i] == c
  {
    seq(n, _ => c)
  }

  /** `f"{s:<width}"`: s left-justified in a field of `width` characters;
      a longer s is kept whole, never truncated. */
  function PadRight(s: string, width: nat): (r: string)
    ensures |r| == if |s| < width then width else |s|
    ensures r[..|s|] == s
    ensures forall i :: |s| <= i < |r| ==> r[i] == ' '
  {
    s + Repeat(' ', if |s| < width then width - |s| else 0)
  }

  /** `s.rstrip(' ')`: s without its trailing spaces. */
  function TrimRight(s: string): (r: string)
    ensures r <= s
    ensures r == [] || r[|r| - 1] != ' '
    ensures forall i :: |r| <= i < |s| ==> s[i] == ' '
  {
    if s == [] || s[|s| - 1] != ' ' then s else TrimRight(s[..|s| - 1])
  }

  /** Padding is undone by stripping trailing spaces, so a padded report field
      can be read back whenever the value itself does not end in a space. */
  lemma {:induction false} TrimPadRight(s: string, width: nat)
    requires s == [] || s[|s| - 1] != ' '
    ensures TrimRight(PadRight(s, width)) == s
  {
    TrimSpaces(s, if |s| < width then width - |s| else 0);
  }

  lemma {:induction false} TrimSpaces(s: string, k: nat)
    requires s == [] || s[|s| - 1] != ' '
    ensures TrimRight(s + Repeat(' ', k)) == s
  {
    if k > 0 {
      var t := s + Repeat(' ', k);
      assert t[..|t| - 1] == s + Repeat(' ', k - 1);
      TrimSpaces(s, k - 1);
    } else {
      assert s + Repeat(' ', k) == s;
    }
  }

  predicate IsDigit(c: char)
  {
    '0' <= c <= '9'
  }

  predicate AllDigits(s: string)
  {
    forall i :: 0 <= i < |s| ==> IsDigit(s[i])
  }

  function DigitChar(d: nat): (c: char)
    requires d < 10
  {
    (48 + d) as char
  }

  /** Decimal digits of n, most significant first, without leading zeros. */
  function NatToString(n: nat): (r: string)
    ensures |r| > 0 && AllDigits(r)
    ensures r[0] == '0' ==> n == 0
  {
    if n < 10 then [DigitChar(n)] else NatToString(n / 10) + [DigitChar(n % 10)]
  }

  /** `str(n)` for an int n. */
  function IntToString(n: int): (r: string)
    ensures n >= 0 ==> r == NatToString(n)
    ensures n < 0 ==> r == "-" + NatToString(-n)
  {
    if n < 0 then "-" + NatToString(-n) else NatToString(n)
  }

  /** The value of a string of decimal digits. */
  function DigitsValue(s: string): nat
    requires AllDigits(s)
  {
    if s == [] then 0 else DigitsValue(s[..|s| - 1]) * 10 + (s[|s| - 1] as int - 48)
  }

  /** `int(s)` for a str s: an optional sign followed by decimal digits; None
      where Python raises ValueError. */
  function ParseInt(s: string): (r: Option<int>)
    ensures r.Some? <==>
      (|s| > 0 && AllDigits(s)) || (|s| > 1 && (s[0] == '-' || s[0] == '+') && AllDigits(s[1..]))
  {
    if |s| > 1 && (s[0] == '-' || s[0] == '+') && AllDigits(s[1..]) then
      var v: int := DigitsValue(s[1..]);
      Some(if s[0] == '-' then -v else v)
    else if |s| > 0 && AllDigits(s) then Some(DigitsValue(s))
    else None
  }

  lemma {:induction false} DigitsValueOfNat(n: nat)
    ensures DigitsValue(NatToString(n)) == n
  {
    if n >= 10 {
      var r := NatToString(n);
      assert r[..|r| - 1] == NatToString(n / 10);
      DigitsValueOfNat(n / 10);
    }
  }

  /** `int(str(n)) == n`: a rendered integer reads back as itself. */
  lemma {:induction false} ParseIntToString(n: int)
    ensures ParseInt(IntToString(n)) == Some(n)
  {
    var r := IntToString(n);
    if n < 0 {
      var digits := NatToString(-n);
      assert r[0] == '-' && r[1..] == digits;
      DigitsValueOfNat(-n);
      assert ParseInt(r) == Some(0 - DigitsValue(digits));
    } else {
      assert r[0] != '-' && r[0] != '+';
      DigitsValueOfNat(n);
    }
  }

  /** `s.split('.')[0]`: the text before the first '.', or all of s when it has none. */
  function BeforeDot(s: string): (r: string)
    ensures r <= s
    ensures '.' !in r
    ensures |r| < |s| ==> s[|r|] == '.'
  {
    if s == [] || s[0] == '.' then [] else [s[0]] + BeforeDot(s[1..])
  }
}
