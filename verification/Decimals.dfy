/** Decimal text of natural numbers, as printed by format and read back by parseLong and parseInt. */
module Decimals {

  predicate IsDigit(c: char) {
    '0' <= c <= '9'
  }

  predicate AllDigits(s: string) {
    forall i :: 0 <= i < |s| ==> IsDigit(s[i])
  }

  function DigitChar(d: nat): char
    requires d < 10
  {
    d as char + '0'
  }

  function DigitValue(c: char): nat
    requires IsDigit(c)
  {
    (c - '0') as nat
  }

  /** %d of a number that is not negative. */
  function ToText(n: nat): (s: string)
    ensures s != "" && AllDigits(s)
  {
    if n < 10 then [DigitChar(n)] else ToText(n / 10) + [DigitChar(n % 10)]
  }

  function FromText(s: string): nat
    requires AllDigits(s)
  {
    if s == "" then 0 else FromText(s[..|s| - 1]) * 10 + DigitValue(s[|s| - 1])
  }

  /** %0nd of a number that is not negative. */
  function Padded(n: nat, width: nat): (s: string)
    ensures s != "" && AllDigits(s)
  {
    var s := ToText(n);
    if |s| >= width then s else Zeros(width - |s|) + s
  }

  function Zeros(n: nat): (s: string)
    ensures |s| == n && AllDigits(s)
  {
    seq(n, _ => '0')
  }

  lemma {:induction false} TextReadsBack(n: nat)
    ensures FromText(ToText(n)) == n
  {
    if n >= 10 {
      TextReadsBack(n / 10);
      assert ToText(n)[..|ToText(n)| - 1] == ToText(n / 10);
    }
  }

  lemma {:induction false} ZerosDoNotCount(k: nat, s: string)
    requires AllDigits(s)
    ensures FromText(Zeros(k) + s) == FromText(s)
  {
    var z := Zeros(k) + s;
    if s != "" {
      assert z[..|z| - 1] == Zeros(k) + s[..|s| - 1];
      ZerosDoNotCount(k, s[..|s| - 1]);
    } else if k > 0 {
      assert z[..|z| - 1] == Zeros(k - 1) + "";
      ZerosDoNotCount(k - 1, "");
    }
  }

  lemma PaddedReadsBack(n: nat, width: nat)
    ensures FromText(Padded(n, width)) == n
  {
    TextReadsBack(n);
    if |ToText(n)| < width {
      ZerosDoNotCount(width - |ToText(n)|, ToText(n));
    }
  }

  // ----- One text for each number

  predicate NoLeadingZero(s: string) {
    |s| > 1 ==> s[0] != '0'
  }

  lemma {:induction false} TextShape(n: nat)
    ensures NoLeadingZero(ToText(n)) && (n > 0 ==> ToText(n)[0] != '0')
    ensures (n < 10 ==> |ToText(n)| == 1) && (n < 100 ==> |ToText(n)| <= 2) && (n < 1000 ==> |ToText(n)| <= 3)
  {
    if n < 10 {
    } else {
      TextShape(n / 10);
    }
  }

  lemma PaddedShape(n: nat, width: nat)
    requires (width == 2 && n < 100) || (width == 3 && n < 1000)
    ensures |Padded(n, width)| == width
  {
    TextShape(n);
  }

  lemma LastDigit(s: string)
    requires AllDigits(s) && s != ""
    ensures FromText(s) / 10 == FromText(s[..|s| - 1]) && FromText(s) % 10 == DigitValue(s[|s| - 1])
    ensures DigitChar(FromText(s) % 10) == s[|s| - 1]
  {
  }

  /** Digits of one length are told apart by their number. */
  lemma {:induction false} SameDigits(s: string, t: string)
    requires AllDigits(s) && AllDigits(t) && |s| == |t| && FromText(s) == FromText(t)
    ensures s == t
  {
    if s == "" {
    } else {
      LastDigit(s);
      LastDigit(t);
      SameDigits(s[..|s| - 1], t[..|t| - 1]);
      assert s == s[..|s| - 1] + [s[|s| - 1]] && t == t[..|t| - 1] + [t[|t| - 1]];
    }
  }

  /** Without leading zeros there is one text for each number. */
  lemma {:induction false} OnlyText(s: string)
    requires AllDigits(s) && s != "" && NoLeadingZero(s)
    ensures s == ToText(FromText(s))
    ensures s[0] != '0' ==> FromText(s) > 0
  {
    var init := s[..|s| - 1];
    LastDigit(s);
    assert s == init + [s[|s| - 1]];
    if init == "" {
      assert FromText(init) == 0;
    } else {
      OnlyText(init);
    }
  }
}
