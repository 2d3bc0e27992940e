/** Positional notation: the base-36 session suffix and the zero-padded decimal sequence number. */
module Digits {
  const ALPHABET := "0123456789abcdefghijklmnopqrstuvwxyz"

  predicate IsDigit(c: char) {
    '0' <= c <= '9'
  }

  predicate IsSuffixChar(c: char) {
    IsDigit(c) || 'a' <= c <= 'z'
  }

  predicate AllDigits(s: string) {
    forall i :: 0 <= i < |s| ==> IsDigit(s[i])
  }

  predicate AllSuffixChars(s: string) {
    forall i :: 0 <= i < |s| ==> IsSuffixChar(s[i])
  }

  function DigitChar(d: nat): (c: char)
    requires d < 36
    ensures IsSuffixChar(c) && DigitValue(c) == d
    ensures d < 10 <==> IsDigit(c)
  {
    ALPHABET[d]
  }

  function DigitValue(c: char): (d: nat)
    requires IsSuffixChar(c)
    ensures d < 36 && (IsDigit(c) <==> d < 10)
  {
    if IsDigit(c) then c as int - '0' as int else c as int - 'a' as int + 10
  }

  lemma DigitCharOfValue(c: char)
    requires IsSuffixChar(c)
    ensures DigitChar(DigitValue(c)) == c
  {
  }

  // ---------------------------------------------------------------- base 36

  function Value36(s: string): nat
    requires AllSuffixChars(s)
  {
    if s == "" then 0 else Value36(s[..|s| - 1]) * 36 + DigitValue(s[|s| - 1])
  }

  /** `v` in exactly `width` base-36 digits, most significant first. */
  function Text36(v: nat, width: nat): (s: string)
    ensures |s| == width && AllSuffixChars(s)
    decreases width, v
  {
    if width == 0 then "" else Text36(v / 36, width - 1) + [DigitChar(v % 36)]
  }

  function Pow36(width: nat): (p: nat)
    ensures p >= 1
  {
    if width == 0 then 1 else Pow36(width - 1) * 36
  }

  lemma {:induction false} ValueOfText36(v: nat, width: nat)
    requires v < Pow36(width)
    ensures Value36(Text36(v, width)) == v
    decreases width
  {
    if width > 0 {
      var s := Text36(v, width);
      assert s[..width - 1] == Text36(v / 36, width - 1);
      ValueOfText36(v / 36, width - 1);
    }
  }

  lemma {:induction false} TextOfValue36(s: string)
    requires AllSuffixChars(s)
    ensures Value36(s) < Pow36(|s|) && Text36(Value36(s), |s|) == s
    decreases |s|
  {
    if s != "" {
      var front, last := s[..|s| - 1], s[|s| - 1];
      TextOfValue36(front);
      DigitCharOfValue(last);
      PushedDigit(Value36(front), DigitValue(last));
      assert s == front + [last];
    }
  }

  lemma PushedDigit(high: nat, low: nat)
    requires low < 36
    ensures (high * 36 + low) / 36 == high && (high * 36 + low) % 36 == low
  {
  }

  // ---------------------------------------------------------------- decimal

  function Value10(s: string): nat
    requires AllDigits(s)
  {
    if s == "" then 0 else Value10(s[..|s| - 1]) * 10 + DigitValue(s[|s| - 1])
  }

  function Pow10(width: nat): (p: nat)
    ensures p >= 1
  {
    if width == 0 then 1 else Pow10(width - 1) * 10
  }

  /** Shortest decimal text of `n`. */
  function Decimal(n: nat): (s: string)
    ensures s != "" && AllDigits(s)
  {
    if n < 10 then [DigitChar(n)] else Decimal(n / 10) + [DigitChar(n % 10)]
  }

  function Zeros(k: nat): (s: string)
    ensures |s| == k && forall i :: 0 <= i < k ==> s[i] == '0'
  {
    seq(k, _ => '0')
  }

  /** `{n:0width$}`: at least `width` digits, zero-padded on the left, never truncated. */
  function Padded(n: nat, width: nat): (s: string)
    ensures s != "" && AllDigits(s) && |s| >= width
  {
    var text := Decimal(n);
    if |text| < width then Zeros(width - |text|) + text else text
  }

  lemma {:induction false} ValueOfDecimal(n: nat)
    ensures Value10(Decimal(n)) == n
  {
    var s := Decimal(n);
    if n >= 10 {
      assert s[..|s| - 1] == Decimal(n / 10);
      ValueOfDecimal(n / 10);
    } else {
      assert s[..0] == "";
    }
  }

  lemma {:induction false} LeadingZeros(k: nat, s: string)
    requires AllDigits(s)
    ensures Value10(Zeros(k) + s) == Value10(s)
    decreases |s| + k
  {
    var t := Zeros(k) + s;
    if s != "" {
      assert t[..|t| - 1] == Zeros(k) + s[..|s| - 1];
      LeadingZeros(k, s[..|s| - 1]);
    } else if k > 0 {
      assert t[..|t| - 1] == Zeros(k - 1) + "";
      LeadingZeros(k - 1, "");
    } else {
      assert t == "";
    }
  }

  /** Padding loses nothing: a label reads back as its number, so labels are injective. */
  lemma ValueOfPadded(n: nat, width: nat)
    ensures Value10(Padded(n, width)) == n
  {
    ValueOfDecimal(n);
    var text := Decimal(n);
    if |text| < width {
      LeadingZeros(width - |text|, text);
    }
  }

  lemma {:induction false} DecimalLength(n: nat, width: nat)
    requires width >= 1
    ensures |Decimal(n)| <= width <==> n < Pow10(width)
    decreases n
  {
    if n >= 10 {
      if width == 1 {
        assert Pow10(1) == 10 * Pow10(0);
      } else {
        DecimalLength(n / 10, width - 1);
      }
    } else {
      assert Pow10(width) == Pow10(width - 1) * 10;
    }
  }
}
