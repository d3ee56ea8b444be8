/** Decimal text as Rust's `{}` and `{:0w}` formats print integers, and the
    value that such text stands for. */
module Decimal {
  import opened Common

  function Digit(n: nat): char
    requires n < 10
  {
    '0' + n as char
  }

  predicate IsDigit(c: char) { '0' <= c <= '9' }

  function Digits(n: nat): (s: string) {
    if n < 10 then [Digit(n)] else Digits(n / 10) + [Digit(n % 10)]
  }

  predicate AllDigits(s: string) { forall i :: 0 <= i < |s| ==> IsDigit(s[i]) }

  function ReadDigits(s: string): nat
    requires AllDigits(s)
  {
    if s == [] then 0 else 10 * ReadDigits(s[..|s| - 1]) + (s[|s| - 1] as int - '0' as int)
  }

  /** The integer that digits stand for, with or without a minus sign. */
  function ReadInteger(s: string): Option<int> {
    var negative := s != [] && s[0] == '-';
    var digits := if negative then s[1..] else s;
    if digits == [] || !AllDigits(digits) then None
    else Some(if negative then 0 - ReadDigits(digits) else ReadDigits(digits))
  }

  function Zeros(n: nat): string { seq(n, _ => '0') }

  function PadLeft(s: string, width: nat): string {
    if |s| >= width then s else Zeros(width - |s|) + s
  }

  /** `{n:0width}`: the sign counts toward the width. */
  function Format(n: int, width: nat): string
    requires width > 0
  {
    if n >= 0 then PadLeft(Digits(n), width) else "-" + PadLeft(Digits(-n), width - 1)
  }

  lemma {:induction false} DigitsValue(n: nat)
    ensures AllDigits(Digits(n))
    ensures ReadDigits(Digits(n)) == n
    ensures Digits(n) != [] && (Digits(n)[0] == '0' ==> n == 0)
  {
    if n >= 10 {
      DigitsValue(n / 10);
      assert Digits(n)[..|Digits(n)| - 1] == Digits(n / 10);
    } else {
      assert Digits(n)[..0] == [];
    }
  }

  lemma {:induction false} ZerosValue(k: nat, s: string)
    requires AllDigits(s)
    ensures ReadDigits(Zeros(k) + s) == ReadDigits(s)
    decreases k + |s|
  {
    if s != [] {
      var t := Zeros(k) + s;
      assert t[..|t| - 1] == Zeros(k) + s[..|s| - 1];
      ZerosValue(k, s[..|s| - 1]);
    } else if k > 0 {
      assert (Zeros(k) + s)[..k - 1] == Zeros(k - 1) + s;
      ZerosValue(k - 1, s);
    }
  }

  lemma PaddedValue(n: nat, width: nat)
    ensures var s := PadLeft(Digits(n), width);
            AllDigits(s) && s != [] && ReadDigits(s) == n
  {
    DigitsValue(n);
    if |Digits(n)| < width {
      ZerosValue(width - |Digits(n)|, Digits(n));
    }
  }

  lemma FormatParts(n: int, width: nat)
    requires width > 0
    ensures var s := Format(n, width);
            s != [] && (s[0] == '-' <==> n < 0) &&
            var t := if n < 0 then s[1..] else s;
            AllDigits(t) && ReadDigits(t) == if n < 0 then -n else n
  {
    if n >= 0 {
      PaddedValue(n, width);
    } else {
      PaddedValue(-n, width - 1);
    }
  }

  /** A printed integer is read back, is at least as wide as asked for, and wider only without a leading zero. */
  lemma FormatReadBack(n: int, width: nat)
    requires width > 0
    ensures var s := Format(n, width);
            && ReadInteger(s) == Some(n) && |s| >= width
            && (|s| > width ==> s[if n < 0 then 1 else 0] != '0')
  {
    FormatParts(n, width);
    DigitsValue(if n < 0 then -n else n);
    assert n == 0 ==> |Digits(n)| == 1;
  }

  lemma {:induction false} DigitsLength(n: nat, width: nat, bound: nat)
    requires width > 0 && bound == Pow10(width) && n < bound
    ensures |Digits(n)| <= width
  {
    if n >= 10 {
      DigitsLength(n / 10, width - 1, bound / 10);
    }
  }

  function Pow10(k: nat): nat { if k == 0 then 1 else 10 * Pow10(k - 1) }

  lemma TwoDigits(n: nat)
    requires n < 100
    ensures var s := Format(n, 2); |s| == 2 && AllDigits(s) && ReadDigits(s) == n
  {
    assert Pow10(2) == 100;
    DigitsLength(n, 2, 100);
    PaddedValue(n, 2);
  }

  lemma FourDigits(n: nat)
    requires n < 10_000
    ensures var s := Format(n, 4); |s| == 4 && AllDigits(s) && ReadDigits(s) == n
  {
    assert Pow10(2) == 100 && Pow10(4) == 10_000;
    DigitsLength(n, 4, 10_000);
    PaddedValue(n, 4);
  }

  lemma SixDigits(n: nat)
    requires n < 1_000_000
    ensures var s := Format(n, 6); |s| == 6 && AllDigits(s) && ReadDigits(s) == n
  {
    assert Pow10(3) == 1000 && Pow10(6) == 1_000_000;
    DigitsLength(n, 6, 1_000_000);
    PaddedValue(n, 6);
  }

  lemma FormatCharacters(n: int, width: nat)
    requires width > 0
    ensures forall i :: 0 <= i < |Format(n, width)| ==> IsDigit(Format(n, width)[i]) || Format(n, width)[i] == '-'
  {
    if n >= 0 { PaddedValue(n, width); } else { PaddedValue(-n, width - 1); }
  }
}
