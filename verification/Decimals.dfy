/** Decimal text: how an integer is printed, and how `str::parse::<i32>` reads it back. */
module Decimals {
  import opened Prelude

  const MAX_I32: int := 0x7FFF_FFFF
  const MIN_I32: int := -0x8000_0000

  type i32 = x: int | -0x8000_0000 <= x <= 0x7FFF_FFFF

  predicate IsDigit(c: char) { '0' <= c <= '9' }

  predicate AllDigits(s: string) { forall i :: 0 <= i < |s| ==> IsDigit(s[i]) }

  function DigitValue(c: char): (d: nat)
    requires IsDigit(c)
    ensures d < 10
  {
    (c - '0') as int
  }

  function DigitChar(d: nat): (c: char)
    requires d < 10
    ensures IsDigit(c) && DigitValue(c) == d
  {
    '0' + d as char
  }

  /** The number a string of digits denotes; leading zeros and the empty string are allowed here. */
  function Value(s: string): nat
    requires AllDigits(s)
  {
    if s == "" then 0 else 10 * Value(s[..|s| - 1]) + DigitValue(s[|s| - 1])
  }

  function Digits(n: nat): (s: string)
    ensures 0 < |s| && AllDigits(s)
    decreases n
  {
    if n < 10 then [DigitChar(n)] else Digits(n / 10) + [DigitChar(n % 10)]
  }

  function Signed(i: int): string { if i < 0 then "-" + Digits(-i) else Digits(i) }

  /** `str::parse::<i32>`: an optional sign, at least one digit, nothing else, and a value that fits. */
  function ParseI32(s: string): (r: Option<i32>) {
    var negative := 0 < |s| && s[0] == '-';
    var body := if 0 < |s| && (s[0] == '-' || s[0] == '+') then s[1..] else s;
    if body == "" || !AllDigits(body) then None
    else
      var magnitude: int := Value(body);
      var v := if negative then -magnitude else magnitude;
      if MIN_I32 <= v <= MAX_I32 then Some(v) else None
  }

  lemma {:induction false} ValueOfDigits(n: nat)
    ensures Value(Digits(n)) == n
    decreases n
  {
    if n < 10 {
      assert Digits(n)[..0] == "";
    } else {
      ValueOfDigits(n / 10);
      assert Digits(n)[..|Digits(n)| - 1] == Digits(n / 10);
    }
  }

  function Pow10(k: nat): nat { if k == 0 then 1 else 10 * Pow10(k - 1) }

  /** A number has at most `k` digits exactly when it is below `10^k`, and none of them is a leading zero. */
  lemma {:induction false} DigitsLength(n: nat, k: nat)
    requires k > 0
    ensures |Digits(n)| <= k <==> n < Pow10(k)
    ensures Digits(n)[0] == '0' <==> n == 0
    decreases n
  {
    if n < 10 {
      assert Pow10(1) == 10;
      PowGrows(1, k);
    } else {
      DigitsLength(n / 10, if k > 1 then k - 1 else 1);
      if k == 1 { assert Pow10(1) == 10 && |Digits(n / 10)| >= 1; }
    }
  }

  lemma {:induction false} PowGrows(j: nat, k: nat)
    requires j <= k
    ensures Pow10(j) <= Pow10(k)
    decreases k
  {
    if j < k { PowGrows(j, k - 1); }
  }

  lemma {:induction false} DigitsAreUnsigned(s: string)
    requires AllDigits(s) && s != "" && Value(s) <= MAX_I32
    ensures ParseI32(s) == Some(Value(s))
  {
    hide Value;
    assert IsDigit(s[0]);
  }

  lemma {:induction false} MinusNegates(s: string)
    requires AllDigits(s) && s != "" && MIN_I32 <= 0 - Value(s)
    ensures ParseI32("-" + s) == Some(0 - Value(s))
  {
    hide Value;
    assert ("-" + s)[1..] == s;
  }

  /** Every 32-bit integer is read back from its own text. */
  lemma {:induction false} ParseSigned(i: int)
    requires MIN_I32 <= i <= MAX_I32
    ensures ParseI32(Signed(i)) == Some(i)
  {
    hide Value, Digits, ParseI32;
    if i < 0 {
      ValueOfDigits(-i);
      MinusNegates(Digits(-i));
    } else {
      ValueOfDigits(i);
      DigitsAreUnsigned(Digits(i));
    }
  }

  function Zeros(k: nat): (s: string)
    ensures |s| == k && AllDigits(s)
  {
    seq(k, _ => '0')
  }

  lemma {:induction false} ValueOfZeros(k: nat)
    ensures Value(Zeros(k)) == 0
  {
    if 0 < k {
      ValueOfZeros(k - 1);
      assert Zeros(k)[..k - 1] == Zeros(k - 1);
    }
  }

  /** Leading zeros do not change the number. */
  lemma {:induction false} ZerosDoNotCount(k: nat, s: string)
    requires AllDigits(s)
    ensures AllDigits(Zeros(k) + s) && Value(Zeros(k) + s) == Value(s)
    decreases |s|
  {
    if s == "" {
      ValueOfZeros(k);
      assert Zeros(k) + s == Zeros(k);
    } else {
      ZerosDoNotCount(k, s[..|s| - 1]);
      var t := Zeros(k) + s;
      assert t[..|t| - 1] == Zeros(k) + s[..|s| - 1];
      assert t[|t| - 1] == s[|s| - 1];
    }
  }

  // ---- exactly which texts are read ----

  function Magnitude(v: int): nat { if v < 0 then 0 - v else v }

  /** The digits of a number behind `k` zeros and a sign, which only zero may have either way. */
  predicate Spells(s: string, sign: string, k: nat, v: int) {
    && s == sign + (Zeros(k) + Digits(Magnitude(v)))
    && (((sign == "" || sign == "+") && v >= 0) || (sign == "-" && v <= 0))
  }

  lemma {:induction false} OneMoreDigit(front: string, c: char)
    requires AllDigits(front) && IsDigit(c)
    ensures Value(front + [c]) == 10 * Value(front) + DigitValue(c)
    ensures Value(front) > 0 ==> Digits(Value(front + [c])) == Digits(Value(front)) + [c]
    ensures Value(front) == 0 ==> Digits(Value(front + [c])) == [c]
  {
    assert (front + [c])[..|front|] == front;
    assert DigitChar(DigitValue(c)) == c;
  }

  /** A text of digits is the digits of its number behind zeros. */
  lemma {:induction false} DigitsOfValue(s: string) returns (k: nat)
    requires AllDigits(s) && s != ""
    ensures s == Zeros(k) + Digits(Value(s))
    decreases |s|
  {
    var n := |s| - 1;
    assert s == s[..n] + [s[n]];
    OneMoreDigit(s[..n], s[n]);
    if n == 0 {
      k := 0;
      assert s[..0] == "";
    } else {
      var j := DigitsOfValue(s[..n]);
      k := ZerosBefore(s[..n], s[n], j);
    }
  }

  lemma {:induction false} ZerosBefore(front: string, c: char, j: nat) returns (k: nat)
    requires AllDigits(front) && IsDigit(c) && front == Zeros(j) + Digits(Value(front))
    ensures front + [c] == Zeros(k) + Digits(Value(front + [c]))
  {
    OneMoreDigit(front, c);
    hide Value;
    if Value(front) == 0 {
      k := j + 1;
      assert Digits(0) == "0";
      assert front == Zeros(k);
    } else {
      k := j;
      Associates(Zeros(j), Digits(Value(front)), [c]);
    }
  }

  /** An integer is read exactly from the texts that spell it. */
  lemma {:induction false} ParsedTexts(s: string, v: i32)
    ensures ParseI32(s) == Some(v) <==> exists sign: string, k: nat :: Spells(s, sign, k, v)
  {
    hide Value, Digits, Spells, ParseI32;
    if ParseI32(s) == Some(v) { var sign, k := SpelledOut(s, v); }
    if sign: string, k: nat :| Spells(s, sign, k, v) { SpelledIsRead(s, sign, k, v); }
  }

  lemma {:induction false} SpelledOut(s: string, v: i32) returns (sign: string, k: nat)
    requires ParseI32(s) == Some(v)
    ensures Spells(s, sign, k, v)
  {
    hide Value, Digits;
    sign := if s[0] == '-' || s[0] == '+' then s[..1] else "";
    var body := s[|sign|..];
    assert s == sign + body;
    k := DigitsOfValue(body);
    assert Value(body) == Magnitude(v);
  }

  lemma {:induction false} SpelledIsRead(s: string, sign: string, k: nat, v: i32)
    requires Spells(s, sign, k, v)
    ensures ParseI32(s) == Some(v)
  {
    hide Value, Digits, ParseI32;
    ZerosDoNotCount(k, Digits(Magnitude(v)));
    ValueOfDigits(Magnitude(v));
    ReadWithSign(sign, Zeros(k) + Digits(Magnitude(v)));
  }

  lemma {:induction false} ReadWithSign(sign: string, body: string)
    requires sign == "" || sign == "+" || sign == "-"
    requires AllDigits(body) && body != ""
    ensures var v: int := if sign == "-" then 0 - Value(body) else Value(body);
            ParseI32(sign + body) == if MIN_I32 <= v <= MAX_I32 then Some(v) else None
  {
    hide Value;
    assert (sign + body)[|sign|..] == body;
    if sign == "" { assert IsDigit((sign + body)[0]); }
  }
}
