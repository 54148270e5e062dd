/** Decimal text of signed 64-bit integers. */
module Decimal {
  import opened Prelude

  const MIN_I64: int := -0x8000_0000_0000_0000
  const MAX_I64: int := 0x7fff_ffff_ffff_ffff

  predicate IsI64(n: int) {
    MIN_I64 <= n <= MAX_I64
  }

  predicate IsDigit(c: char) {
    '0' <= c <= '9'
  }

  predicate AllDigits(s: string) {
    forall i :: 0 <= i < |s| ==> IsDigit(s[i])
  }

  function NatText(n: nat): (s: string)
    ensures s != [] && AllDigits(s)
  {
    var last := [('0' as int + n % 10) as char];
    if n < 10 then last else NatText(n / 10) + last
  }

  function IntText(n: int): string {
    if n < 0 then "-" + NatText(-n) else NatText(n)
  }

  function DigitsValue(s: string): nat
    requires AllDigits(s)
  {
    if s == [] then 0 else DigitsValue(s[..|s| - 1]) * 10 + (s[|s| - 1] as int - '0' as int)
  }

  /** An optional sign, at least one digit, nothing else, and in range. */
  function ParseI64(s: string): (r: Option<int>)
    ensures r.Some? ==> IsI64(r.value)
  {
    var signed := s != [] && (s[0] == '-' || s[0] == '+');
    var digits := if signed then s[1..] else s;
    if digits == [] || !AllDigits(digits) then None
    else
      var value := if s[0] == '-' then -(DigitsValue(digits) as int) else DigitsValue(digits);
      if IsI64(value) then Some(value) else None
  }

  lemma {:induction false} NatTextValue(n: nat)
    ensures DigitsValue(NatText(n)) == n
  {
    var s := NatText(n);
    if n >= 10 {
      assert s[..|s| - 1] == NatText(n / 10);
      NatTextValue(n / 10);
    } else {
      assert s[..0] == [];
    }
  }

  lemma IntTextRoundTrips(n: int)
    requires IsI64(n)
    ensures ParseI64(IntText(n)) == Some(n)
  {
    NatTextValue(if n < 0 then -n else n);
    var s := IntText(n);
    if n < 0 {
      assert s[1..] == NatText(-n);
    } else {
      assert IsDigit(s[0]);
    }
  }

  /** The text is a sign and digits only. */
  lemma IntTextCharacters(n: int)
    ensures IntText(n) != [] && forall i :: 0 <= i < |IntText(n)| ==> IsDigit(IntText(n)[i]) || IntText(n)[i] == '-'
  {
  }

  lemma DigitsAreDecimal(n: nat, d: nat)
    requires d < 10
    ensures NatText(d) == ["0123456789"[d]]
    ensures n > 0 ==> NatText(10 * n + d) == NatText(n) + ["0123456789"[d]]
  {
    assert (10 * n + d) / 10 == n && (10 * n + d) % 10 == d;
  }

  // ----- What is read -------------------------------------------------------

  function Zeros(n: nat): (s: string)
    ensures |s| == n && forall i :: 0 <= i < n ==> s[i] == '0'
  {
    seq(n, i => '0')
  }

  /** `s` reads as `n`: its decimal text, with leading zeros and a sign allowed, and
      within 64 bits. */
  ghost predicate IsNumber(s: string, n: int) {
    -9223372036854775808 <= n <= 9223372036854775807 && exists sign, zeros :: IsNumberWith(s, n, sign, zeros)
  }

  predicate IsNumberWith(s: string, n: int, sign: string, zeros: nat) {
    && s == sign + (Zeros(zeros) + NatText(if n < 0 then -n else n))
    && if sign == "-" then n <= 0 else n >= 0 && (sign == "" || sign == "+")
  }

  lemma {:induction false} LeadingZeros(zeros: nat, t: string)
    requires AllDigits(t)
    ensures AllDigits(Zeros(zeros) + t) && DigitsValue(Zeros(zeros) + t) == DigitsValue(t)
  {
    var s := Zeros(zeros) + t;
    if t != [] {
      LeadingZeros(zeros, t[..|t| - 1]);
      assert s[..|s| - 1] == Zeros(zeros) + t[..|t| - 1];
    } else if zeros > 0 {
      LeadingZeros(zeros - 1, []);
      assert s[..|s| - 1] == Zeros(zeros - 1) + [];
    }
  }

  /** Digits are leading zeros and the text of their value. */
  lemma {:induction false} DigitsAreText(s: string) returns (zeros: nat)
    requires s != [] && AllDigits(s)
    ensures s == Zeros(zeros) + NatText(DigitsValue(s))
  {
    var init, last := s[..|s| - 1], s[|s| - 1];
    if init == [] || DigitsValue(init) == 0 {
      if init != [] {
        zeros := DigitsAreText(init);
        zeros := zeros + 1;
      } else {
        zeros := 0;
      }
      assert init == Zeros(zeros);
    } else {
      zeros := DigitsAreText(init);
      assert NatText(DigitsValue(s)) == NatText(DigitsValue(init)) + [last];
    }
  }

  lemma SignedParses(sign: string, digits: string, n: int)
    requires sign == "" || sign == "+" || sign == "-"
    requires AllDigits(digits) && digits != [] && IsI64(n)
    requires DigitsValue(digits) == if sign == "-" then -n else n
    ensures ParseI64(sign + digits) == Some(n)
  {
    var s := sign + digits;
    if sign == "" {
      assert s == digits && IsDigit(s[0]);
    } else {
      assert s[0] == sign[0] && s[1..] == digits;
    }
  }

  lemma NumbersParse(s: string, n: int, sign: string, zeros: nat)
    requires IsI64(n) && IsNumberWith(s, n, sign, zeros)
    ensures ParseI64(s) == Some(n)
  {
    var size := if n < 0 then -n else n;
    NatTextValue(size);
    LeadingZeros(zeros, NatText(size));
    SignedParses(sign, Zeros(zeros) + NatText(size), n);
  }

  lemma ParsedIsNumber(s: string) returns (sign: string, zeros: nat)
    requires ParseI64(s).Some?
    ensures IsNumberWith(s, ParseI64(s).value, sign, zeros)
  {
    sign := if s[0] == '-' || s[0] == '+' then [s[0]] else "";
    var digits := s[|sign|..];
    zeros := DigitsAreText(digits);
    assert s == sign + digits;
  }

  /** Exactly the texts of numbers are read, as those numbers. */
  lemma ParsesExactly(s: string, n: int)
    ensures ParseI64(s) == Some(n) <==> IsNumber(s, n)
  {
    if IsNumber(s, n) {
      var sign, zeros :| IsNumberWith(s, n, sign, zeros);
      NumbersParse(s, n, sign, zeros);
    }
    if ParseI64(s) == Some(n) {
      var sign, zeros := ParsedIsNumber(s);
    }
  }
}
