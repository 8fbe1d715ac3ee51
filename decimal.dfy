/** Go's strconv.Atoi on a 64-bit platform, as parseRow uses it for the id
    column: an optional sign, then one or more decimal digits, whose value
    must fit in an `int`. */
module Decimal {
  import opened Wrappers

  /** The range of Go's 64-bit `int`. */
  const IntMin: int := -0x8000_0000_0000_0000
  const IntMax: int := 0x7fff_ffff_ffff_ffff

  predicate IsDigit(c: char) { '0' <= c <= '9' }

  predicate AllDigits(s: string) { forall i | 0 <= i < |s| :: IsDigit(s[i]) }

  function DigitValue(c: char): (d: nat)
    requires IsDigit(c)
    ensures d < 10
  {
    c as int - '0' as int
  }

  function DigitChar(d: nat): (c: char)
    requires d < 10
    ensures IsDigit(c) && DigitValue(c) == d
  {
    ('0' as int + d) as char
  }

  /** The value of a run of decimal digits, most significant digit first. */
  function DigitsValue(s: string): nat
    requires AllDigits(s)
  {
    if s == [] then 0 else DigitsValue(s[..|s| - 1]) * 10 + DigitValue(s[|s| - 1])
  }

  /** What follows the optional leading sign. */
  function Unsigned(s: string): (u: string)
    ensures |u| <= |s| && u == s[|s| - |u|..]
  {
    if |s| > 0 && (s[0] == '-' || s[0] == '+') then s[1..] else s
  }

  /** strconv.Atoi: Some(value) for a well-formed decimal integer in range,
      None for a syntax or range error. */
  function Atoi(s: string): (r: Option<int>)
    ensures r.Some? ==> IntMin <= r.value <= IntMax
    ensures r.Some? ==> |Unsigned(s)| > 0 && AllDigits(Unsigned(s))
    ensures r.Some? ==> (r.value < 0 ==> s[0] == '-')
  {
    var digits := Unsigned(s);
    if |digits| == 0 || !AllDigits(digits) then None
    else
      var n := if s[0] == '-' then -(DigitsValue(digits) as int) else DigitsValue(digits);
      if IntMin <= n <= IntMax then Some(n) else None
  }

  /** strconv.Itoa for a non-negative value: its shortest decimal text. */
  function FormatNat(n: nat): (s: string)
    ensures |s| > 0 && AllDigits(s)
    ensures s[0] != '-' && s[0] != '+'
  {
    if n < 10 then [DigitChar(n)] else FormatNat(n / 10) + [DigitChar(n % 10)]
  }

  /** strconv.Itoa: a minus sign for negative values, then the digits. */
  function FormatInt(n: int): (s: string)
  {
    if n < 0 then "-" + FormatNat(-n) else FormatNat(n)
  }

  /** The optional sign in front of the digits. */
  datatype Sign = NoSign | Plus | Minus

  function SignText(sign: Sign): string
  {
    match sign
    case NoSign => ""
    case Plus => "+"
    case Minus => "-"
  }

  /** The value a sign gives to a magnitude. */
  function Signed(sign: Sign, magnitude: nat): int
  {
    if sign == Minus then -(magnitude as int) else magnitude
  }

  /** `n` zero digits. */
  function Zeros(n: nat): (z: string)
    ensures |z| == n && forall i | 0 <= i < n :: z[i] == '0'
  {
    if n == 0 then [] else "0" + Zeros(n - 1)
  }

  /** A decimal text as strconv.Atoi reads it: an optional sign, any number
      of leading zeros, then the shortest digits of the magnitude. */
  function DecimalText(sign: Sign, zeros: nat, magnitude: nat): string
  {
    SignText(sign) + Zeros(zeros) + FormatNat(magnitude)
  }

  lemma {:induction false} DigitsValueOfFormatNat(n: nat)
    ensures DigitsValue(FormatNat(n)) == n
  {
    var s := FormatNat(n);
    if n >= 10 {
      DigitsValueOfFormatNat(n / 10);
      assert s[..|s| - 1] == FormatNat(n / 10);
    }
  }

  /** A sign followed by digits is read as the signed value of the digits
      when that value is in range, and refused otherwise. */
  lemma AtoiSignDigits(sign: Sign, digits: string)
    requires |digits| > 0 && AllDigits(digits)
    ensures var v := Signed(sign, DigitsValue(digits));
            Atoi(SignText(sign) + digits) == if IntMin <= v <= IntMax then Some(v) else None
  {
    var s := SignText(sign) + digits;
    match sign
    case NoSign =>
      assert s == digits && IsDigit(digits[0]);
      assert Unsigned(s) == digits;
    case Plus =>
      assert s[0] == '+' && s[1..] == digits;
      assert Unsigned(s) == digits;
    case Minus =>
      assert s[0] == '-' && s[1..] == digits;
      assert Unsigned(s) == digits;
  }

  /** Itoa's text of `n` is its sign (a minus or nothing) and the digits of
      its magnitude. */
  lemma FormatIntParts(n: int) returns (sign: Sign, magnitude: nat)
    ensures FormatInt(n) == SignText(sign) + FormatNat(magnitude)
    ensures Signed(sign, DigitsValue(FormatNat(magnitude))) == n
  {
    if n < 0 {
      sign, magnitude := Minus, -n;
    } else {
      sign, magnitude := NoSign, n;
      assert FormatInt(n) == "" + FormatNat(n);
    }
    DigitsValueOfFormatNat(magnitude);
  }

  /** Atoi reads back every in-range value Itoa writes. */
  lemma AtoiFormatInt(n: int)
    requires IntMin <= n <= IntMax
    ensures Atoi(FormatInt(n)) == Some(n)
  {
    var sign, magnitude := FormatIntParts(n);
    AtoiSignDigits(sign, FormatNat(magnitude));
  }

  /** Atoi rejects the text of every value outside the 64-bit range. */
  lemma AtoiRejectsOutOfRange(n: int)
    requires n < IntMin || IntMax < n
    ensures Atoi(FormatInt(n)) == None
  {
    var sign, magnitude := FormatIntParts(n);
    AtoiSignDigits(sign, FormatNat(magnitude));
  }

  /** Every in-range decimal text is accepted, with its value: an explicit
      sign and leading zeros are allowed ("+007" is 7, "-0" is 0). */
  lemma AtoiDecimalText(sign: Sign, zeros: nat, magnitude: nat)
    requires IntMin <= Signed(sign, magnitude) <= IntMax
    ensures Atoi(DecimalText(sign, zeros, magnitude)) == Some(Signed(sign, magnitude))
  {
    var digits := Zeros(zeros) + FormatNat(magnitude);
    LeadingZeros(zeros, FormatNat(magnitude));
    DigitsValueOfFormatNat(magnitude);
    assert DecimalText(sign, zeros, magnitude) == SignText(sign) + digits;
    AtoiSignDigits(sign, digits);
  }

  /** Every text Atoi accepts is such a decimal text, of the value it returns. */
  lemma AtoiReadsDecimalText(s: string) returns (sign: Sign, zeros: nat, magnitude: nat)
    requires Atoi(s).Some?
    ensures s == DecimalText(sign, zeros, magnitude)
    ensures Atoi(s).value == Signed(sign, magnitude)
  {
    sign := SignOf(s);
    magnitude := DigitsValue(Unsigned(s));
    zeros := CanonicalForm(Unsigned(s));
  }

  /** The sign Atoi reads in front of the digits. */
  lemma SignOf(s: string) returns (sign: Sign)
    requires |s| > 0
    ensures s == SignText(sign) + Unsigned(s)
    ensures sign == Minus <==> s[0] == '-'
  {
    if s[0] == '-' {
      sign := Minus;
      assert s == [s[0]] + s[1..];
    } else if s[0] == '+' {
      sign := Plus;
      assert s == [s[0]] + s[1..];
    } else {
      sign := NoSign;
    }
  }

  /** Atoi accepts exactly the in-range decimal texts, and returns their value. */
  lemma AtoiIff(s: string, n: int)
    ensures Atoi(s) == Some(n) <==>
      IntMin <= n <= IntMax &&
      exists sign: Sign, zeros: nat, magnitude: nat ::
        s == DecimalText(sign, zeros, magnitude) && n == Signed(sign, magnitude)
  {
    if Atoi(s) == Some(n) {
      var sign, zeros, magnitude := AtoiReadsDecimalText(s);
    }
    if IntMin <= n <= IntMax &&
       exists sign: Sign, zeros: nat, magnitude: nat ::
         s == DecimalText(sign, zeros, magnitude) && n == Signed(sign, magnitude) {
      var sign: Sign, zeros: nat, magnitude: nat :|
        s == DecimalText(sign, zeros, magnitude) && n == Signed(sign, magnitude);
      AtoiDecimalText(sign, zeros, magnitude);
    }
  }

  /** A non-empty run of digits is some leading zeros, then the shortest
      digits of its value. */
  lemma {:induction false} CanonicalForm(t: string) returns (zeros: nat)
    requires |t| > 0 && AllDigits(t)
    ensures t == Zeros(zeros) + FormatNat(DigitsValue(t))
    decreases |t|
  {
    if |t| == 1 || t[0] != '0' {
      zeros := 0;
      FormatNatOfDigits(t);
      assert Zeros(0) + t == t;
    } else {
      var rest := t[1..];
      var z := CanonicalForm(rest);
      LeadingZero(rest);
      assert t == "0" + rest;
      zeros := z + 1;
      assert Zeros(zeros) + FormatNat(DigitsValue(rest)) == "0" + (Zeros(z) + FormatNat(DigitsValue(rest)));
    }
  }

  /** Digits without a leading zero (or the single digit "0") are the shortest
      text of their value. */
  lemma {:induction false} FormatNatOfDigits(t: string)
    requires |t| > 0 && AllDigits(t) && (|t| == 1 || t[0] != '0')
    ensures FormatNat(DigitsValue(t)) == t
    decreases |t|
  {
    var last := t[|t| - 1];
    assert DigitChar(DigitValue(last)) == last;
    if |t| == 1 {
      assert t == [last];
    } else {
      var init := t[..|t| - 1];
      FormatNatOfDigits(init);
      PositiveValue(init);
      var v := DigitsValue(t);
      assert v == DigitsValue(init) * 10 + DigitValue(last);
      assert v / 10 == DigitsValue(init) && v % 10 == DigitValue(last);
      assert t == init + [last];
    }
  }

  /** Digits that do not start with '0' have a positive value. */
  lemma {:induction false} PositiveValue(t: string)
    requires |t| > 0 && AllDigits(t) && t[0] != '0'
    ensures DigitsValue(t) >= 1
    decreases |t|
  {
    if |t| > 1 {
      PositiveValue(t[..|t| - 1]);
    }
  }

  /** One leading zero changes neither the digits' form nor their value. */
  lemma {:induction false} LeadingZero(u: string)
    requires AllDigits(u)
    ensures AllDigits("0" + u) && DigitsValue("0" + u) == DigitsValue(u)
    decreases |u|
  {
    if u != [] {
      var init := u[..|u| - 1];
      LeadingZero(init);
      assert ("0" + u)[..|u|] == "0" + init;
    }
  }

  /** Leading zeros change neither the digits' form nor their value. */
  lemma {:induction false} LeadingZeros(zeros: nat, t: string)
    requires AllDigits(t)
    ensures AllDigits(Zeros(zeros) + t) && DigitsValue(Zeros(zeros) + t) == DigitsValue(t)
    decreases zeros
  {
    if zeros == 0 {
      assert Zeros(0) + t == t;
    } else {
      LeadingZeros(zeros - 1, t);
      assert Zeros(zeros) + t == "0" + (Zeros(zeros - 1) + t);
      LeadingZero(Zeros(zeros - 1) + t);
    }
  }
}
