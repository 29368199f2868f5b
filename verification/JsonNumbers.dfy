/** What a numeral is and what it is worth, spelled out. */
module JsonNumbers {
  import opened Lists
  import opened Json

  ghost predicate AllDigits(s: string) { forall i :: 0 <= i < |s| ==> s[i] in "0123456789" }

  /** Section 6 of RFC 8259, part by part: an optional minus; an integer without leading
      zeros; nothing, or a point and digits; nothing, or an `e`, an optional sign and digits. */
  ghost predicate Parts(s: string, sign: string, whole: string, frac: string, exp: string) {
    && s == sign + whole + frac + exp && sign in {"", "-"}
    && whole != "" && AllDigits(whole) && (whole[0] == '0' ==> whole == "0")
    && IsFrac(frac) && IsExp(exp)
  }

  ghost predicate IsFrac(f: string) { f == "" || (f[0] == '.' && |f| > 1 && AllDigits(f[1..])) }

  ghost predicate IsExp(e: string) {
    e == "" ||
    (e[0] in {'e', 'E'} &&
     ((|e| > 1 && AllDigits(e[1..])) || (|e| > 2 && e[1] in {'+', '-'} && AllDigits(e[2..]))))
  }

  lemma DigitIff(c: char)
    ensures IsDigit(c) <==> c in "0123456789"
  {
    var all := "0123456789";
    if IsDigit(c) { assert all[c as int - '0' as int] == c; }
  }

  /** A run of digits ends where something else follows. */
  lemma {:induction false} RunOf(d: string, rest: string)
    requires AllDigits(d) && (rest == "" || rest[0] !in "0123456789")
    ensures Digits(d + rest) == |d|
  {
    if d == [] {
      assert d + rest == rest;
      if rest != "" { DigitIff(rest[0]); }
    } else {
      DigitIff(d[0]);
      RunOf(d[1..], rest);
      assert (d + rest)[1..] == d[1..] + rest;
    }
  }

  lemma DigitsRun(s: string)
    ensures AllDigits(s[..Digits(s)]) && (Digits(s) < |s| ==> s[Digits(s)] !in "0123456789")
  {
    RunStops(s);
    forall i | 0 <= i < Digits(s) ensures s[i] in "0123456789" { DigitIff(s[i]); }
    if Digits(s) < |s| { DigitIff(s[Digits(s)]); }
  }

  lemma {:induction false} RunStops(s: string)
    ensures Digits(s) < |s| ==> !IsDigit(s[Digits(s)])
  {
    if s != [] && IsDigit(s[0]) { RunStops(s[1..]); }
  }

  lemma ExponentIff(s: string)
    ensures IsExponent(s) <==> IsExp(s)
  {
    if s != "" && s[0] in "eE" {
      var t := if |s| > 1 && s[1] in "+-" then s[2..] else s[1..];
      DigitsRun(t);
      if t != [] && AllDigits(t) { RunOf(t, ""); assert t + "" == t; }
      assert t != [] && Digits(t) == |t| <==> t != [] && AllDigits(t) by { assert t[..|t|] == t; }
      if |s| > 1 && s[1] in "+-" { assert s[1..][0] == s[1]; }
    }
  }

  lemma FractionIff(s: string)
    ensures IsFraction(s) <==> exists f, e :: s == f + e && IsFrac(f) && IsExp(e)
  {
    hide IsFraction, IsFrac, IsExp;
    if IsFraction(s) { var _, _ := FractionParts(s); }
    if f, e :| s == f + e && IsFrac(f) && IsExp(e) { FractionOf(f, e); }
  }

  lemma FractionParts(s: string) returns (f: string, e: string)
    requires IsFraction(s)
    ensures s == f + e && IsFrac(f) && IsExp(e)
  {
    hide IsExponent, IsExp, Digits, AllDigits;
    var n := if s != [] && s[0] == '.' then 1 + Digits(s[1..]) else 0;
    f, e := s[..n], s[n..];
    ExponentIff(e);
    if n > 0 {
      DigitsRun(s[1..]);
      assert f[1..] == s[1..][..n - 1];
    }
  }

  lemma FractionOf(f: string, e: string)
    requires IsFrac(f) && IsExp(e)
    ensures IsFraction(f + e)
  {
    hide IsExponent, IsExp, Digits;
    ExponentIff(e);
    ExpStarts(e);
    if f == "" {
      assert f + e == e;
    } else {
      RunOf(f[1..], e);
      assert (f + e)[1..] == f[1..] + e && (f + e)[|f|..] == e;
    }
  }

  lemma ExpStarts(e: string)
    requires IsExp(e)
    ensures e == "" || (e[0] !in "0123456789" && e[0] != '.')
  {
  }

  lemma FracStarts(f: string, e: string)
    requires IsFrac(f) && IsExp(e)
    ensures f + e == "" || (f + e)[0] !in "0123456789"
  {
    ExpStarts(e);
    hide IsExp;
    assert f == "" ==> f + e == e;
  }

  lemma NumberIff(s: string)
    ensures IsNumber(s) <==> exists sign, whole, frac, exp :: Parts(s, sign, whole, frac, exp)
  {
    hide IsNumber, Parts;
    if IsNumber(s) { var _, _, _, _ := PartsOf(s); }
    if sign, whole, frac, exp :| Parts(s, sign, whole, frac, exp) { OfParts(s, sign, whole, frac, exp); }
  }

  lemma PartsOf(s: string) returns (sign: string, whole: string, frac: string, exp: string)
    requires IsNumber(s)
    ensures Parts(s, sign, whole, frac, exp)
  {
    hide IsNumber, IsFraction, IsFrac, IsExp, AllDigits;
    var u: string;
    sign, u := Unsigned(s);
    hide Digits;
    var n := Digits(u);
    DigitsRun(u);
    FractionIff(u[n..]);
    frac, exp :| u[n..] == frac + exp && IsFrac(frac) && IsExp(exp);
    whole := u[..n];
    Cut(u, n);
    Associates(sign, whole, u[n..]);
    Associates(sign + whole, frac, exp);
  }

  lemma Unsigned(s: string) returns (sign: string, u: string)
    requires IsNumber(s)
    ensures s == sign + u && sign in {"", "-"}
    ensures var n := Digits(u); n > 0 && (u[0] == '0' ==> n == 1) && IsFraction(u[n..])
  {
    hide IsFraction, Digits;
    sign := if s != [] && s[0] == '-' then "-" else "";
    u := if s != [] && s[0] == '-' then s[1..] else s;
    assert s == sign + u;
  }

  lemma Cut(u: string, n: nat)
    requires 0 < n <= |u|
    ensures u == u[..n] + u[n..] && u[..n][0] == u[0] && (n == 1 && u[0] == '0' ==> u[..n] == "0")
  {
  }

  lemma OfParts(s: string, sign: string, whole: string, frac: string, exp: string)
    requires Parts(s, sign, whole, frac, exp)
    ensures IsNumber(s)
  {
    hide IsFraction, IsFrac, IsExp, Digits;
    var rest := frac + exp;
    FracStarts(frac, exp);
    RunOf(whole, rest);
    FractionIff(rest);
    Associates(sign + whole, frac, exp);
    Associates(sign, whole, rest);
    SignFirst(s, sign, whole, rest);
  }

  lemma SignFirst(s: string, sign: string, whole: string, rest: string)
    requires s == sign + (whole + rest) && sign in {"", "-"} && whole != "" && AllDigits(whole)
    ensures (if s != [] && s[0] == '-' then s[1..] else s) == whole + rest
    ensures (whole + rest)[0] == whole[0] && (whole + rest)[|whole|..] == rest
  {
    assert whole[0] in "0123456789";
    if sign == "" { assert s == whole + rest; } else { assert s[1..] == whole + rest; }
  }

  // -------------------------------------------------------------------- worth

  /** The digits before the exponent, read as one integer. */
  function Mantissa(s: string): int {
    if s == "" then 0
    else
      var n := |s| - 1;
      if 'e' in s[..n] || 'E' in s[..n] || s[n] !in "0123456789" then Mantissa(s[..n])
      else Mantissa(s[..n]) * 10 + (s[n] as int - '0' as int)
  }

  /** Every digit but zero stands behind an `e`. */
  predicate OnlyZeros(s: string) {
    forall i :: 0 <= i < |s| && '1' <= s[i] <= '9' ==> 'e' in s[..i] || 'E' in s[..i]
  }

  lemma OnlyZerosSnoc(s: string, n: nat)
    requires |s| == n + 1
    ensures OnlyZeros(s) <==> OnlyZeros(s[..n]) && ('1' <= s[n] <= '9' ==> 'e' in s[..n] || 'E' in s[..n])
  {
    assert forall i :: 0 <= i < n ==> s[..n][i] == s[i] && s[..n][..i] == s[..i];
  }

  lemma {:induction false} MantissaIsZero(s: string)
    ensures Mantissa(s) >= 0
    ensures Mantissa(s) == 0 <==> OnlyZeros(s)
  {
    if s != "" {
      hide OnlyZeros;
      var n := |s| - 1;
      MantissaIsZero(s[..n]);
      DigitIff(s[n]);
      OnlyZerosSnoc(s, n);
    }
  }

  /** A numeral is zero when its digits before the exponent make zero; the three names are
      not zero. */
  lemma ZeroIff(s: Numeral)
    ensures IsZero(s) <==> IsNumber(s) && Mantissa(s) == 0
  {
    hide IsNumber, Mantissa;
    MantissaIsZero(s);
    if IsNumber(s) { LeadingDigit(s); } else { NamesHaveNoZero(s); }
  }

  lemma LeadingDigit(s: string)
    requires IsNumber(s)
    ensures exists k :: 0 <= k < |s| && '0' <= s[k] <= '9' && 'e' !in s[..k] && 'E' !in s[..k]
  {
    hide IsFraction;
    var k := if s[0] == '-' then 1 else 0;
    assert IsDigit(s[k..][0]) && s[k..][0] == s[k];
    assert 'e' !in s[..k] && 'E' !in s[..k];
  }

  lemma NamesHaveNoZero(s: string)
    requires s == "NaN" || s == "Infinity" || s == "-Infinity"
    ensures '0' !in s
  {
  }
}
