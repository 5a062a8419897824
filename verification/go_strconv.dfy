/**
 * Go's `strconv.Atoi` on a 64-bit platform, which the page listing uses for
 * its `page` and `pageSize` parameters. Atoi strips one optional sign and
 * parses the rest as an unsigned base-10 number (`ParseUint`), which stops
 * at the first non-digit with a syntax error and at the first digit that
 * overflows 64 bits with a range error. A syntax error yields 0; a range
 * error yields the nearest bound of `int`, together with the error.
 */
module GoStrconv {
  import opened Options

  const MaxUint64: nat := 0xFFFF_FFFF_FFFF_FFFF
  const MaxInt64: int := 0x7FFF_FFFF_FFFF_FFFF
  const MinInt64: int := -0x8000_0000_0000_0000
  /** Magnitude of `MinInt64`: the largest magnitude a negative input may have. */
  const Int64Magnitude: nat := 0x8000_0000_0000_0000
  /** ParseUint's base-10 cutoff: the smallest `n` for which `n * 10` exceeds 64 bits. */
  const Cutoff: nat := MaxUint64 / 10 + 1

  datatype NumError = ErrSyntax | ErrRange

  /** What a Go parse returns: the value and the error (`None` for nil). */
  datatype Parsed = Parsed(value: int, err: Option<NumError>)

  predicate IsDigit(c: char) { '0' <= c <= '9' }

  function DigitValue(c: char): nat
    requires IsDigit(c)
  {
    c as int - '0' as int
  }

  predicate AllDigits(s: string) { forall i :: 0 <= i < |s| ==> IsDigit(s[i]) }

  function Pow10(k: nat): (p: nat)
    ensures p >= 1
  {
    if k == 0 then 1 else 10 * Pow10(k - 1)
  }

  /** The number a digit string denotes, read from its last digit backwards. */
  function DecimalValue(s: string): nat
    requires AllDigits(s)
  {
    if |s| == 0 then 0 else 10 * DecimalValue(s[..|s| - 1]) + DigitValue(s[|s| - 1])
  }

  predicate Negative(s: string) { |s| > 0 && s[0] == '-' }

  /** `s` without its one optional leading sign. */
  function Unsigned(s: string): string
  {
    if |s| > 0 && (s[0] == '+' || s[0] == '-') then s[1..] else s
  }

  /** An optional sign followed by at least one digit and nothing else. */
  predicate IsSignedDecimal(s: string) { Unsigned(s) != "" && AllDigits(Unsigned(s)) }

  function SignedValue(s: string): int
    requires IsSignedDecimal(s)
  {
    if Negative(s) then -(DecimalValue(Unsigned(s)) as int) else DecimalValue(Unsigned(s))
  }

  predicate InInt64(x: int) { MinInt64 <= x <= MaxInt64 }

  /** ParseUint's digit loop, with `n` the value of the digits read so far. */
  function ParseDigits(s: string, n: nat): (r: Parsed)
    requires n <= MaxUint64
    ensures 0 <= r.value <= MaxUint64
    ensures r.err == Some(ErrSyntax) ==> r.value == 0
    ensures r.err == Some(ErrRange) ==> r.value == MaxUint64
    decreases |s|
  {
    if |s| == 0 then Parsed(n, None)
    else if !IsDigit(s[0]) then Parsed(0, Some(ErrSyntax))
    else if n >= Cutoff then Parsed(MaxUint64, Some(ErrRange))
    else
      var n1 := n * 10 + DigitValue(s[0]);
      if n1 > MaxUint64 then Parsed(MaxUint64, Some(ErrRange))
      else ParseDigits(s[1..], n1)
  }

  function ParseUint(s: string): Parsed
  {
    if s == "" then Parsed(0, Some(ErrSyntax)) else ParseDigits(s, 0)
  }

  /** `strconv.Atoi`, which on a 64-bit platform is `ParseInt(s, 10, 64)`. */
  function Atoi(s: string): (r: Parsed)
    ensures InInt64(r.value)
    ensures r.err == Some(ErrSyntax) ==> r.value == 0
    ensures r.err == Some(ErrRange) ==> r.value == MaxInt64 || r.value == MinInt64
  {
    if s == "" then Parsed(0, Some(ErrSyntax))
    else
      var u := ParseUint(Unsigned(s));
      if u.err == Some(ErrSyntax) then Parsed(0, Some(ErrSyntax))
      else if !Negative(s) && u.value >= Int64Magnitude then Parsed(MaxInt64, Some(ErrRange))
      else if Negative(s) && u.value > Int64Magnitude then Parsed(MinInt64, Some(ErrRange))
      else Parsed(if Negative(s) then -u.value else u.value, None)
  }

  /** Reading a leading digit first: it weighs `10^|t|`. */
  lemma {:induction false} DecimalValueCons(c: char, t: string)
    requires IsDigit(c) && AllDigits(t)
    ensures AllDigits([c] + t)
    ensures DecimalValue([c] + t) == DigitValue(c) * Pow10(|t|) + DecimalValue(t)
    decreases |t|
  {
    var s := [c] + t;
    assert AllDigits(s) by {
      forall i | 0 <= i < |s| ensures IsDigit(s[i]) {
        if i > 0 { assert s[i] == t[i - 1]; }
      }
    }
    if |t| == 0 {
      assert s[..0] == [];
    } else {
      var t', last := t[..|t| - 1], t[|t| - 1];
      assert s[..|s| - 1] == [c] + t';
      assert s[|s| - 1] == last;
      DecimalValueCons(c, t');
      Regroup(DigitValue(c), Pow10(|t'|), DecimalValue(t'), DigitValue(last));
    }
  }

  /** Multiplying a `d * p + v` prefix by ten before the next digit `e`. */
  lemma Regroup(d: nat, p: nat, v: nat, e: nat)
    ensures 10 * (d * p + v) + e == d * (10 * p) + (10 * v + e)
  {
  }

  /** One step of the digit loop leaves the final value unchanged and never exceeds it. */
  lemma AccumulateStep(s: string, n: nat)
    requires |s| > 0 && AllDigits(s)
    ensures AllDigits(s[1..])
    ensures n * Pow10(|s|) + DecimalValue(s)
         == (n * 10 + DigitValue(s[0])) * Pow10(|s| - 1) + DecimalValue(s[1..])
    ensures n * 10 + DigitValue(s[0]) <= n * Pow10(|s|) + DecimalValue(s)
  {
    var c, t := s[0], s[1..];
    assert s == [c] + t;
    assert AllDigits(t) by {
      forall i | 0 <= i < |t| ensures IsDigit(t[i]) { assert t[i] == s[i + 1]; }
    }
    DecimalValueCons(c, t);
    StepArithmetic(n, DigitValue(c), Pow10(|t|), DecimalValue(t));
  }

  /** The accumulator identity `n * 10p + (d * p + v) == (10n + d) * p + v`, for `p >= 1`. */
  lemma StepArithmetic(n: nat, d: nat, p: nat, v: nat)
    requires p >= 1
    ensures n * (10 * p) + (d * p + v) == (n * 10 + d) * p + v
    ensures n * 10 + d <= (n * 10 + d) * p + v
  {
    assert (n * 10 + d) * p == n * (10 * p) + d * p;
  }

  /**
   * The digit loop accepts exactly the digit strings whose value, appended to
   * the accumulator, fits 64 bits; it then returns that value, and a digit
   * string that does not fit is a range error.
   */
  lemma {:induction false} ParseDigitsMeaning(s: string, n: nat)
    requires n <= MaxUint64
    ensures ParseDigits(s, n).err == None <==> AllDigits(s) && n * Pow10(|s|) + DecimalValue(s) <= MaxUint64
    ensures ParseDigits(s, n).err == None ==> ParseDigits(s, n).value == n * Pow10(|s|) + DecimalValue(s)
    ensures AllDigits(s) && n * Pow10(|s|) + DecimalValue(s) > MaxUint64 ==> ParseDigits(s, n).err == Some(ErrRange)
    decreases |s|
  {
    if |s| == 0 {
      assert DecimalValue(s) == 0;
    } else if !IsDigit(s[0]) {
      assert !AllDigits(s);
    } else {
      var t := s[1..];
      var n1 := n * 10 + DigitValue(s[0]);
      assert AllDigits(s) <==> AllDigits(t) by {
        if AllDigits(t) {
          forall i | 0 <= i < |s| ensures IsDigit(s[i]) { if i > 0 { assert s[i] == t[i - 1]; } }
        }
        if AllDigits(s) { AccumulateStep(s, n); }
      }
      if AllDigits(s) {
        AccumulateStep(s, n);
      }
      if n < Cutoff && n1 <= MaxUint64 {
        ParseDigitsMeaning(t, n1);
      }
    }
  }

  /** Atoi succeeds exactly on the signed decimals that fit `int`, and returns their value. */
  lemma AtoiMeaning(s: string)
    ensures Atoi(s).err == None <==> IsSignedDecimal(s) && InInt64(SignedValue(s))
    ensures Atoi(s).err == None ==> Atoi(s).value == SignedValue(s)
  {
    var u := Unsigned(s);
    if s != "" && u != "" {
      ParseDigitsMeaning(u, 0);
      assert 0 * Pow10(|u|) == 0;
      match ParseDigits(u, 0).err
      case None =>
      case Some(ErrSyntax) =>
      case Some(ErrRange) =>
    }
  }

  /** A signed decimal that does not fit `int` is a range error clamped to the bound on its side. */
  lemma AtoiClamps(s: string)
    requires IsSignedDecimal(s) && !InInt64(SignedValue(s))
    ensures Atoi(s) == Parsed(if Negative(s) then MinInt64 else MaxInt64, Some(ErrRange))
  {
    ParseDigitsMeaning(Unsigned(s), 0);
  }

  /** While at most 19 digits are read the accumulator stays below `10^19`: no range error. */
  lemma {:induction false} ParseDigitsShortNoRange(s: string, n: nat, j: nat)
    requires n < Pow10(j) && j + |s| <= 19
    ensures n <= MaxUint64
    ensures ParseDigits(s, n).err != Some(ErrRange)
    decreases |s|
  {
    Pow10Monotone(j, 19);
    Pow10Nineteen();
    if |s| > 0 && IsDigit(s[0]) {
      Pow10Monotone(j, 18);
      assert n * 10 + DigitValue(s[0]) < Pow10(j + 1);
      ParseDigitsShortNoRange(s[1..], n * 10 + DigitValue(s[0]), j + 1);
    }
  }

  lemma Pow10Nineteen()
    ensures Pow10(18) == 1_000_000_000_000_000_000
    ensures Pow10(19) == 10_000_000_000_000_000_000
  {
    assert Pow10(3) == 1_000;
    assert Pow10(6) == 1_000_000;
    assert Pow10(9) == 1_000_000_000;
    assert Pow10(12) == 1_000_000_000_000;
    assert Pow10(15) == 1_000_000_000_000_000;
  }

  lemma {:induction false} Pow10Monotone(i: nat, j: nat)
    requires i <= j
    ensures Pow10(i) <= Pow10(j)
    decreases j
  {
    if i < j {
      Pow10Monotone(i, j - 1);
    }
  }

  /** Anything of at most 19 characters that is not a signed decimal is a syntax error with value 0. */
  lemma AtoiShortSyntaxError(s: string)
    requires |s| <= 19 && !IsSignedDecimal(s)
    ensures Atoi(s) == Parsed(0, Some(ErrSyntax))
  {
    var u := Unsigned(s);
    if s != "" && u != "" {
      ParseDigitsMeaning(u, 0);
      ParseDigitsShortNoRange(u, 0, 0);
      match ParseDigits(u, 0).err
      case None =>
      case Some(ErrSyntax) =>
      case Some(ErrRange) =>
    }
  }
}
