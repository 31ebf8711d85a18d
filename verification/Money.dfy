/** Exact conversion of amount strings to integer cents (internal/money/money.go). */
module Money {
  import opened Wrappers
  import opened Decimal

  const MAX_INT64: int := 0x7fff_ffff_ffff_ffff

  /** Go's int64: every operation on it is checked to stay in range. */
  newtype int64 = x: int | -0x8000_0000_0000_0000 <= x <= 0x7fff_ffff_ffff_ffff

  datatype ParseError = InvalidAmount | OutOfRange

  /** The language of the expression ^[0-9]+(\.[0-9]{1,2})?$ */
  predicate MatchesAmount(s: string) {
    || (s != "" && AllDigits(s))
    || exists dot :: 0 < dot < |s| && DotAt(s, dot)
  }

  /** Digits, one dot at `dot`, then one or two digits. */
  predicate DotAt(s: string, dot: int) {
    && 0 < dot < |s|
    && s[dot] == '.'
    && AllDigits(s[..dot])
    && AllDigits(s[dot + 1..])
    && 1 <= |s| - dot - 1 <= 2
  }

  /** `strings.Cut(s, ".")` without its found flag. */
  function Cut(s: string): (string, string) {
    if s == "" then ("", "")
    else if s[0] == '.' then ("", s[1..])
    else var (before, after) := Cut(s[1..]); ([s[0]] + before, after)
  }

  /** `strconv.ParseInt(s, 10, 64)` on a digit string. */
  function ParseInt(s: string): Result<int64, ParseError>
    requires s != "" && AllDigits(s)
  {
    if Value(s) > MAX_INT64 then Err(OutOfRange) else Ok(Value(s) as int64)
  }

  function PadFraction(frac: string): string {
    var frac := if frac == "" then "00" else frac;
    if |frac| == 1 then frac + "0" else frac
  }

  function ParseCents(s: string): Result<int64, ParseError> {
    if !MatchesAmount(s) then Err(InvalidAmount)
    else
      CutOfAmount(s);
      var (whole, frac) := Cut(s);
      CentsFrom(whole, PadFraction(frac))
  }

  /** Both parts as int64, guarded so that the result and every value on the way stay in range. */
  function CentsFrom(whole: string, frac: string): Result<int64, ParseError>
    requires whole != "" && AllDigits(whole) && AllDigits(frac) && |frac| == 2
  {
    match ParseInt(whole)
    case Err(e) => Err(e)
    case Ok(w) =>
      match ParseInt(frac)
      case Err(e) => Err(e)
      case Ok(f) =>
        PaddedBelow100(frac);
        if w > (0x7fff_ffff_ffff_ffff - f) / 100 then Err(OutOfRange) else Ok(w * 100 + f)
  }

  /** What cutting an amount leaves for the two `ParseInt` calls. */
  lemma CutOfAmount(s: string)
    requires MatchesAmount(s)
    ensures var (whole, frac) := Cut(s);
            && whole != "" && AllDigits(whole) && AllDigits(PadFraction(frac)) && |PadFraction(frac)| == 2
  {
    if s != "" && AllDigits(s) {
      WholeAlone(s);
    } else {
      var dot :| 0 < dot < |s| && DotAt(s, dot);
      CutAt(s, dot);
      assert |PadFraction(s[dot + 1..])| == 2;
    }
  }

  lemma {:induction false} CutAt(s: string, dot: int)
    requires 0 <= dot <= |s| && (dot < |s| ==> s[dot] == '.')
    requires forall i :: 0 <= i < dot ==> s[i] != '.'
    ensures Cut(s) == (s[..dot], if dot < |s| then s[dot + 1..] else "")
  {
    if dot > 0 {
      CutAt(s[1..], dot - 1);
      assert [s[0]] + s[1..][..dot - 1] == s[..dot];
      if dot < |s| {
        assert s[1..][dot..] == s[dot + 1..];
      }
    } else {
      assert s[..0] == "";
    }
  }

  lemma PaddedBelow100(frac: string)
    requires AllDigits(frac) && |frac| == 2
    ensures Value(frac) < 100
  {
    ValueBelowPow(frac);
    assert Pow10(2) == 100;
  }

  // ---------- the exact meaning of an amount ----------

  /**
   The amount in cents, read without splitting it into whole and fraction:
   drop the dot, read all the digits as one number and scale by the decimal
   places that are missing.
   */
  ghost function ExactCents(s: string): nat
    requires MatchesAmount(s)
  {
    if s != "" && AllDigits(s) then Value(s) * 100
    else
      var dot :| 0 < dot < |s| && DotAt(s, dot);
      assert AllDigits(s[..dot] + s[dot + 1..]);
      Value(s[..dot] + s[dot + 1..]) * Pow10(2 - (|s| - dot - 1))
  }

  /** ParseCents accepts exactly the amounts whose value in cents fits int64, and returns that value. */
  lemma ParseCentsExact(s: string)
    ensures ParseCents(s).Ok? <==> MatchesAmount(s) && ExactCents(s) <= MAX_INT64
    ensures ParseCents(s).Ok? ==> ParseCents(s).value as int == ExactCents(s)
    ensures ParseCents(s) == Err(InvalidAmount) <==> !MatchesAmount(s)
  {
    if MatchesAmount(s) {
      CutOfAmount(s);
      SplitMeansExact(s);
      CentsFromExact(Cut(s).0, PadFraction(Cut(s).1));
    }
  }

  /** The overflow guard is exact. */
  lemma CentsFromExact(whole: string, frac: string)
    requires whole != "" && AllDigits(whole) && AllDigits(frac) && |frac| == 2
    ensures var r, exact := CentsFrom(whole, frac), Value(whole) * 100 + Value(frac);
            if exact <= MAX_INT64 then r.Ok? && r.value as int == exact else r == Err(OutOfRange)
  {
    PaddedBelow100(frac);
  }

  lemma SplitMeansExact(s: string)
    requires MatchesAmount(s)
    ensures var (whole, frac) := Cut(s);
            && AllDigits(whole) && AllDigits(PadFraction(frac))
            && Value(whole) * 100 + Value(PadFraction(frac)) == ExactCents(s)
  {
    CutOfAmount(s);
    if s != "" && AllDigits(s) {
      CutAt(s, |s|);
      assert s[..|s|] == s;
      assert Value("00") == 0 by { ValueOfConcat("0", "0"); assert "0" + "0" == "00"; }
    } else {
      var dot :| 0 < dot < |s| && DotAt(s, dot);
      CutAt(s, dot);
      ExactAt(s, dot);
      JoinScales(s[..dot], s[dot + 1..]);
    }
  }

  /** The dot of an amount is unique, so the exact value does not depend on how it is found. */
  lemma ExactAt(s: string, dot: int)
    requires DotAt(s, dot)
    ensures MatchesAmount(s) && AllDigits(s[..dot] + s[dot + 1..])
    ensures ExactCents(s) == Value(s[..dot] + s[dot + 1..]) * Pow10(2 - (|s| - dot - 1))
  {
    assert !IsDigit(s[dot]);
    assert forall other :: DotAt(s, other) ==> other == dot;
  }

  lemma {:induction false} JoinScales(whole: string, frac: string)
    requires AllDigits(whole) && AllDigits(frac) && 1 <= |frac| <= 2
    ensures AllDigits(whole + frac) && AllDigits(PadFraction(frac))
    ensures Value(whole) * 100 + Value(PadFraction(frac)) == Value(whole + frac) * Pow10(2 - |frac|)
  {
    ValueOfConcat(whole, frac);
    PadScales(frac);
    Powers();
    var w, f, joined, padded := Value(whole), Value(frac), Value(whole + frac), Value(PadFraction(frac));
    if |frac| == 1 {
      assert Pow10(|frac|) == 10 && Pow10(2 - |frac|) == 10;
      assert joined == w * 10 + f && padded == f * 10;
    } else {
      assert Pow10(|frac|) == 100 && Pow10(2 - |frac|) == 1;
      assert joined == w * 100 + f && padded == f;
    }
  }

  lemma Powers()
    ensures Pow10(0) == 1 && Pow10(1) == 10 && Pow10(2) == 100
  {
  }

  lemma PadScales(frac: string)
    requires AllDigits(frac) && 1 <= |frac| <= 2
    ensures AllDigits(PadFraction(frac)) && Value(PadFraction(frac)) == Value(frac) * Pow10(2 - |frac|)
  {
    Powers();
    if |frac| == 1 {
      ValueOfConcat(frac, "0");
      assert Value("0") == 0;
      assert Pow10(|"0"|) == 10 && Pow10(2 - |frac|) == 10;
    } else {
      assert Pow10(2 - |frac|) == 1;
    }
  }

  /** A missing or one-digit fraction means the same as its zero-padded form. */
  lemma MissingDigitsAreZeros(whole: string, tenth: char)
    requires whole != "" && AllDigits(whole) && IsDigit(tenth)
    ensures ParseCents(whole) == ParseCents(whole + ".00")
    ensures ParseCents(whole + "." + [tenth]) == ParseCents(whole + "." + [tenth] + "0")
  {
    WholeAlone(whole);
    AmountParts(whole, "00");
    assert whole + "." + "00" == whole + ".00";
    AmountParts(whole, [tenth]);
    AmountParts(whole, [tenth] + "0");
    assert whole + "." + ([tenth] + "0") == whole + "." + [tenth] + "0";
  }

  lemma WholeAlone(whole: string)
    requires whole != "" && AllDigits(whole)
    ensures Cut(whole) == (whole, "")
  {
    CutAt(whole, |whole|);
    assert whole[..|whole|] == whole;
  }

  lemma AmountParts(whole: string, frac: string)
    requires whole != "" && AllDigits(whole) && AllDigits(frac) && 1 <= |frac| <= 2
    ensures MatchesAmount(whole + "." + frac)
    ensures Cut(whole + "." + frac) == (whole, frac)
  {
    var s := whole + "." + frac;
    assert s[..|whole|] == whole;
    assert s[|whole| + 1..] == frac;
    assert DotAt(s, |whole|);
    CutAt(s, |whole|);
  }

  /** Canonical notation: all the whole digits, a dot and exactly two decimals. */
  function PrintCents(n: nat): string {
    Digits(n / 100) + "." + [DigitChar(n % 100 / 10), DigitChar(n % 10)]
  }

  /** ParseCents inverts the canonical printer on the whole of 0..2^63-1, and rejects what lies above. */
  lemma ParsePrintRoundTrip(n: nat)
    ensures n <= MAX_INT64 ==> ParseCents(PrintCents(n)) == Ok(n as int64)
    ensures n > MAX_INT64 ==> ParseCents(PrintCents(n)) == Err(OutOfRange)
  {
    var whole, frac := Digits(n / 100), [DigitChar(n % 100 / 10), DigitChar(n % 10)];
    ValueOfDigits(n / 100);
    AmountParts(whole, frac);
    TwoDigits(n);
    CentsFromExact(whole, frac);
  }

  lemma TwoDigits(n: nat)
    ensures var frac := [DigitChar(n % 100 / 10), DigitChar(n % 10)];
            AllDigits(frac) && Value(frac) == n % 100
  {
    var frac := [DigitChar(n % 100 / 10), DigitChar(n % 10)];
    ValueOfConcat([frac[0]], [frac[1]]);
    assert [frac[0]] + [frac[1]] == frac;
    assert [frac[0]][..0] == "" && [frac[1]][..0] == "";
    assert Value([frac[0]]) == n % 100 / 10;
    assert Value([frac[1]]) == n % 10;
    assert Pow10(1) == 10;
  }
}
