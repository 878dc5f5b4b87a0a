/** Decimal strings to fixed point and back, without floating point. */
module Decimal {
  import opened Basics

  datatype ParseError =
    | EmptyString
    | InvalidInteger
    | InvalidFraction
    | IntegerOverflow
    | FractionOverflow
    | FixedPointOverflow
    | ExceedsU64

  const U128_MAX: nat := 0xFFFF_FFFF_FFFF_FFFF_FFFF_FFFF_FFFF_FFFF

  // ----- strings --------------------------------------------------------------

  /** The Unicode White_Space property. */
  predicate IsSpace(c: char) {
    var n := c as int;
    9 <= n <= 13 || n == 0x20 || n == 0x85 || n == 0xA0 || n == 0x1680 || 0x2000 <= n <= 0x200A
      || n == 0x2028 || n == 0x2029 || n == 0x202F || n == 0x205F || n == 0x3000
  }

  /** Its members, one by one. */
  lemma WhiteSpaceListed(c: char)
    ensures IsSpace(c) <==>
      c in "\t\n\U{B}\U{C}\r \U{85}\U{A0}\U{1680}\U{2028}\U{2029}\U{202F}\U{205F}\U{3000}"
      || c in "\U{2000}\U{2001}\U{2002}\U{2003}\U{2004}\U{2005}\U{2006}\U{2007}\U{2008}\U{2009}\U{200A}"
  {
  }

  function TrimStart(s: string): string {
    if s != [] && IsSpace(s[0]) then TrimStart(s[1..]) else s
  }

  function TrimEnd(s: string): string {
    if s != [] && IsSpace(s[|s| - 1]) then TrimEnd(s[..|s| - 1]) else s
  }

  function Trim(s: string): string {
    TrimEnd(TrimStart(s))
  }

  /** Position of the first `c`, or the length when there is none. */
  function Find(s: string, c: char): (k: nat)
    ensures k <= |s| && c !in s[..k] && (k < |s| ==> s[k] == c)
  {
    if s == [] || s[0] == c then 0
    else
      assert s[..1 + Find(s[1..], c)] == [s[0]] + s[1..][..Find(s[1..], c)];
      1 + Find(s[1..], c)
  }

  /** The parts before and after the first dot; no fraction without a dot. */
  function SplitDot(s: string): (string, string) {
    var dot := Find(s, '.');
    if dot < |s| then (s[..dot], s[dot + 1..]) else (s, "")
  }

  // ----- digits ---------------------------------------------------------------

  predicate IsDigit(c: char) {
    '0' <= c <= '9'
  }

  predicate AllDigits(s: string) {
    forall k :: 0 <= k < |s| ==> IsDigit(s[k])
  }

  function DigitValue(c: char): nat
    requires IsDigit(c)
  {
    c as int - '0' as int
  }

  function Value(s: string): nat
    requires AllDigits(s)
  {
    if s == [] then 0 else 10 * Value(s[..|s| - 1]) + DigitValue(s[|s| - 1])
  }

  function Zeros(n: nat): (z: string)
    ensures |z| == n && AllDigits(z)
  {
    seq(n, _ => '0')
  }

  /** `parse::<u128>` on a digit string. */
  function ParseU128(s: string): Option<nat>
    requires AllDigits(s)
  {
    if s != "" && Value(s) <= U128_MAX then Some(Value(s)) else None
  }

  /** The fraction padded or cut to `decimals` digits. */
  function Fit(frac: string, decimals: nat): (f: string)
    requires AllDigits(frac)
    ensures AllDigits(f)
  {
    if |frac| <= decimals then frac + Zeros(decimals - |frac|) else frac[..decimals]
  }

  /** Whole and fractional units put together, with the u128 and u64 range checks. */
  function Compose(whole: nat, frac: nat, factor: nat): Result<U64, ParseError> {
    var scaled := whole * factor;
    if scaled > U128_MAX || scaled + frac > U128_MAX then Err(FixedPointOverflow)
    else if scaled + frac >= TWO64 then Err(ExceedsU64)
    else Ok(scaled + frac)
  }

  /** A decimal string as a multiple of 10^-decimals; 10^38 is the largest power of ten a u128 holds. */
  function ParseFixed(text: string, decimals: nat): Result<U64, ParseError> {
    var s := Trim(text);
    if s == "" then Err(EmptyString) else
    var (whole, frac) := SplitDot(s);
    if !AllDigits(whole) || whole == "" then Err(InvalidInteger)
    else if !AllDigits(frac) then Err(InvalidFraction)
    else
      match ParseU128(whole)
      case None => Err(IntegerOverflow)
      case Some(w) =>
        var f := if frac == "" then Some(0) else ParseU128(Fit(frac, decimals));
        if f.None? then Err(FractionOverflow)
        else Compose(w, f.value, PowU128(decimals))
  }

  // ----- what a parse means -----------------------------------------------------

  lemma {:induction false} Pow10Add(a: nat, b: nat)
    ensures Pow10(a + b) == Pow10(a) * Pow10(b)
  {
    if a > 0 {
      Pow10Add(a - 1, b);
      assert Pow10(a + b) == 10 * (Pow10(a - 1) * Pow10(b)) == (10 * Pow10(a - 1)) * Pow10(b);
    }
  }

  lemma ShiftDigit(a: nat, p: nat, v: nat)
    ensures 10 * (a * p + v) == a * (10 * p) + 10 * v
  {
  }

  lemma {:induction false} ValueAppend(a: string, b: string)
    requires AllDigits(a) && AllDigits(b)
    ensures AllDigits(a + b) && Value(a + b) == Value(a) * Pow10(|b|) + Value(b)
  {
    if b == [] {
      assert a + b == a;
    } else {
      var front := b[..|b| - 1];
      ValueAppend(a, front);
      assert (a + b)[..|a + b| - 1] == a + front;
      ShiftDigit(Value(a), Pow10(|front|), Value(front));
    }
  }

  lemma {:induction false} ValueBelow(s: string)
    requires AllDigits(s)
    ensures Value(s) < Pow10(|s|)
  {
    if s != [] { ValueBelow(s[..|s| - 1]); }
  }

  lemma {:induction false} ValueZeros(n: nat)
    ensures Value(Zeros(n)) == 0
  {
    if n > 0 {
      assert Zeros(n)[..n - 1] == Zeros(n - 1);
      ValueZeros(n - 1);
    }
  }

  /** `v` is the whole part of n / d. */
  ghost predicate IsFloor(v: nat, n: nat, d: nat) {
    v * d <= n < (v + 1) * d
  }

  lemma FloorExact(v: nat, n: nat, d: nat)
    requires v * d == n && d > 0
    ensures IsFloor(v, n, d)
  {
    assert (v + 1) * d == v * d + d;
  }

  lemma PadArithmetic(f: nat, x: nat, d: nat, p: nat)
    requires p == x * d && d > 0
    ensures IsFloor(f * x, f * p, d)
  {
    assert (f * x) * d == f * (x * d);
    FloorExact(f * x, f * p, d);
  }

  lemma CutArithmetic(k: nat, c: nat, x: nat, p: nat, d: nat)
    requires x < c && p > 0 && d == c * p
    ensures IsFloor(k, (k * c + x) * p, d)
  {
    Distribute(k, c, x, p);
  }

  lemma PadIsFloor(frac: string, decimals: nat)
    requires AllDigits(frac) && |frac| <= decimals
    ensures IsFloor(Value(Fit(frac, decimals)), Value(frac) * Pow10(decimals), Pow10(|frac|))
  {
    var pad := decimals - |frac|;
    ValueAppend(frac, Zeros(pad));
    ValueZeros(pad);
    Pow10Add(pad, |frac|);
    PadArithmetic(Value(frac), Pow10(pad), Pow10(|frac|), Pow10(decimals));
  }

  lemma CutIsFloor(frac: string, decimals: nat)
    requires AllDigits(frac) && |frac| > decimals
    ensures IsFloor(Value(Fit(frac, decimals)), Value(frac) * Pow10(decimals), Pow10(|frac|))
  {
    var kept, cut := frac[..decimals], frac[decimals..];
    assert frac == kept + cut;
    ValueAppend(kept, cut);
    ValueBelow(cut);
    Pow10Add(|cut|, decimals);
    CutArithmetic(Value(kept), Pow10(|cut|), Value(cut), Pow10(decimals), Pow10(|frac|));
  }

  /** Padding or cutting the fraction is rounding down at `decimals` digits. */
  lemma FitIsFloor(frac: string, decimals: nat)
    requires AllDigits(frac)
    ensures IsFloor(Value(Fit(frac, decimals)), Value(frac) * Pow10(decimals), Pow10(|frac|))
  {
    if |frac| <= decimals { PadIsFloor(frac, decimals); } else { CutIsFloor(frac, decimals); }
  }

  lemma Distribute(v: nat, c: nat, x: nat, p: nat)
    requires x < c && p > 0
    ensures v * (c * p) <= (v * c + x) * p < (v + 1) * (c * p)
  {
    assert (v * c + x) * p == v * (c * p) + x * p;
    assert (v + 1) * (c * p) == v * (c * p) + c * p;
    assert x * p < c * p;
  }

  lemma FloorShift(w: nat, p: nat, v: nat, n: nat, d: nat)
    requires IsFloor(v, n, d)
    ensures IsFloor(w * p + v, w * d * p + n, d)
  {
    assert (w * p + v) * d == w * d * p + v * d;
    assert (w * p + v + 1) * d == w * d * p + (v + 1) * d;
  }

  ghost predicate WellFormed(whole: string, frac: string) {
    whole != "" && AllDigits(whole) && AllDigits(frac)
  }

  /** The digits of `whole.frac` read as one number. */
  ghost function Digits(whole: string, frac: string): nat
    requires WellFormed(whole, frac)
  {
    ValueAppend(whole, frac);
    Value(whole + frac)
  }

  /** `v` is the number written `whole.frac`, scaled by 10^decimals and rounded down. */
  ghost predicate Denotes(whole: string, frac: string, decimals: nat, v: nat)
    requires WellFormed(whole, frac)
  {
    IsFloor(v, Digits(whole, frac) * Pow10(decimals), Pow10(|frac|))
  }

  lemma FixedDenotes(whole: string, frac: string, decimals: nat)
    requires WellFormed(whole, frac)
    ensures Denotes(whole, frac, decimals, Value(whole) * Pow10(decimals) + Value(Fit(frac, decimals)))
  {
    ValueAppend(whole, frac);
    FitIsFloor(frac, decimals);
    ShiftedFloor(Value(whole), Pow10(decimals), Value(Fit(frac, decimals)), Value(frac), Pow10(|frac|));
  }

  lemma ShiftedFloor(w: nat, p: nat, v: nat, f: nat, d: nat)
    requires IsFloor(v, f * p, d)
    ensures IsFloor(w * p + v, (w * d + f) * p, d)
  {
    FloorShift(w, p, v, f * p, d);
    assert (w * d + f) * p == w * d * p + f * p;
  }

  lemma FloorUnique(v: nat, u: nat, n: nat, d: nat)
    requires IsFloor(u, n, d)
    ensures IsFloor(v, n, d) <==> v == u
  {
    NextMultiple(v, u, d);
    NextMultiple(u, v, d);
  }

  lemma PowFits(decimals: nat)
    requires decimals <= 38
    ensures PowU128(decimals) == Pow10(decimals)
  {
    PowBound(decimals, 38);
    Pow38();
    PowSmall(decimals);
  }

  lemma PowBound(a: nat, b: nat)
    requires a <= b
    ensures Pow10(a) <= Pow10(b)
  {
    Pow10Add(a, b - a);
    assert Pow10(a) * 1 <= Pow10(a) * Pow10(b - a);
  }

  lemma PowSmall(decimals: nat)
    ensures Pow10(decimals) < TWO128 ==> PowU128(decimals) == Pow10(decimals)
    ensures Pow10(decimals) < TWO64 ==> PowU64(decimals) == Pow10(decimals)
  {
  }

  lemma Pow38()
    ensures Pow10(38) == 100_000_000_000_000_000_000_000_000_000_000_000_000
    ensures Pow10(19) == 10_000_000_000_000_000_000
  {
    Pow10Add(10, 9);
    Pow10Add(19, 19);
    assert Pow10(9) == 1_000_000_000;
    assert Pow10(10) == 10_000_000_000;
  }

  /** The u64 power is the u128 power, cut. */
  lemma PowCut(decimals: nat)
    ensures PowU64(decimals) == PowU128(decimals) % TWO64
  {
    var n := Pow10(decimals);
    var q, r := n / TWO128, n % TWO128;
    Recompose(n, TWO128);
    Recompose(r, TWO64);
    assert n == (q * TWO64 + r / TWO64) * TWO64 + r % TWO64;
    QuotientOf(n, q * TWO64 + r / TWO64, r % TWO64, TWO64);
  }

  // ----- amounts in quote units ---------------------------------------------------------

  /** A floor by `d`, put over the common factor `p`. */
  lemma FloorScaled(n: nat, d: nat, p: nat)
    requires d > 0 && p > 0
    ensures n / d * (d * p) <= n * p < (n / d + 1) * (d * p)
  {
    var v := n / d;
    Recompose(n, d);
    assert v * (d * p) == v * d * p;
    assert n * p == v * d * p + n % d * p;
    assert (v + 1) * (d * p) == v * d * p + d * p;
    LessScaled(n % d, d, p);
  }

  lemma LessScaled(a: nat, b: nat, p: nat)
    requires a < b && p > 0
    ensures a * p < b * p
  {
  }

  /** In range, dividing by the scale turns base units at a price into quote units. */
  lemma ScaleMeaning(q: nat, price: nat, baseDecimals: nat, quoteDecimals: nat)
    requires quoteDecimals <= baseDecimals + 8 <= quoteDecimals + 38
    ensures Divisor(baseDecimals, quoteDecimals) > 0
    ensures InQuoteUnits(QuoteUnits(q, price, Divisor(baseDecimals, quoteDecimals)), q, price, baseDecimals, quoteDecimals)
  {
    var e := baseDecimals + 8 - quoteDecimals;
    SmallExponent(e);
    PowFits(e);
    Pow10Add(e, quoteDecimals);
    FloorScaled(q * price, Pow10(e), Pow10(quoteDecimals));
  }

  lemma SmallExponent(e: nat)
    requires e <= 38
    ensures e % TWO32 == e
  {
  }

  lemma EmptyFraction(decimals: nat)
    ensures Value(Fit("", decimals)) == 0
  {
    assert "" + Zeros(decimals) == Zeros(decimals);
    ValueZeros(decimals);
  }

  /** Trimming takes white space off both ends, and all of it. */
  lemma {:induction false} TrimStartParts(s: string)
    ensures |TrimStart(s)| <= |s| && s[|s| - |TrimStart(s)|..] == TrimStart(s)
    ensures forall k :: 0 <= k < |s| - |TrimStart(s)| ==> IsSpace(s[k])
    ensures TrimStart(s) != "" ==> !IsSpace(TrimStart(s)[0])
  {
    if s != [] && IsSpace(s[0]) {
      TrimStartParts(s[1..]);
      assert forall k :: 1 <= k < |s| ==> s[k] == s[1..][k - 1];
      assert s[|s| - |TrimStart(s)|..] == s[1..][|s| - 1 - |TrimStart(s)|..];
    }
  }

  lemma {:induction false} TrimEndParts(s: string)
    ensures |TrimEnd(s)| <= |s| && s[..|TrimEnd(s)|] == TrimEnd(s)
    ensures forall k :: |TrimEnd(s)| <= k < |s| ==> IsSpace(s[k])
    ensures TrimEnd(s) != "" ==> !IsSpace(TrimEnd(s)[|TrimEnd(s)| - 1])
  {
    if s != [] && IsSpace(s[|s| - 1]) {
      TrimEndParts(s[..|s| - 1]);
    }
  }

  /** The text is the trimmed one between white space, which has none at its ends. */
  lemma TrimMeaning(s: string) returns (before: string, after: string)
    ensures s == before + Trim(s) + after
    ensures (forall k :: 0 <= k < |before| ==> IsSpace(before[k])) && (forall k :: 0 <= k < |after| ==> IsSpace(after[k]))
    ensures Trim(s) != "" ==> !IsSpace(Trim(s)[0]) && !IsSpace(Trim(s)[|Trim(s)| - 1])
  {
    var middle := TrimStart(s);
    TrimStartParts(s);
    TrimEndParts(middle);
    before, after := s[..|s| - |middle|], middle[|Trim(s)|..];
  }

  /** The whole part has no dot; the fraction is what follows the first one. */
  lemma SplitMeaning(s: string)
    ensures var (whole, frac) := SplitDot(s);
      '.' !in whole && (s == whole + "." + frac || (s == whole && frac == ""))
  {
  }

  lemma ComposeErrors(whole: nat, frac: nat, factor: nat)
    ensures Compose(whole, frac, factor) == Err(ExceedsU64) <==> TWO64 <= whole * factor + frac <= U128_MAX
    ensures Compose(whole, frac, factor) == Err(FixedPointOverflow) <==> whole * factor + frac > U128_MAX
    ensures Compose(whole, frac, factor).Err? ==>
      Compose(whole, frac, factor).error == ExceedsU64 || Compose(whole, frac, factor).error == FixedPointOverflow
  {
  }

  /** Which error a text that does not parse is given. */
  lemma ErrorMeaning(text: string, decimals: nat)
    ensures var r, s := ParseFixed(text, decimals), Trim(text);
      var (whole, frac) := SplitDot(s);
      && (r == Err(EmptyString) <==> s == "")
      && (r == Err(InvalidInteger) <==> s != "" && (whole == "" || !AllDigits(whole)))
      && (r == Err(InvalidFraction) <==> s != "" && whole != "" && AllDigits(whole) && !AllDigits(frac))
      && (r == Err(IntegerOverflow) <==> s != "" && WellFormed(whole, frac) && Value(whole) > U128_MAX)
  {
    var (whole, frac) := SplitDot(Trim(text));
    if WellFormed(whole, frac) {
      ParseParts(whole, frac, decimals);
      ComposeErrors(Value(whole), if frac == "" then 0 else Value(Fit(frac, decimals)), PowU128(decimals));
    }
  }

  /** The value a well-formed text parses to, if it fits. */
  function Fixed(whole: string, frac: string, decimals: nat): nat
    requires WellFormed(whole, frac)
  {
    Value(whole) * Pow10(decimals) + Value(Fit(frac, decimals))
  }

  lemma DenotedIsFixed(whole: string, frac: string, decimals: nat, v: nat)
    requires WellFormed(whole, frac)
    ensures Denotes(whole, frac, decimals, v) <==> v == Fixed(whole, frac, decimals)
  {
    FixedDenotes(whole, frac, decimals);
    FloorUnique(v, Fixed(whole, frac, decimals), Digits(whole, frac) * Pow10(decimals), Pow10(|frac|));
  }

  /** None of the u128 checks fires on a value that fits a u64. */
  lemma ComposeExact(whole: nat, frac: nat, factor: nat)
    ensures Compose(whole, frac, factor).Ok? <==> whole * factor + frac < TWO64
    ensures Compose(whole, frac, factor).Ok? ==> Compose(whole, frac, factor).value == whole * factor + frac
  {
  }

  lemma ScaledAtLeast(w: nat, p: nat)
    requires p > 0
    ensures w <= w * p
  {
  }

  /** The parts of a parse that succeeds. */
  lemma ParseParts(whole: string, frac: string, decimals: nat)
    requires WellFormed(whole, frac)
    ensures var f := if frac == "" then Some(0) else ParseU128(Fit(frac, decimals));
      f.Some? <==> (decimals >= 1 || frac == "") && Value(Fit(frac, decimals)) <= U128_MAX
    ensures var f := if frac == "" then Some(0) else ParseU128(Fit(frac, decimals));
      f.Some? ==> f.value == Value(Fit(frac, decimals))
  {
    EmptyFraction(decimals);
    assert |Fit(frac, decimals)| == decimals;
  }

  /** Which texts parse, at any number of decimals, with the factor as the source computes it. */
  lemma ParseExact(text: string, decimals: nat, v: U64)
    ensures var (whole, frac) := SplitDot(Trim(text));
      ParseFixed(text, decimals) == Ok(v) <==>
        && WellFormed(whole, frac) && (decimals >= 1 || frac == "")
        && Value(whole) <= U128_MAX && Value(Fit(frac, decimals)) <= U128_MAX
        && v == Value(whole) * PowU128(decimals) + Value(Fit(frac, decimals))
  {
    var (whole, frac) := SplitDot(Trim(text));
    if WellFormed(whole, frac) {
      ParseParts(whole, frac, decimals);
      ComposeExact(Value(whole), Value(Fit(frac, decimals)), PowU128(decimals));
    }
  }

  /** The factor is a true power of ten, or too large for any whole part but zero. */
  predicate HarmlessFactor(decimals: nat) {
    PowU128(decimals) == Pow10(decimals) || PowU128(decimals) >= TWO64
  }

  lemma HarmlessUpTo38(decimals: nat)
    requires decimals <= 38
    ensures HarmlessFactor(decimals)
  {
    PowFits(decimals);
  }

  lemma FactorHarmless(whole: nat, frac: nat, decimals: nat)
    requires HarmlessFactor(decimals)
    ensures whole * PowU128(decimals) + frac < TWO64 <==> whole * Pow10(decimals) + frac < TWO64
    ensures whole * PowU128(decimals) + frac < TWO64 ==> whole * PowU128(decimals) == whole * Pow10(decimals)
    ensures whole * Pow10(decimals) + frac < TWO64 ==> whole <= U128_MAX
  {
    ScaledAtLeast(whole, Pow10(decimals));
    if PowU128(decimals) != Pow10(decimals) && whole > 0 {
      PowSmall(decimals);
      ScaledAtLeast(PowU128(decimals), whole);
      ScaledAtLeast(Pow10(decimals), whole);
    }
  }

  lemma ParseIsFixed(text: string, decimals: nat)
    requires HarmlessFactor(decimals)
    ensures var (whole, frac) := SplitDot(Trim(text));
      && (ParseFixed(text, decimals).Ok? <==>
            WellFormed(whole, frac) && (decimals >= 1 || frac == "") && Fixed(whole, frac, decimals) < TWO64)
      && (ParseFixed(text, decimals).Ok? ==> ParseFixed(text, decimals).value == Fixed(whole, frac, decimals))
  {
    var (whole, frac) := SplitDot(Trim(text));
    if ParseFixed(text, decimals).Ok? { ParseExact(text, decimals, ParseFixed(text, decimals).value); }
    if WellFormed(whole, frac) {
      FactorHarmless(Value(whole), Value(Fit(frac, decimals)), decimals);
      if Fixed(whole, frac, decimals) < TWO64 { ParseExact(text, decimals, Fixed(whole, frac, decimals)); }
    }
  }

  /** The text parses to `v` exactly when it is well formed and `v` is the number written, rounded down. */
  ghost predicate Faithful(text: string, decimals: nat, v: U64) {
    var (whole, frac) := SplitDot(Trim(text));
    ParseFixed(text, decimals) == Ok(v) <==>
      WellFormed(whole, frac) && (decimals >= 1 || frac == "") && Denotes(whole, frac, decimals, v)
  }

  lemma HarmlessFaithful(text: string, decimals: nat, v: U64)
    requires HarmlessFactor(decimals)
    ensures Faithful(text, decimals, v)
  {
    var (whole, frac) := SplitDot(Trim(text));
    ParseIsFixed(text, decimals);
    if WellFormed(whole, frac) {
      DenotedIsFixed(whole, frac, decimals, v);
    }
  }

  /** A small factor that is no power of ten: "1" parses to it. */
  lemma OneIsMisread(decimals: nat)
    requires !HarmlessFactor(decimals)
    ensures !Faithful("1", decimals, PowU128(decimals))
  {
    assert "1"[1..] == "" && Find("1", '.') == 1;
    assert Trim("1") == "1" && SplitDot("1") == ("1", "");
    assert "1"[..0] == "" && Value("1") == 1;
    EmptyFraction(decimals);
    ParseExact("1", decimals, PowU128(decimals));
    DenotedIsFixed("1", "", decimals, PowU128(decimals));
  }

  /** The parser means what is written, for every text, exactly when its factor is harmless; up to 38 decimals it is. */
  lemma ParseMeaning(decimals: nat)
    ensures (forall text, v: U64 :: Faithful(text, decimals, v)) <==> HarmlessFactor(decimals)
    ensures decimals <= 38 ==> HarmlessFactor(decimals)
  {
    if decimals <= 38 { HarmlessUpTo38(decimals); }
    if HarmlessFactor(decimals) {
      forall text, v: U64 ensures Faithful(text, decimals, v) { HarmlessFaithful(text, decimals, v); }
    } else {
      OneIsMisread(decimals);
    }
  }

  // ----- printing ---------------------------------------------------------------

  function Digit(n: nat): (c: char)
    requires n < 10
    ensures IsDigit(c) && DigitValue(c) == n
  {
    ('0' as int + n) as char
  }

  function Show(n: nat): (s: string)
    ensures AllDigits(s) && s != "" && Value(s) == n
  {
    if n < 10 then [Digit(n)]
    else
      var s := Show(n / 10) + [Digit(n % 10)];
      assert s[..|s| - 1] == Show(n / 10);
      s
  }

  lemma {:induction false} ShowShort(n: nat, d: nat)
    requires d >= 1 && n < Pow10(d)
    ensures |Show(n)| <= d
  {
    if n >= 10 { ShowShort(n / 10, d - 1); }
  }

  function PadLeft(s: string, width: nat): string {
    if |s| < width then Zeros(width - |s|) + s else s
  }

  /** A balance with `decimals` digits after the dot; 10^19 is the largest power of ten a u64 holds, and the division fails
      where the wrapped power is zero. */
  function BalanceDisplay(balance: U64, decimals: nat): string
    requires PowU64(decimals) > 0
  {
    Show(Quotient(balance, PowU64(decimals))) + "." + PadLeft(Show(Remainder(balance, PowU64(decimals))), decimals)
  }

  lemma {:induction false} FindAfter(a: string, b: string, c: char)
    requires c !in a
    ensures Find(a + [c] + b, c) == |a|
  {
    var s := a + [c] + b;
    if a != [] {
      assert s[0] == a[0];
      assert s[1..] == a[1..] + [c] + b;
      FindAfter(a[1..], b, c);
    }
  }

  lemma PrintedSplits(whole: string, frac: string)
    requires AllDigits(whole) && AllDigits(frac) && whole != "" && frac != ""
    ensures Trim(whole + "." + frac) == whole + "." + frac
    ensures SplitDot(whole + "." + frac) == (whole, frac)
  {
    var s := whole + "." + frac;
    assert s[0] == whole[0] && s[|s| - 1] == frac[|frac| - 1];
    assert IsDigit(s[0]) && IsDigit(s[|s| - 1]);
    assert !IsSpace(s[0]) && !IsSpace(s[|s| - 1]);
    FindAfter(whole, frac, '.');
    assert s == whole + ['.'] + frac;
    assert s[..|whole|] == whole && s[|whole| + 1..] == frac;
  }

  lemma PadLeftValue(s: string, width: nat)
    requires AllDigits(s)
    ensures AllDigits(PadLeft(s, width)) && Value(PadLeft(s, width)) == Value(s)
  {
    if |s| < width {
      ValueAppend(Zeros(width - |s|), s);
      ValueZeros(width - |s|);
    }
  }

  lemma DisplayParts(balance: U64, decimals: nat) returns (whole: string, frac: string)
    requires PowU64(decimals) > 0
    ensures SplitDot(Trim(BalanceDisplay(balance, decimals))) == (whole, frac)
    ensures WellFormed(whole, frac) && frac != ""
    ensures Value(whole) == Quotient(balance, PowU64(decimals)) && Value(frac) == Remainder(balance, PowU64(decimals))
    ensures decimals >= 1 ==> Fit(frac, decimals) == frac
  {
    var p := PowU64(decimals);
    var q, r := Quotient(balance, p), Remainder(balance, p);
    whole, frac := Show(q), PadLeft(Show(r), decimals);
    PadLeftValue(Show(r), decimals);
    PrintedSplits(whole, frac);
    if decimals >= 1 {
      RemainderShort(r, decimals);
      ShowShort(r, decimals);
      assert Fit(frac, decimals) == frac;
    }
  }

  lemma RemainderShort(r: nat, decimals: nat)
    requires r < PowU64(decimals)
    ensures r < Pow10(decimals)
  {
  }

  lemma PowU64Exact(decimals: nat)
    ensures decimals <= 19 ==> PowU64(decimals) == PowU128(decimals) == Pow10(decimals) < TWO64
  {
    if decimals <= 19 {
      PowBound(decimals, 19);
      Pow38();
      PowSmall(decimals);
    }
  }

  lemma SmallQuotient(n: nat, d: nat)
    requires d > 0
    ensures Quotient(n, d) == 0 <==> n < d
    ensures n < d ==> Remainder(n, d) == n
  {
  }

  /** Whole and remainder put together again with another factor. */
  lemma Reassembled(n: nat, d: nat, p: nat)
    requires 0 < d < TWO64 && d == p % TWO64
    ensures Quotient(n, d) * p + Remainder(n, d) == n <==> n < d || p < TWO64
  {
    Recompose(n, d);
    SmallQuotient(n, d);
    if n >= d && p >= TWO64 {
      assert Quotient(n, d) * p == Quotient(n, d) * d + Quotient(n, d) * (p - d);
      ScaledAtLeast(Quotient(n, d), p - d);
    }
  }

  /** Reading back a printed balance gives the balance exactly when at least one decimal is printed and the factor fits a
      u64 or exceeds the balance; up to 19 decimals it fits. */
  lemma DisplayRoundTrip(balance: U64, decimals: nat)
    requires PowU64(decimals) > 0
    ensures ParseFixed(BalanceDisplay(balance, decimals), decimals) == Ok(balance) <==>
      decimals >= 1 && (balance < PowU64(decimals) || PowU128(decimals) < TWO64)
    ensures decimals <= 19 ==> PowU128(decimals) < TWO64
  {
    var whole, frac := DisplayParts(balance, decimals);
    PowCut(decimals);
    PowU64Exact(decimals);
    ParseExact(BalanceDisplay(balance, decimals), decimals, balance);
    Recompose(balance, PowU64(decimals));
    Reassembled(balance, PowU64(decimals), PowU128(decimals));
    ScaledAtLeast(Quotient(balance, PowU64(decimals)), PowU64(decimals));
  }
}
