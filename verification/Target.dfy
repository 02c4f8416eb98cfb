/** Prime chain targets: 8 bits of chain length and 24 bits of fractional length in one 32-bit word.
    Retargeting, mint value and block work are exact integer arithmetic on it. */
module Target {
  import opened Arithmetic
  import opened Primitives

  const TWO16: nat := 0x1_0000
  const TWO24: nat := 0x100_0000
  const TWO32: nat := 0x1_0000_0000
  const TWO40: nat := 0x100_0000_0000
  const TWO56: nat := 0x100_0000_0000_0000

  const DIFFICULTY_MAX: nat := TWO56
  const DIFFICULTY_MIN: nat := TWO32
  const DIFFICULTY_THRESHOLD: nat := TWO40
  const TARGET_MIN_LENGTH: nat := 6
  const TRANSITION_RATIO: nat := 32

  /** An unsigned 32-bit target. */
  type Bits = n: nat | n < TWO32

  function Length(bits: Bits): (r: nat)
    ensures r < 256
  {
    bits / TWO24
  }

  function Fractional(bits: Bits): (r: nat)
    ensures r < TWO24
  {
    bits % TWO24
  }

  function Target(length: nat, fractional: nat): (r: Bits)
    requires length < 256 && fractional < TWO24
    ensures Length(r) == length && Fractional(r) == fractional
  {
    length * TWO24 + fractional
  }

  function FractionalDifficulty(bits: Bits): (r: nat)
    ensures DIFFICULTY_MIN <= r <= DIFFICULTY_MAX
  {
    DivBounds(TWO56, TWO24 - Fractional(bits), TWO32);
    TWO56 / (TWO24 - Fractional(bits))
  }

  /** TargetSetFractionalDifficulty: None is the error return. */
  function SetFractionalDifficulty(difficulty: nat, bits: Bits): Option<Bits> {
    if difficulty < DIFFICULTY_MIN then None
    else
      var fractional := TWO56 / difficulty;
      if fractional > TWO24 then None
      else if fractional == 0 then
        // Only for difficulties past the maximum: 2^24 - 0 spills into the length bits.
        var l := Length(bits);
        Some((if l % 2 == 0 then l + 1 else l) * TWO24)
      else Some(Target(Length(bits), TWO24 - fractional))
  }

  function IncrementLength(bits: Bits): Bits {
    (bits + TWO24) % TWO32
  }

  function DecrementLength(bits: Bits): Bits {
    if Length(bits) > TARGET_MIN_LENGTH then bits - TWO24 else bits
  }

  // ---------- Retargeting ----------

  /** Division of big numbers truncates toward zero. */
  function Truncated(a: nat, b: int): int
    requires b != 0
  {
    if b > 0 then a / b else -(a / -b)
  }

  function Clamp(d: int): (r: nat)
    ensures DIFFICULTY_MIN <= r <= DIFFICULTY_MAX
    ensures DIFFICULTY_MIN <= d <= DIFFICULTY_MAX ==> r == d
  {
    if d > DIFFICULTY_MAX then DIFFICULTY_MAX
    else if d < DIFFICULTY_MIN then DIFFICULTY_MIN
    else d
  }

  function RetargetDenominator(interval: nat, targetSpacing: nat, actualSpacing: int): int {
    (interval - 1) * targetSpacing + actualSpacing + actualSpacing
  }

  function RetargetDifficulty(bits: Bits, interval: nat, targetSpacing: nat, actualSpacing: int): nat
    requires RetargetDenominator(interval, targetSpacing, actualSpacing) != 0
  {
    Clamp(Truncated(FractionalDifficulty(bits) * ((interval + 1) * targetSpacing),
                    RetargetDenominator(interval, targetSpacing, actualSpacing)))
  }

  /** Carry a new fractional difficulty into length and fraction. */
  function Renormalize(bits: Bits, difficulty: nat): Option<Bits> {
    if difficulty > DIFFICULTY_THRESHOLD then SetFractionalDifficulty(DIFFICULTY_MIN, IncrementLength(bits))
    else if difficulty == DIFFICULTY_MIN && Length(bits) > TARGET_MIN_LENGTH then
      SetFractionalDifficulty(DIFFICULTY_THRESHOLD, DecrementLength(bits))
    else SetFractionalDifficulty(difficulty, bits)
  }

  /** TargetGetNext; a zero denominator raises an exception in the big-number division. */
  function GetNext(bits: Bits, interval: nat, targetSpacing: nat, actualSpacing: int): Option<Bits> {
    if RetargetDenominator(interval, targetSpacing, actualSpacing) == 0 then None
    else Renormalize(bits, RetargetDifficulty(bits, interval, targetSpacing, actualSpacing))
  }

  /** Reading the fractional difficulty of a target and setting it again changes nothing: dividing 2^56 by it
      recovers the divisor, because the divisor is at most 2^24. */
  lemma DifficultyRoundTrip(bits: Bits)
    ensures SetFractionalDifficulty(FractionalDifficulty(bits), bits) == Some(bits)
  {
    var n := TWO24 - Fractional(bits);
    var d := FractionalDifficulty(bits);
    assert n * d <= TWO56 < n * (d + 1);
    assert n * d + n == n * (d + 1);
    assert d < (n + 1) * d - n * d + 1;
    assert n <= d;
    assert (n + 1) * d == n * d + d;
    DivUnique(TWO56, d, n);
  }

  lemma SetIsMonotone(d1: nat, d2: nat, bits: Bits)
    requires DIFFICULTY_MIN <= d1 <= d2 <= DIFFICULTY_MAX
    ensures SetFractionalDifficulty(d1, bits).Some? && SetFractionalDifficulty(d2, bits).Some?
    ensures SetFractionalDifficulty(d1, bits).value <= SetFractionalDifficulty(d2, bits).value
    ensures Length(SetFractionalDifficulty(d1, bits).value) == Length(bits)
    ensures d1 == DIFFICULTY_MIN ==> Fractional(SetFractionalDifficulty(d1, bits).value) == 0
    ensures d1 <= DIFFICULTY_THRESHOLD ==> Fractional(SetFractionalDifficulty(d1, bits).value) <= TWO24 - TWO16
  {
    DivAntitone(TWO56, d1, d2);
    DivBounds(TWO56, d2, 1);
    DivAntitone(TWO56, DIFFICULTY_MIN, d1);
    if d1 <= DIFFICULTY_THRESHOLD {
      DivAntitone(TWO56, d1, DIFFICULTY_THRESHOLD);
    }
  }

  /** Incrementing the length wraps around at 255 and nowhere else. */
  lemma IncrementWraps(bits: Bits)
    ensures Length(IncrementLength(bits)) == (Length(bits) + 1) % 256
    ensures Fractional(IncrementLength(bits)) == Fractional(bits)
  {
  }

  ghost predicate StepsUp(difficulty: nat) {
    difficulty > DIFFICULTY_THRESHOLD
  }

  /** A new target differs in length by at most one, never drops below the minimum length, and keeps its fraction
      below the threshold, unless the 8-bit length overflows. */
  lemma RenormalizeBounds(bits: Bits, d: nat)
    requires DIFFICULTY_MIN <= d <= DIFFICULTY_MAX && Length(bits) >= TARGET_MIN_LENGTH
    ensures Renormalize(bits, d).Some?
    ensures var next := Renormalize(bits, d).value;
            && Fractional(next) <= TWO24 - TWO16
            && (Length(bits) - 1 <= Length(next) <= Length(bits) + 1 && Length(next) >= TARGET_MIN_LENGTH
                <==> !(Length(bits) == 255 && StepsUp(d)))
  {
    SetIsMonotone(DIFFICULTY_MIN, DIFFICULTY_MIN, IncrementLength(bits));
    SetIsMonotone(DIFFICULTY_THRESHOLD, DIFFICULTY_THRESHOLD, DecrementLength(bits));
    SetIsMonotone(d, d, bits);
    IncrementWraps(bits);
  }

  /** The 8-bit length overflows. */
  ghost predicate Wraps(bits: Bits, difficulty: nat) {
    Length(bits) == 255 && StepsUp(difficulty)
  }

  /** What a new difficulty makes of a target, as length and fraction. */
  lemma RenormalizeCases(bits: Bits, d: nat)
    requires DIFFICULTY_MIN <= d <= DIFFICULTY_MAX && Length(bits) >= TARGET_MIN_LENGTH
    ensures Renormalize(bits, d).Some?
    ensures var next := Renormalize(bits, d).value;
            if StepsUp(d) then next == if Length(bits) == 255 then 0 else (Length(bits) + 1) * TWO24
            else if d == DIFFICULTY_MIN && Length(bits) > TARGET_MIN_LENGTH then Length(next) == Length(bits) - 1
            else Length(next) == Length(bits) && (Fractional(next) == 0 <==> d == DIFFICULTY_MIN)
  {
    SetIsMonotone(DIFFICULTY_MIN, DIFFICULTY_MIN, IncrementLength(bits));
    SetIsMonotone(DIFFICULTY_THRESHOLD, DIFFICULTY_THRESHOLD, DecrementLength(bits));
    SetIsMonotone(d, d, bits);
    IncrementWraps(bits);
    if d > DIFFICULTY_MIN {
      MulLe(DIFFICULTY_MIN + 1, d, TWO24);
      QuotientBounds(TWO56, d);
      if TWO56 / d >= TWO24 {
        MulLe(TWO24, TWO56 / d, d);
      }
    }
  }

  /** A higher difficulty gives a target at least as high, unless only the higher one overflows. */
  lemma RenormalizeOrder(bits: Bits, d1: nat, d2: nat)
    requires DIFFICULTY_MIN <= d1 <= d2 <= DIFFICULTY_MAX && Length(bits) >= TARGET_MIN_LENGTH
    ensures Renormalize(bits, d1).Some? && Renormalize(bits, d2).Some?
    ensures Renormalize(bits, d1).value <= Renormalize(bits, d2).value <==> !Wraps(bits, d2) || Wraps(bits, d1)
    ensures d1 == DIFFICULTY_MIN ==>
              (Renormalize(bits, d2).value <= Renormalize(bits, d1).value <==> d2 == DIFFICULTY_MIN || Wraps(bits, d2))
  {
    RenormalizeCases(bits, d1);
    RenormalizeCases(bits, d2);
    if !StepsUp(d2) && !(d1 == DIFFICULTY_MIN && Length(bits) > TARGET_MIN_LENGTH) {
      SetIsMonotone(d1, d2, bits);
    }
    hide SetFractionalDifficulty, IncrementLength, DecrementLength;
  }

  /** Retargeting succeeds exactly when the denominator is not zero, and stays in bounds. */
  lemma GetNextBounds(bits: Bits, interval: nat, targetSpacing: nat, actualSpacing: int)
    requires Length(bits) >= TARGET_MIN_LENGTH
    ensures GetNext(bits, interval, targetSpacing, actualSpacing).Some?
       <==> RetargetDenominator(interval, targetSpacing, actualSpacing) != 0
    ensures GetNext(bits, interval, targetSpacing, actualSpacing).Some? ==>
              var next := GetNext(bits, interval, targetSpacing, actualSpacing).value;
              var d := RetargetDifficulty(bits, interval, targetSpacing, actualSpacing);
              && Fractional(next) <= TWO24 - TWO16
              && (Length(bits) - 1 <= Length(next) <= Length(bits) + 1 && Length(next) >= TARGET_MIN_LENGTH
                  <==> !(Length(bits) == 255 && StepsUp(d)))
  {
    if RetargetDenominator(interval, targetSpacing, actualSpacing) != 0 {
      RenormalizeBounds(bits, RetargetDifficulty(bits, interval, targetSpacing, actualSpacing));
    }
  }

  /** The fractional difficulty is 2^32 divided by what is missing from the fraction to 1, rounded down. */
  lemma DifficultyMeans(bits: Bits)
    ensures FractionalDifficulty(bits) * (0x100_0000 - bits % 0x100_0000) <= 0x100_0000_0000_0000
    ensures 0x100_0000_0000_0000 < (FractionalDifficulty(bits) + 1) * (0x100_0000 - bits % 0x100_0000)
  {
    QuotientBounds(TWO56, TWO24 - Fractional(bits));
  }

  /** Setting a difficulty within its bounds, undone: what is missing from the new fraction to 1. */
  lemma SetMeans(d: nat, bits: Bits)
    requires DIFFICULTY_MIN <= d <= DIFFICULTY_MAX
    ensures SetFractionalDifficulty(d, bits).Some?
    ensures var next := SetFractionalDifficulty(d, bits).value;
            var missing := TWO24 - Fractional(next);
            Length(next) == Length(bits) && missing * d <= TWO56 < (missing + 1) * d
  {
    DivAntitone(TWO56, DIFFICULTY_MIN, d);
    DivBounds(TWO56, d, 1);
    QuotientBounds(TWO56, d);
  }

  /** Numerator and denominator of the new difficulty. */
  ghost predicate Quotes(bits: Bits, interval: nat, targetSpacing: nat, actualSpacing: int, num: int, den: int) {
    && num == FractionalDifficulty(bits) * (interval + 1) * targetSpacing
    && den == (interval - 1) * targetSpacing + 2 * actualSpacing
  }

  lemma QuotesRetarget(bits: Bits, interval: nat, targetSpacing: nat, actualSpacing: int, num: int, den: int)
    requires Quotes(bits, interval, targetSpacing, actualSpacing, num, den)
    ensures den == RetargetDenominator(interval, targetSpacing, actualSpacing) && num >= 0
    ensures den > 0 ==> RetargetDifficulty(bits, interval, targetSpacing, actualSpacing) == Clamp(num / den)
    ensures den < 0 ==> RetargetDifficulty(bits, interval, targetSpacing, actualSpacing) == DIFFICULTY_MIN
  {
    var f := FractionalDifficulty(bits);
    assert f * (interval + 1) * targetSpacing == f * ((interval + 1) * targetSpacing);
    hide FractionalDifficulty;
    if den < 0 {
      NegativeMeansMinimum(bits, interval, targetSpacing, actualSpacing);
    }
  }

  /** A quotient against a whole number. */
  lemma QuotientAbove(a: nat, b: nat, k: nat)
    requires b > 0
    ensures a / b > k <==> a >= (k + 1) * b
  {
    QuotientBounds(a, b);
    if a / b > k {
      MulLe(k + 1, a / b, b);
    } else {
      MulLe(a / b + 1, k + 1, b);
    }
  }

  /** Where the next target lies, in full.  The difficulty num / den, where num is the old one times (interval + 1)
      spacings and den is interval - 1 spacings and twice the actual one, leads to the next length with no fraction if
      it is above 2^40, to the fraction 1 - 2^-8 of the length below if it is not above 2^32 and there is one, and
      otherwise to the fraction of the same length that belongs to it. */
  lemma GetNextExact(bits: Bits, interval: nat, targetSpacing: nat, actualSpacing: int, num: int, den: int)
    requires Length(bits) >= TARGET_MIN_LENGTH && Quotes(bits, interval, targetSpacing, actualSpacing, num, den)
    ensures GetNext(bits, interval, targetSpacing, actualSpacing).Some? <==> den != 0
    ensures den != 0 ==>
              var next := GetNext(bits, interval, targetSpacing, actualSpacing).value;
              var length, missing := bits / 0x100_0000, 0x100_0000 - next % 0x100_0000;
              var low := den < 0 || num < (0x1_0000_0000 + 1) * den;
              if den > 0 && num >= (0x100_0000_0000 + 1) * den then
                next == if length == 255 then 0 else (length + 1) * 0x100_0000
              else if low && length > 6 then next == (length - 1) * 0x100_0000 + (0x100_0000 - 0x1_0000)
              else if low then next == length * 0x100_0000
              else && next / 0x100_0000 == length
                   && missing * num < (0x100_0000_0000_0000 + missing) * den
                   && 0x100_0000_0000_0000 * den < (missing + 1) * num
  {
    QuotesRetarget(bits, interval, targetSpacing, actualSpacing, num, den);
    if den != 0 {
      var d := RetargetDifficulty(bits, interval, targetSpacing, actualSpacing);
      hide RetargetDifficulty, RetargetDenominator, Quotes;
      RenormalizeExact(bits, d);
      if den > 0 {
        ClampedQuotient(num, den);
        if DIFFICULTY_MIN < d <= DIFFICULTY_THRESHOLD {
          var next := Renormalize(bits, d).value;
          ScaleQuotient(num, den, d, TWO24 - Fractional(next));
        }
      }
    }
  }

  lemma ClampedQuotient(num: nat, den: nat)
    requires den > 0
    ensures var d := Clamp(num / den);
            && (d > DIFFICULTY_THRESHOLD <==> num >= (DIFFICULTY_THRESHOLD + 1) * den)
            && (d == DIFFICULTY_MIN <==> num < (DIFFICULTY_MIN + 1) * den)
            && (DIFFICULTY_MIN < d <= DIFFICULTY_THRESHOLD ==> d == num / den)
  {
    QuotientAbove(num, den, DIFFICULTY_THRESHOLD);
    QuotientAbove(num, den, DIFFICULTY_MIN);
  }

  /** What a new difficulty makes of a target, in full. */
  lemma RenormalizeExact(bits: Bits, d: nat)
    requires DIFFICULTY_MIN <= d <= DIFFICULTY_MAX && Length(bits) >= TARGET_MIN_LENGTH
    ensures Renormalize(bits, d).Some?
    ensures var next := Renormalize(bits, d).value;
            var missing := TWO24 - Fractional(next);
            if d > DIFFICULTY_THRESHOLD then next == if Length(bits) == 255 then 0 else (Length(bits) + 1) * TWO24
            else if d == DIFFICULTY_MIN && Length(bits) > 6 then next == (Length(bits) - 1) * TWO24 + (TWO24 - TWO16)
            else if d == DIFFICULTY_MIN then next == Length(bits) * TWO24
            else Length(next) == Length(bits) && missing * d <= TWO56 < (missing + 1) * d
  {
    RenormalizeCases(bits, d);
    SetMeans(d, bits);
  }

  lemma ScaleQuotient(num: nat, den: nat, d: nat, missing: nat)
    requires den > 0 && missing > 0 && d == num / den && missing * d <= TWO56 < (missing + 1) * d
    ensures missing * num < (TWO56 + missing) * den && TWO56 * den < (missing + 1) * num
  {
    QuotientBounds(num, den);
    ScaleBelow(num, den, d, missing, TWO56);
    ScaleAbove(num, den, d, missing + 1, TWO56);
  }

  lemma ScaleBelow(num: nat, den: nat, d: nat, k: nat, limit: nat)
    requires num < (d + 1) * den && k > 0 && k * d <= limit
    ensures k * num < (limit + k) * den
  {
    MulLe(num + 1, (d + 1) * den, k);
    assert (num + 1) * k == k * num + k;
    SuccScale(d, den, k);
    MulLe(d * k, limit, den);
    assert (limit + k) * den == limit * den + den * k;
  }

  lemma ScaleAbove(num: nat, den: nat, d: nat, k: nat, limit: nat)
    requires d * den <= num && den > 0 && limit < k * d
    ensures limit * den < k * num
  {
    MulLe(limit + 1, k * d, den);
    assert (limit + 1) * den == limit * den + den;
    assert k * d * den == d * den * k;
    MulLe(d * den, num, k);
  }

  /** The length does overflow: a target of length 255 that has to step up becomes the easiest target of all. */
  lemma LengthOverflows()
    ensures Length(Target(255, 0)) >= TARGET_MIN_LENGTH
    ensures GetNext(Target(255, 0), 10080, 60, -302369) == Some(0)
  {
    assert RetargetDenominator(10080, 60, -302369) == 2;
    assert FractionalDifficulty(Target(255, 0)) == TWO32;
    RenormalizeCases(Target(255, 0), DIFFICULTY_MAX);
  }

  lemma NegativeMeansMinimum(bits: Bits, interval: nat, targetSpacing: nat, actualSpacing: int)
    requires RetargetDenominator(interval, targetSpacing, actualSpacing) < 0
    ensures RetargetDifficulty(bits, interval, targetSpacing, actualSpacing) == DIFFICULTY_MIN
  {
    hide FractionalDifficulty, Truncated;
    var n := FractionalDifficulty(bits) * ((interval + 1) * targetSpacing);
    TruncatedNegative(n, RetargetDenominator(interval, targetSpacing, actualSpacing));
  }

  lemma TruncatedNegative(a: nat, b: int)
    requires b < 0
    ensures Truncated(a, b) <= 0
  {
    DivBounds(a, -b, 0);
  }

  lemma SlowerIsEasier(bits: Bits, interval: nat, targetSpacing: nat, faster: int, slower: int)
    requires faster <= slower && RetargetDenominator(interval, targetSpacing, faster) > 0
    ensures RetargetDenominator(interval, targetSpacing, slower) > 0
    ensures RetargetDifficulty(bits, interval, targetSpacing, slower)
              <= RetargetDifficulty(bits, interval, targetSpacing, faster)
  {
    var n := FractionalDifficulty(bits) * ((interval + 1) * targetSpacing);
    DivAntitone(n, RetargetDenominator(interval, targetSpacing, faster),
                RetargetDenominator(interval, targetSpacing, slower));
  }

  /** When slower blocks do not raise the target.  They never do while the denominators are positive and the length
      does not overflow; the exact condition is on the signs of the denominators, on the clamp at the minimum
      difficulty and on the overflow of length 255. */
  lemma GetNextOrder(bits: Bits, interval: nat, targetSpacing: nat, faster: int, slower: int)
    requires Length(bits) >= TARGET_MIN_LENGTH && faster <= slower
    requires RetargetDenominator(interval, targetSpacing, faster) != 0
    requires RetargetDenominator(interval, targetSpacing, slower) != 0
    ensures GetNext(bits, interval, targetSpacing, faster).Some? && GetNext(bits, interval, targetSpacing, slower).Some?
    ensures GetNext(bits, interval, targetSpacing, slower).value <= GetNext(bits, interval, targetSpacing, faster).value
       <==> var dFast := RetargetDifficulty(bits, interval, targetSpacing, faster);
            var dSlow := RetargetDifficulty(bits, interval, targetSpacing, slower);
            || Wraps(bits, dSlow)
            || (!Wraps(bits, dFast) && (|| RetargetDenominator(interval, targetSpacing, faster) > 0
                                        || RetargetDenominator(interval, targetSpacing, slower) < 0
                                        || dSlow == DIFFICULTY_MIN))
  {
    var dFast := RetargetDifficulty(bits, interval, targetSpacing, faster);
    var dSlow := RetargetDifficulty(bits, interval, targetSpacing, slower);
    if RetargetDenominator(interval, targetSpacing, faster) > 0 {
      SlowerIsEasier(bits, interval, targetSpacing, faster, slower);
      hide Renormalize, RetargetDifficulty, RetargetDenominator;
      RenormalizeOrder(bits, dSlow, dFast);
    } else {
      NegativeMeansMinimum(bits, interval, targetSpacing, faster);
      if RetargetDenominator(interval, targetSpacing, slower) < 0 {
        NegativeMeansMinimum(bits, interval, targetSpacing, slower);
      }
      hide Renormalize, RetargetDifficulty, RetargetDenominator;
      RenormalizeOrder(bits, dFast, dSlow);
    }
  }

  /** The order does turn around: a spacing far enough in the past lowers the target instead of raising it. */
  lemma NegativeDenominatorLowersTarget()
    ensures RetargetDenominator(10080, 60, -400000) < 0 < RetargetDenominator(10080, 60, -300000)
    ensures GetNext(Target(10, 0), 10080, 60, -400000).Some? && GetNext(Target(10, 0), 10080, 60, -300000).Some?
    ensures GetNext(Target(10, 0), 10080, 60, -400000).value < GetNext(Target(10, 0), 10080, 60, -300000).value
  {
    GetNextBounds(Target(10, 0), 10080, 60, -400000);
    GetNextBounds(Target(10, 0), 10080, 60, -300000);
    assert RetargetDenominator(10080, 60, -400000) == -195260;
    assert RetargetDenominator(10080, 60, -300000) == 4740;
    assert FractionalDifficulty(Target(10, 0)) == TWO32;
    assert Truncated(TWO32 * 604860, -195260) < 0;
    assert TWO32 * 604860 / 4740 > TWO32;
  }

  /** A block found exactly on target leaves the target alone, unless it sits on one of the two length thresholds. */
  lemma OnTargetIsFixedPoint(bits: Bits, interval: nat, spacing: nat)
    requires spacing > 0 && Length(bits) >= TARGET_MIN_LENGTH
    ensures GetNext(bits, interval, spacing, spacing).Some?
    ensures GetNext(bits, interval, spacing, spacing) == Some(bits)
       <==> FractionalDifficulty(bits) <= DIFFICULTY_THRESHOLD
            && !(Fractional(bits) == 0 && Length(bits) > TARGET_MIN_LENGTH)
  {
    var scale := (interval + 1) * spacing;
    assert RetargetDenominator(interval, spacing, spacing) == scale by {
      assert (interval - 1) * spacing + spacing + spacing == (interval + 1) * spacing;
    }
    assert scale > 0 by {
      MulLe(1, interval + 1, spacing);
    }
    var d := FractionalDifficulty(bits);
    MulDivCancel(d, scale);
    assert RetargetDifficulty(bits, interval, spacing, spacing) == d;
    RenormalizeBounds(bits, d);
    DifficultyRoundTrip(bits);
    MinDifficultyMeansNoFraction(bits);
    IncrementWraps(bits);
    SetIsMonotone(DIFFICULTY_MIN, DIFFICULTY_MIN, IncrementLength(bits));
    SetIsMonotone(DIFFICULTY_THRESHOLD, DIFFICULTY_THRESHOLD, DecrementLength(bits));
  }

  lemma MinDifficultyMeansNoFraction(bits: Bits)
    ensures FractionalDifficulty(bits) == DIFFICULTY_MIN <==> Fractional(bits) == 0
  {
    var n := TWO24 - Fractional(bits);
    if n < TWO24 {
      DivAntitone(TWO56, n, TWO24 - 1);
      assert TWO56 / (TWO24 - 1) > TWO32;
    }
  }

  // ---------- Mint value ----------

  const MINT_LIMIT: nat := 999 * COIN

  function MintShifted(bits: Bits): nat
    requires bits > 0
  {
    (MINT_LIMIT * TWO24 / bits) * TWO24 / bits
  }

  function RoundToCent(n: nat): nat {
    n / CENT * CENT
  }

  /** TargetGetMint; None is its error return. */
  function GetMint(bits: Bits): Option<nat> {
    if Length(bits) < TARGET_MIN_LENGTH then None
    else
      var mint := RoundToCent(MintShifted(bits));
      if mint > MINT_LIMIT then None else Some(mint)
  }

  lemma RoundToCentBounds(n: nat)
    ensures RoundToCent(n) <= n < RoundToCent(n) + CENT
  {
  }

  /** Scaling by t/b twice, rounding down each time, loses less than two. */
  lemma ScaledTwiceBounds(a: nat, t: nat, b: nat)
    requires 0 < t <= b
    ensures var y := (a * t / b) * t / b;
            y * b * b <= a * t * t < (y + 2) * b * b
  {
    var x := a * t / b;
    var y := x * t / b;
    QuotientBounds(a * t, b);
    QuotientBounds(x * t, b);
    MulLe(x * b, a * t, t);
    MulLe(y * b, x * t, b);
    MulLe(a * t + 1, (x + 1) * b, t);
    SuccScale(x, b, t);
    MulLe(x * t + 1, (y + 1) * b, b);
    MulLe(t, b, b);
    SuccScale(y + 1, b, b);
    SuccMul(a * t, t);
    SuccMul(x * t, b);
  }

  lemma ScaledBelowLimit(m: nat, a: nat, t: nat, b: nat)
    requires 0 < t <= b && m * b * b <= a * t * t
    ensures m <= a
  {
    MulLe(t, b, t);
    MulLe(t, b, b);
    MulLe(t * t, b * b, a);
    assert m * (b * b) <= a * (b * b);
    assert b * b > 0 by {
      MulLe(1, b, b);
    }
    if m > a {
      MulLe(a + 1, m, b * b);
      assert false;
    }
  }

  /** The mint value is 999 coins over the square of the target, rounded down to the cent: it is never above
      999 * COIN * 2^48 / bits^2 and below it by less than CENT + 1. */
  lemma MintIsInverseSquare(bits: Bits)
    requires Length(bits) >= TARGET_MIN_LENGTH
    ensures GetMint(bits).Some?
    ensures GetMint(bits).value % 1_000_000 == 0
    ensures GetMint(bits).value * bits * bits <= 99_900_000_000 * 0x1_0000_0000_0000
    ensures 99_900_000_000 * 0x1_0000_0000_0000 < (GetMint(bits).value + 1_000_001) * bits * bits
  {
    var y := MintShifted(bits);
    RoundToCentBounds(y);
    ScaledTwiceBounds(MINT_LIMIT, TWO24, bits);
    ScaleLe(RoundToCent(y), y, bits);
    ScaleLe(y + 2, RoundToCent(y) + CENT + 1, bits);
    ScaledBelowLimit(RoundToCent(y), MINT_LIMIT, TWO24, bits);
  }

  /** Harder targets never mint more. */
  lemma MintNonIncreasing(easier: Bits, harder: Bits)
    requires easier <= harder && Length(easier) >= TARGET_MIN_LENGTH
    ensures GetMint(easier).Some? && GetMint(harder).Some?
    ensures GetMint(harder).value <= GetMint(easier).value
  {
    LengthMonotone(easier, harder);
    MintIsInverseSquare(easier);
    MintIsInverseSquare(harder);
    DivAntitone(MINT_LIMIT * TWO24, easier, harder);
    var x, x' := MINT_LIMIT * TWO24 / easier, MINT_LIMIT * TWO24 / harder;
    DivMonotone(x' * TWO24, x * TWO24, harder);
    DivAntitone(x * TWO24, easier, harder);
    DivMonotone(MintShifted(harder), MintShifted(easier), CENT);
  }

  lemma LengthMonotone(a: Bits, b: Bits)
    requires a <= b
    ensures Length(a) <= Length(b)
    ensures Length(a) == Length(b) ==> Fractional(a) <= Fractional(b)
  {
  }

  // ---------- Block work ----------

  function Power(e: nat): (r: nat)
    ensures r >= 1
  {
    if e == 0 then 1 else TRANSITION_RATIO * Power(e - 1)
  }

  function ExtraLength(bits: Bits): nat {
    if Length(bits) > TARGET_MIN_LENGTH then Length(bits) - TARGET_MIN_LENGTH else 0
  }

  /** Scale w by 32 f / (31 + f), where the fractional difficulty f is in units of its minimum. */
  function Interpolate(w: nat, f: nat): nat {
    MulLe(0, w, TRANSITION_RATIO * f);
    w * (TRANSITION_RATIO * f) / ((TRANSITION_RATIO - 1) * DIFFICULTY_MIN + f)
  }

  function Work(bits: Bits): nat {
    Interpolate(256 * Power(ExtraLength(bits)), FractionalDifficulty(bits))
  }

  /** GetBlockWork. */
  method GetBlockWork(bits: Bits) returns (work: nat)
    ensures work == Work(bits)
  {
    var f := FractionalDifficulty(bits);
    work := 256;
    var count := TARGET_MIN_LENGTH;
    while count < Length(bits)
      invariant TARGET_MIN_LENGTH <= count
      invariant count <= Length(bits) || count == TARGET_MIN_LENGTH
      invariant work == 256 * Power(count - TARGET_MIN_LENGTH)
    {
      work := work * TRANSITION_RATIO;
      count := count + 1;
    }
    work := Interpolate(work, f);
  }

  /** The work is 2^8 32^k times 32 f / (31 + f), rounded down, where k is the length above 6 and f the fractional
      difficulty in units of 2^32. */
  lemma WorkMeans(bits: Bits)
    ensures var k, f := if bits < 0x600_0000 then 0 else bits / 0x100_0000 - 6, FractionalDifficulty(bits);
            Work(bits) * (31 * 0x1_0000_0000 + f)
              <= Pow2(8 + 5 * k) * (32 * f)
              < (Work(bits) + 1) * (31 * 0x1_0000_0000 + f)
  {
    var k, f := ExtraLength(bits), FractionalDifficulty(bits);
    assert 256 * Power(k) == Pow2(8 + 5 * k) by {
      PowerIsPow2(k);
      Pow2Split(5 * k);
      Pow2Next(5 * k + 7);
    }
    assert bits < 0x600_0000 ==> k == 0;
    hide FractionalDifficulty, Power, Pow2;
    MulLe(0, 256 * Power(k), 32 * f);
    QuotientBounds(256 * Power(k) * (32 * f), 31 * DIFFICULTY_MIN + f);
  }

  /** One extra prime is worth a factor of 32, and the fraction interpolates: for one length the work lies
      between 256 * 32^k and 256 * 32^(k+1). */
  lemma WorkBounds(bits: Bits)
    ensures 256 * Power(ExtraLength(bits)) <= Work(bits) < 256 * Power(ExtraLength(bits) + 1)
  {
    InterpolateBounds(256 * Power(ExtraLength(bits)), FractionalDifficulty(bits));
  }

  lemma InterpolateBounds(w: nat, f: nat)
    requires w > 0 && f >= DIFFICULTY_MIN
    ensures w <= Interpolate(w, f) < w * TRANSITION_RATIO
  {
    var c := 31 * DIFFICULTY_MIN;
    MulLe(c + f, TRANSITION_RATIO * f, w);
    DivBounds(w * (TRANSITION_RATIO * f), c + f, w);
    QuotientBelow(w * TRANSITION_RATIO, f, c);
    assert w * (TRANSITION_RATIO * f) == w * TRANSITION_RATIO * f;
  }

  /** w f / (c + f) is below w. */
  lemma QuotientBelow(w: nat, f: nat, c: nat)
    requires w > 0 && c > 0
    ensures w * f / (c + f) < w
  {
    var q := w * f / (c + f);
    MulLe(1, w, c);
    assert w * (c + f) == w * c + w * f;
    QuotientBounds(w * f, c + f);
    if q >= w {
      MulLe(w, q, c + f);
      assert false;
    }
  }

  lemma {:induction false} PowerMonotone(a: nat, b: nat)
    requires a <= b
    ensures Power(a) <= Power(b)
    decreases b
  {
    if a < b {
      PowerMonotone(a, b - 1);
    }
  }

  /** Block work is at least 256 and grows with the target, across length boundaries too. */
  lemma WorkMonotone(easier: Bits, harder: Bits)
    requires easier <= harder && Length(easier) >= TARGET_MIN_LENGTH
    ensures 256 <= Work(easier) <= Work(harder)
  {
    WorkBounds(easier);
    WorkBounds(harder);
    LengthMonotone(easier, harder);
    if Length(easier) < Length(harder) {
      PowerMonotone(ExtraLength(easier) + 1, ExtraLength(harder));
    } else {
      var f1, f2 := FractionalDifficulty(easier), FractionalDifficulty(harder);
      DivAntitone(TWO56, TWO24 - Fractional(harder), TWO24 - Fractional(easier));
      WorkGrowsWithFraction(256 * Power(ExtraLength(easier)), f1, f2);
    }
  }

  lemma WorkGrowsWithFraction(w: nat, f1: nat, f2: nat)
    requires f1 <= f2
    ensures Interpolate(w, f1) <= Interpolate(w, f2)
  {
    var m := 31 * DIFFICULTY_MIN;
    MulLe(f1, f2, m);
    assert f1 * (m + f2) == f1 * m + f1 * f2;
    assert f2 * (m + f1) == f2 * m + f1 * f2;
    MulLe(f1 * (m + f2), f2 * (m + f1), w * TRANSITION_RATIO);
    assert w * (TRANSITION_RATIO * f1) * (m + f2) == f1 * (m + f2) * (w * TRANSITION_RATIO);
    assert w * (TRANSITION_RATIO * f2) * (m + f1) == f2 * (m + f1) * (w * TRANSITION_RATIO);
    DivCross(w * (TRANSITION_RATIO * f1), m + f1, w * (TRANSITION_RATIO * f2), m + f2);
  }

  /** A target below the minimum length is worth 256, the least there is, exactly when its fraction is this small. */
  lemma LeastWork(bits: Bits)
    requires Length(bits) <= TARGET_MIN_LENGTH
    ensures Work(bits) == 256 <==> 7935 * FractionalDifficulty(bits) < 7967 * DIFFICULTY_MIN
  {
    WorkBounds(bits);
    var f := FractionalDifficulty(bits);
    var a, b := 256 * (TRANSITION_RATIO * f), (TRANSITION_RATIO - 1) * DIFFICULTY_MIN + f;
    assert Power(0) == 1 && Work(bits) == a / b;
    hide Work, FractionalDifficulty;
    QuotientBounds(a, b);
    if a < 257 * b {
      DivUnique(a, b, 256);
    }
  }

  /** When all harder targets are worth at least as much: from the minimum length on, and below it only for targets
      that are worth no more than the minimum themselves. */
  lemma WorkOrder(easier: Bits)
    ensures (forall harder: Bits :: easier <= harder ==> Work(easier) <= Work(harder))
       <==> Length(easier) >= TARGET_MIN_LENGTH || 7935 * FractionalDifficulty(easier) < 7967 * DIFFICULTY_MIN
  {
    WorkBounds(easier);
    LeastWorkOfMinimum();
    if Length(easier) >= TARGET_MIN_LENGTH {
      hide Work;
      forall harder: Bits | easier <= harder
        ensures Work(easier) <= Work(harder)
      {
        WorkMonotone(easier, harder);
      }
    } else {
      LeastWork(easier);
      hide Work, FractionalDifficulty;
      forall harder: Bits
        ensures Work(harder) >= 256
      {
        WorkBounds(harder);
      }
      assert easier <= Target(TARGET_MIN_LENGTH, 0);
    }
  }

  lemma LeastWorkOfMinimum()
    ensures Work(Target(TARGET_MIN_LENGTH, 0)) == 256
  {
    assert FractionalDifficulty(Target(TARGET_MIN_LENGTH, 0)) == TWO32;
    LeastWork(Target(TARGET_MIN_LENGTH, 0));
  }

  /** Below the minimum length the order does break: the shortest legal target is worth less than a longer fraction. */
  lemma WorkNotMonotoneBelowMinimum()
    ensures Work(Target(5, TWO24 - 1)) > Work(Target(6, 0))
  {
    WorkBounds(Target(6, 0));
    assert FractionalDifficulty(Target(5, TWO24 - 1)) == TWO56;
    assert FractionalDifficulty(Target(6, 0)) == TWO32;
  }

  lemma {:induction false} PowerIsPow2(e: nat)
    ensures Power(e) == Pow2(5 * e)
  {
    if e > 0 {
      PowerIsPow2(e - 1);
      assert Pow2(5 * e - 2) == 4 * Pow2(5 * e - 4);
      assert Pow2(5 * e) == 4 * Pow2(5 * e - 2);
      assert Pow2(5 * e - 4) == 2 * Pow2(5 * (e - 1));
    }
  }

  /** Work up to length 54 fits a 256-bit word. */
  lemma WorkFits(bits: Bits)
    requires Length(bits) <= 54
    ensures Work(bits) < Pow2(256)
  {
    hide Work, Power, Pow2;
    WorkBounds(bits);
    PowerMonotone(ExtraLength(bits) + 1, 49);
    PowerIsPow2(49);
    assert Pow2(253) == 256 * Pow2(245) by {
      Pow2Split(245);
      Pow2Next(252);
    }
    Pow2Monotone(253, 256);
  }
}
