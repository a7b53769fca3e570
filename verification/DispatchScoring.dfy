/** Dispatch scores from driver statistics, over the reals (dispatch-scoring.service.ts). */
module DispatchScoring {
  import opened Options

  /** An average time of zero means that it is not known. */
  datatype Stats = Stats(
    acceptanceCount: nat, completedDeliveries: nat, failedDeliveries: nat, cancelledDeliveries: nat,
    avgPickupTimeSeconds: nat, avgDeliveryTimeSeconds: nat)

  datatype Weights = Weights(completionRate: real, timing: real, quality: real)

  const DEFAULT_WEIGHTS := Weights(0.4, 0.3, 0.3)
  const DAY_MS := 86_400_000
  const BASE_DECAY := 0.95
  const MAX_DECAY_DAYS: nat := 30

  function Min(a: real, b: real): real {
    if a < b then a else b
  }

  function Max(a: real, b: real): real {
    if a > b then a else b
  }

  /** A product, under a name so that proofs can keep it as one term. */
  function Times(x: real, y: real): real {
    x * y
  }

  /** Halves round up. */
  function Round(x: real): int {
    (x + 0.5).Floor
  }

  function ToCents(x: real): real {
    Round(x * 100.0) as real / 100.0
  }

  /** A configured weight of zero counts as missing, and a missing one is written as zero here. */
  function ScoringWeights(config: Option<Weights>): Weights {
    match config
    case None => DEFAULT_WEIGHTS
    case Some(w) => Weights(
      if w.completionRate == 0.0 then DEFAULT_WEIGHTS.completionRate else w.completionRate,
      if w.timing == 0.0 then DEFAULT_WEIGHTS.timing else w.timing,
      if w.quality == 0.0 then DEFAULT_WEIGHTS.quality else w.quality)
  }

  function CompletionRateScore(s: Stats): real {
    if s.acceptanceCount == 0 then 50.0
    else Min(100.0, Max(0.0, s.completedDeliveries as real / s.acceptanceCount as real * 100.0))
  }

  function TimingScore(s: Stats): real {
    if s.avgPickupTimeSeconds == 0 || s.avgDeliveryTimeSeconds == 0 then 70.0
    else
      var pickupScore := Max(0.0, 100.0 - s.avgPickupTimeSeconds as real / 60.0 * 5.0);
      var totalTimeScore := Max(0.0, 100.0 - s.avgDeliveryTimeSeconds as real / 3600.0 * 10.0);
      (pickupScore + totalTimeScore) / 2.0
  }

  function QualityScore(s: Stats): real {
    if s.acceptanceCount == 0 then 80.0
    else
      var qualityRate := 1.0 - (s.failedDeliveries + s.cancelledDeliveries) as real / s.acceptanceCount as real;
      Min(100.0, Max(0.0, qualityRate * 100.0))
  }

  function WeightedSum(s: Stats, w: Weights): real {
    Times(CompletionRateScore(s), w.completionRate) + Times(TimingScore(s), w.timing) + Times(QualityScore(s), w.quality)
  }

  function WeightedScore(s: Stats, w: Weights): real {
    ToCents(WeightedSum(s, w))
  }

  function Pow(base: real, n: nat): real {
    if n == 0 then 1.0 else base * Pow(base, n - 1)
  }

  function DaysSince(lastActivity: int, now: int): int {
    (now - lastActivity) / DAY_MS
  }

  function Decayed(score: real, days: int): real {
    if days <= 0 then score
    else Max(0.0, ToCents(Times(score, Pow(BASE_DECAY, if days < MAX_DECAY_DAYS then days else MAX_DECAY_DAYS))))
  }

  function ApplyScoreDecay(score: real, lastActivity: Option<int>, now: int): real {
    if lastActivity.None? then score else Decayed(score, DaysSince(lastActivity.value, now))
  }

  function Score(s: Stats, w: Weights, lastActivity: Option<int>, now: int): real {
    ApplyScoreDecay(WeightedScore(s, w), lastActivity, now)
  }

  // --- what the weights, the components and the decay are, in numbers ---

  /** All weight on completions: the percentage of accepted offers that were completed, 50 for a newcomer. */
  lemma CompletionOnly(s: Stats)
    ensures var score := WeightedSum(s, Weights(1.0, 0.0, 0.0));
            && (s.acceptanceCount == 0 ==> score == 50.0)
            && (0 < s.acceptanceCount < s.completedDeliveries ==> score == 100.0)
            && (0 < s.acceptanceCount && s.completedDeliveries <= s.acceptanceCount ==>
                  score * s.acceptanceCount as real == 100.0 * s.completedDeliveries as real)
  {
    var n, k := s.acceptanceCount as real, s.completedDeliveries as real;
    if s.acceptanceCount > 0 {
      var rate := k / n;
      Quotient(k, n, rate);
      assert rate * 100.0 * n == 100.0 * k;
    }
  }

  lemma Quotient(k: real, n: real, rate: real)
    requires n > 0.0 && k >= 0.0 && rate == k / n
    ensures rate * n == k && 0.0 <= rate && (k <= n <==> rate <= 1.0)
  {
  }

  /** All weight on times: a point is lost for 24 seconds until pickup and for 720 seconds of delivery, but neither time
      costs more than 50; 70 if a time is unknown. */
  lemma TimingOnly(s: Stats)
    ensures var score := WeightedSum(s, Weights(0.0, 1.0, 0.0));
            var pickup, delivery := s.avgPickupTimeSeconds, s.avgDeliveryTimeSeconds;
            if pickup == 0 || delivery == 0 then score == 70.0
            else score == 100.0 - (if pickup < 1200 then pickup as real / 24.0 else 50.0)
                                - (if delivery < 36_000 then delivery as real / 720.0 else 50.0)
  {
  }

  /** All weight on quality: the percentage of accepted offers neither failed nor cancelled, 80 for a newcomer. */
  lemma QualityOnly(s: Stats)
    ensures var score, lost := WeightedSum(s, Weights(0.0, 0.0, 1.0)), s.failedDeliveries + s.cancelledDeliveries;
            && (s.acceptanceCount == 0 ==> score == 80.0)
            && (0 < s.acceptanceCount < lost ==> score == 0.0)
            && (0 < s.acceptanceCount && lost <= s.acceptanceCount ==>
                  score * s.acceptanceCount as real == 100.0 * (s.acceptanceCount - lost) as real)
  {
    var n, k := s.acceptanceCount as real, (s.failedDeliveries + s.cancelledDeliveries) as real;
    if s.acceptanceCount > 0 {
      var rate := k / n;
      Quotient(k, n, rate);
      assert (1.0 - rate) * 100.0 * n == 100.0 * (n - k);
    }
  }

  /** Any weights mix the three scores above. */
  lemma WeightsMix(s: Stats, w: Weights)
    ensures WeightedSum(s, w) ==
            WeightedSum(s, Weights(1.0, 0.0, 0.0)) * w.completionRate +
            WeightedSum(s, Weights(0.0, 1.0, 0.0)) * w.timing +
            WeightedSum(s, Weights(0.0, 0.0, 1.0)) * w.quality
  {
    hide CompletionRateScore, TimingScore, QualityScore;
  }

  /** Without a configuration 40, 30 and 30 percent; these also stand in for a configured zero. */
  lemma WeightsInUse(w: Weights)
    ensures ScoringWeights(None) == Weights(0.4, 0.3, 0.3)
    ensures var used := ScoringWeights(Some(w));
            && used.completionRate == (if w.completionRate == 0.0 then 0.4 else w.completionRate)
            && used.timing == (if w.timing == 0.0 then 0.3 else w.timing)
            && used.quality == (if w.quality == 0.0 then 0.3 else w.quality)
  {
  }

  /** Scores are rounded to the nearest hundredth, halves up. */
  lemma NearestCent(x: real) returns (n: int)
    ensures ToCents(x) == n as real / 100.0 && x - 0.005 < ToCents(x) <= x + 0.005
  {
    n := Round(x * 100.0);
  }

  /** Each whole idle day multiplies a score by 0.95, up to thirty days. */
  lemma IdleDays(score: real, last: int, days: nat, rest: nat)
    requires rest < 86_400_000 && score >= 0.0
    ensures var now := last + days * 86_400_000 + rest;
            && ApplyScoreDecay(score, None, now) == score
            && (days == 0 ==> ApplyScoreDecay(score, Some(last), now) == score)
            && (days >= 1 ==> ApplyScoreDecay(score, Some(last), now) == ToCents(score * Multiplier(days)))
    ensures Multiplier(0) == 1.0
    ensures Multiplier(days + 1) == Multiplier(days) * if days < 30 then 0.95 else 1.0
  {
    assert DaysSince(last, last + days * 86_400_000 + rest) == days;
    MultiplierShrinks(days, days);
    assert days < 30 ==> Pow(BASE_DECAY, days + 1) == 0.95 * Pow(BASE_DECAY, days);
    hide Pow;
    if days >= 1 {
      assert Times(score, Multiplier(days)) == score * Multiplier(days);
      TimesMonotone(0.0, score, 0.0, Multiplier(days));
      ToCentsIsMonotone(0.0, Times(score, Multiplier(days)));
      CentsStay(0);
    }
  }

  // --- range and direction of the rounded score ---

  predicate Balanced(w: Weights) {
    w.completionRate >= 0.0 && w.timing >= 0.0 && w.quality >= 0.0 && w.completionRate + w.timing + w.quality == 1.0
  }

  function Cents(n: int): real {
    n as real / 100.0
  }

  lemma ToCentsIsMonotone(x: real, y: real)
    requires x <= y
    ensures ToCents(x) <= ToCents(y)
  {
    assert Round(x * 100.0) <= Round(y * 100.0);
  }

  lemma CentsStay(n: int)
    ensures ToCents(Cents(n)) == Cents(n)
  {
    assert Cents(n) * 100.0 == n as real;
    assert (n as real + 0.5).Floor == n;
  }

  lemma ComponentsInRange(s: Stats)
    ensures 0.0 <= CompletionRateScore(s) <= 100.0
    ensures 0.0 <= TimingScore(s) <= 100.0
    ensures 0.0 <= QualityScore(s) <= 100.0
  {
  }

  lemma TimesMonotone(a: real, b: real, x: real, y: real)
    requires 0.0 <= a <= b && 0.0 <= x <= y
    ensures 0.0 <= Times(a, x) <= Times(b, y)
  {
    assert a * x <= b * x <= b * y;
  }

  lemma WeightedMean(a: real, b: real, c: real, w: Weights)
    requires Balanced(w) && 0.0 <= a <= 100.0 && 0.0 <= b <= 100.0 && 0.0 <= c <= 100.0
    ensures 0.0 <= Times(a, w.completionRate) + Times(b, w.timing) + Times(c, w.quality) <= 100.0
  {
    assert Times(100.0, w.completionRate) + Times(100.0, w.timing) + Times(100.0, w.quality) == 100.0;
    hide Times;
    TimesMonotone(a, 100.0, w.completionRate, w.completionRate);
    TimesMonotone(b, 100.0, w.timing, w.timing);
    TimesMonotone(c, 100.0, w.quality, w.quality);
  }

  /** The rounded score is a whole number of cents between 0 and 100. */
  lemma WeightedScoreInRange(s: Stats, w: Weights) returns (n: nat)
    requires Balanced(w)
    ensures WeightedScore(s, w) == Cents(n) && 0.0 <= WeightedScore(s, w) <= 100.0
  {
    ComponentsInRange(s);
    hide CompletionRateScore, TimingScore, QualityScore;
    WeightedMean(CompletionRateScore(s), TimingScore(s), QualityScore(s), w);
    hide Balanced;
    CentsStay(0);
    CentsStay(10000);
    ToCentsIsMonotone(Cents(0), WeightedSum(s, w));
    ToCentsIsMonotone(WeightedSum(s, w), Cents(10000));
    n := Round(WeightedSum(s, w) * 100.0);
  }

  // --- direction: better statistics never lower the score ---

  /** The same driver with at least as many completions, no more failures and cancellations, and no longer times. */
  predicate NoWorse(better: Stats, s: Stats) {
    && better.acceptanceCount == s.acceptanceCount
    && better.completedDeliveries >= s.completedDeliveries
    && better.failedDeliveries <= s.failedDeliveries
    && better.cancelledDeliveries <= s.cancelledDeliveries
    && (better.avgPickupTimeSeconds == 0 <==> s.avgPickupTimeSeconds == 0)
    && (better.avgDeliveryTimeSeconds == 0 <==> s.avgDeliveryTimeSeconds == 0)
    && better.avgPickupTimeSeconds <= s.avgPickupTimeSeconds
    && better.avgDeliveryTimeSeconds <= s.avgDeliveryTimeSeconds
  }

  lemma RatioMonotone(a: nat, b: nat, n: nat)
    requires a <= b && n > 0
    ensures a as real / n as real <= b as real / n as real
  {
  }

  lemma ComponentsMonotone(better: Stats, s: Stats)
    requires NoWorse(better, s)
    ensures CompletionRateScore(s) <= CompletionRateScore(better)
    ensures TimingScore(s) <= TimingScore(better)
    ensures QualityScore(s) <= QualityScore(better)
  {
    if s.acceptanceCount > 0 {
      RatioMonotone(s.completedDeliveries, better.completedDeliveries, s.acceptanceCount);
      RatioMonotone(better.failedDeliveries + better.cancelledDeliveries, s.failedDeliveries + s.cancelledDeliveries,
                    s.acceptanceCount);
    }
  }

  lemma WeightedScoreMonotone(better: Stats, s: Stats, w: Weights)
    requires Balanced(w) && NoWorse(better, s)
    ensures WeightedScore(s, w) <= WeightedScore(better, w)
  {
    ComponentsMonotone(better, s);
    ComponentsInRange(s);
    hide CompletionRateScore, TimingScore, QualityScore, Times, ToCents;
    TimesMonotone(CompletionRateScore(s), CompletionRateScore(better), w.completionRate, w.completionRate);
    TimesMonotone(TimingScore(s), TimingScore(better), w.timing, w.timing);
    TimesMonotone(QualityScore(s), QualityScore(better), w.quality, w.quality);
    ToCentsIsMonotone(WeightedSum(s, w), WeightedSum(better, w));
  }

  // --- decay ---

  lemma {:induction false} PowShrinks(m: nat, n: nat)
    requires m <= n
    ensures 0.0 < Pow(BASE_DECAY, n) <= Pow(BASE_DECAY, m) <= 1.0
  {
    if n > 0 {
      PowShrinks(if m == n then m - 1 else m, n - 1);
    }
  }

  function Multiplier(days: int): real {
    if days <= 0 then 1.0 else Pow(BASE_DECAY, if days < MAX_DECAY_DAYS then days else MAX_DECAY_DAYS)
  }

  lemma MultiplierShrinks(d: int, e: int)
    requires d <= e
    ensures 0.0 < Multiplier(e) <= Multiplier(d) <= 1.0
  {
    var m: nat := if d <= 0 then 0 else if d < MAX_DECAY_DAYS then d else MAX_DECAY_DAYS;
    var n: nat := if e <= 0 then 0 else if e < MAX_DECAY_DAYS then e else MAX_DECAY_DAYS;
    PowShrinks(m, n);
  }

  /** On a score in cents, decay is multiplication and rounding, also on the days without decay. */
  lemma DecayedIsRounded(n: nat, days: int)
    ensures Decayed(Cents(n), days) == ToCents(Times(Cents(n), Multiplier(days)))
    ensures 0.0 <= Decayed(Cents(n), days)
  {
    hide Pow, ToCents;
    MultiplierShrinks(days, days);
    CentsStay(n);
    CentsStay(0);
    assert days <= 0 ==> Times(Cents(n), Multiplier(days)) == Cents(n);
    hide Times;
    TimesMonotone(0.0, Cents(n), 0.0, Multiplier(days));
    ToCentsIsMonotone(Cents(0), Times(Cents(n), Multiplier(days)));
  }

  /** A better score and a shorter absence give no lower decayed score, and decay never raises a score. */
  lemma DecayMonotone(n: nat, m: nat, days: int, longer: int)
    requires m <= n && days <= longer
    ensures 0.0 <= Decayed(Cents(m), longer) <= Decayed(Cents(n), days) <= Cents(n)
  {
    hide Decayed, Multiplier, ToCents;
    DecayedIsRounded(m, longer);
    DecayedIsRounded(n, days);
    MultiplierShrinks(days, longer);
    CentsStay(n);
    var c, d := Cents(m), Cents(n);
    assert 0.0 <= c <= d;
    hide Cents;
    assert Times(d, 1.0) == d;
    hide Times;
    TimesMonotone(c, d, Multiplier(longer), Multiplier(days));
    TimesMonotone(d, d, Multiplier(days), 1.0);
    ToCentsIsMonotone(Times(c, Multiplier(longer)), Times(d, Multiplier(days)));
    ToCentsIsMonotone(Times(d, Multiplier(days)), d);
  }

  lemma {:induction false} PowAdds(m: nat, n: nat)
    ensures Pow(BASE_DECAY, m + n) == Pow(BASE_DECAY, m) * Pow(BASE_DECAY, n)
  {
    if m > 0 {
      PowAdds(m - 1, n);
      assert Pow(BASE_DECAY, m + n) == BASE_DECAY * (Pow(BASE_DECAY, m - 1) * Pow(BASE_DECAY, n));
    }
  }

  lemma ThirtyDays()
    ensures 0.21455 < Pow(BASE_DECAY, 30) < 0.21465
  {
    var five := Pow(BASE_DECAY, 5);
    assert five == 0.95 * (0.95 * (0.95 * (0.95 * 0.95)));
    PowAdds(5, 5);
    PowAdds(10, 10);
    PowAdds(20, 10);
    hide Pow;
    assert Pow(BASE_DECAY, 30) == five * five * (five * five) * (five * five);
  }

  /** After thirty idle days nothing changes any more, and a score of 100 has then become 21.46. */
  lemma DecayStops(score: real, days: int, longer: int)
    requires MAX_DECAY_DAYS <= days <= longer
    ensures Decayed(score, days) == Decayed(score, longer)
    ensures Decayed(100.0, days) == 21.46
  {
    ThirtyDays();
    hide Pow, ToCents, Times;
    LowestScore(Pow(BASE_DECAY, MAX_DECAY_DAYS));
  }

  lemma LowestScore(multiplier: real)
    requires 0.21455 < multiplier < 0.21465
    ensures ToCents(Times(100.0, multiplier)) == 21.46
  {
    assert Round(Times(100.0, multiplier) * 100.0) == 2146;
  }

  lemma PerfectScoreFloor(days: int)
    ensures 21.46 <= Decayed(100.0, days) <= 100.0
  {
    var longer := if days < MAX_DECAY_DAYS then MAX_DECAY_DAYS else days;
    DecayMonotone(10000, 10000, days, longer);
    DecayStops(100.0, longer, longer);
  }

  // --- the whole score ---

  lemma DaysMonotone(last: int, later: int, now: int)
    requires last <= later
    ensures DaysSince(later, now) <= DaysSince(last, now)
  {
  }

  /** The score stays in range, and no worse statistics with no older activity never lower it. */
  lemma ScoreInRangeAndMonotone(better: Stats, s: Stats, w: Weights, last: int, later: int, now: int)
    requires Balanced(w) && NoWorse(better, s) && last <= later
    ensures 0.0 <= Score(s, w, Some(last), now) <= Score(better, w, Some(later), now) <=
            Score(better, w, None, now) <= 100.0
  {
    var n := WeightedScoreInRange(s, w);
    var m := WeightedScoreInRange(better, w);
    WeightedScoreMonotone(better, s, w);
    DaysMonotone(last, later, now);
    var d := DaysSince(last, now);
    hide WeightedScore, DaysSince, NoWorse, Balanced;
    DecayMonotone(m, n, DaysSince(later, now), d);
    DecayMonotone(n, 0, d, d);
    DecayedIsRounded(0, d);
    CentsStay(0);
    hide Decayed;
  }

  /**
   * A weight of zero is replaced by its default, so weights that sum to 1 in the configuration need not do so in the
   * score: all weight on completions gives a driver without timing data 151.
   */
  lemma ZeroWeightsFallBack(s: Stats)
    requires s.acceptanceCount > 0 && s.completedDeliveries == s.acceptanceCount
    requires s.failedDeliveries == 0 && s.cancelledDeliveries == 0 && s.avgPickupTimeSeconds == 0
    ensures Balanced(Weights(1.0, 0.0, 0.0))
    ensures Score(s, ScoringWeights(Some(Weights(1.0, 0.0, 0.0))), None, 0) == 151.0
  {
    var n := s.acceptanceCount as real;
    assert n / n == 1.0 && 0.0 / n == 0.0;
    assert CompletionRateScore(s) == 100.0 && TimingScore(s) == 70.0 && QualityScore(s) == 100.0;
    assert WeightedSum(s, ScoringWeights(Some(Weights(1.0, 0.0, 0.0)))) == 151.0;
  }

  /** Balanced weights stay balanced exactly when none of them is zero. */
  lemma FallbackKeepsBalance(w: Weights)
    requires Balanced(w)
    ensures Balanced(ScoringWeights(Some(w))) <==> w.completionRate != 0.0 && w.timing != 0.0 && w.quality != 0.0
  {
  }

  ghost predicate AlwaysInRange(w: Weights) {
    forall s, last, now :: 0.0 <= Score(s, w, last, now) <= 100.0
  }

  lemma OneInRange(s: Stats, w: Weights, last: Option<int>, now: int)
    requires Balanced(w)
    ensures 0.0 <= Score(s, w, last, now) <= 100.0
  {
    var n := WeightedScoreInRange(s, w);
    if last.Some? {
      hide WeightedScore;
      DecayMonotone(n, n, DaysSince(last.value, now), DaysSince(last.value, now));
    }
  }

  const NEARLY_PERFECT := Stats(1, 1, 0, 0, 1, 1)

  lemma NearlyPerfectScores()
    ensures CompletionRateScore(NEARLY_PERFECT) == 100.0 && QualityScore(NEARLY_PERFECT) == 100.0
    ensures TimingScore(NEARLY_PERFECT) > 99.0
  {
  }

  lemma DefaultsAdd(w: Weights)
    requires Balanced(w) && (w.completionRate == 0.0 || w.timing == 0.0 || w.quality == 0.0)
    ensures var v := ScoringWeights(Some(w));
            v.completionRate >= 0.0 && v.timing >= 0.0 && v.quality >= 0.0 && v.completionRate + v.timing + v.quality >= 1.3
  {
  }

  lemma LargeSum(a: real, b: real, c: real, v: Weights)
    requires a >= 99.0 && b >= 99.0 && c >= 99.0
    requires v.completionRate >= 0.0 && v.timing >= 0.0 && v.quality >= 0.0
    requires v.completionRate + v.timing + v.quality >= 1.3
    ensures Times(a, v.completionRate) + Times(b, v.timing) + Times(c, v.quality) >= 128.0
  {
    assert Times(99.0, v.completionRate) + Times(99.0, v.timing) + Times(99.0, v.quality) >= 128.0;
    hide Times;
    TimesMonotone(99.0, a, v.completionRate, v.completionRate);
    TimesMonotone(99.0, b, v.timing, v.timing);
    TimesMonotone(99.0, c, v.quality, v.quality);
  }

  /** A defaulted weight adds at least 0.3 to a sum of 1, which a nearly perfect driver turns into a score above 100. */
  lemma DefaultedWeightOverflows(w: Weights)
    requires Balanced(w) && (w.completionRate == 0.0 || w.timing == 0.0 || w.quality == 0.0)
    ensures Score(NEARLY_PERFECT, ScoringWeights(Some(w)), None, 0) > 100.0
  {
    NearlyPerfectScores();
    DefaultsAdd(w);
    hide CompletionRateScore, TimingScore, QualityScore, ScoringWeights, Times, ToCents;
    var s, v := NEARLY_PERFECT, ScoringWeights(Some(w));
    LargeSum(CompletionRateScore(s), TimingScore(s), QualityScore(s), v);
    ToCentsIsMonotone(Cents(12800), WeightedSum(s, v));
    CentsStay(12800);
  }

  /** For configured weights that sum to 1 the score always stays in range exactly when none of them is zero. */
  lemma ConfiguredScoreInRange(w: Weights)
    requires Balanced(w)
    ensures AlwaysInRange(ScoringWeights(Some(w))) <==> w.completionRate != 0.0 && w.timing != 0.0 && w.quality != 0.0
  {
    hide Score;
    if w.completionRate != 0.0 && w.timing != 0.0 && w.quality != 0.0 {
      forall s, last, now ensures 0.0 <= Score(s, ScoringWeights(Some(w)), last, now) <= 100.0 {
        OneInRange(s, w, last, now);
      }
    } else {
      DefaultedWeightOverflows(w);
    }
  }
}
