/** Signal-detection measurement of one experimental condition: the four
    cells of a 2x2 outcome table and the two rates derived from them.
    The counts are set at construction and nothing in the program reassigns
    them, so a measurement is modelled as a value. */
module Detection {

  /** Outcome counts of one condition. The source accepts integers or floats
      and validates neither sign nor type, so every field is an unrestricted
      real (an integer count embeds exactly). */
  datatype SignalDetection = SignalDetection(
    hits: real,
    misses: real,
    falseAlarm: real,
    correctRejections: real)

  /** Counts as they arise from trials: none of them negative. */
  predicate NonNegative(s: SignalDetection)
  {
    s.hits >= 0.0 && s.misses >= 0.0 && s.falseAlarm >= 0.0 && s.correctRejections >= 0.0
  }

  /** Fraction of signal trials answered "yes"; 0 when there were no signal
      trials at all (the source's fallback instead of a division by zero). */
  function HitRate(s: SignalDetection): (r: real)
    ensures s.hits + s.misses == 0.0 ==> r == 0.0
    ensures s.hits + s.misses != 0.0 ==> r * (s.hits + s.misses) == s.hits
  {
    if s.hits + s.misses == 0.0 then 0.0 else s.hits / (s.hits + s.misses)
  }

  /** Fraction of noise trials answered "yes"; 0 when there were no noise
      trials at all. */
  function FalseAlarmRate(s: SignalDetection): (r: real)
    ensures s.falseAlarm + s.correctRejections == 0.0 ==> r == 0.0
    ensures s.falseAlarm + s.correctRejections != 0.0 ==> r * (s.falseAlarm + s.correctRejections) == s.falseAlarm
  {
    if s.falseAlarm + s.correctRejections == 0.0 then 0.0
    else s.falseAlarm / (s.falseAlarm + s.correctRejections)
  }

  /** A quotient num / (num + other) of non-negative values lies in [0, 1]. */
  lemma QuotientInUnitInterval(num: real, other: real, r: real)
    requires num >= 0.0 && other >= 0.0 && num + other != 0.0
    requires r * (num + other) == num
    ensures 0.0 <= r <= 1.0
  {
    var d := num + other;
    assert d > 0.0;
    assert (r - 1.0) * d == -other;
  }

  /** With counts that are not negative both rates are proportions. */
  lemma RatesInUnitInterval(s: SignalDetection)
    requires NonNegative(s)
    ensures 0.0 <= HitRate(s) <= 1.0
    ensures 0.0 <= FalseAlarmRate(s) <= 1.0
  {
    if s.hits + s.misses != 0.0 {
      QuotientInUnitInterval(s.hits, s.misses, HitRate(s));
    }
    if s.falseAlarm + s.correctRejections != 0.0 {
      QuotientInUnitInterval(s.falseAlarm, s.correctRejections, FalseAlarmRate(s));
    }
  }

  /** The extreme rates: every signal trial detected gives exactly 1, no
      detection at all gives exactly 0, and likewise for false alarms. */
  lemma SaturatedRates(s: SignalDetection)
    ensures s.hits > 0.0 && s.misses == 0.0 ==> HitRate(s) == 1.0
    ensures s.hits == 0.0 ==> HitRate(s) == 0.0
    ensures s.falseAlarm > 0.0 && s.correctRejections == 0.0 ==> FalseAlarmRate(s) == 1.0
    ensures s.falseAlarm == 0.0 ==> FalseAlarmRate(s) == 0.0
  {
    if s.hits > 0.0 && s.misses == 0.0 {
      assert s.hits / s.hits == 1.0;
    }
    if s.falseAlarm > 0.0 && s.correctRejections == 0.0 {
      assert s.falseAlarm / s.falseAlarm == 1.0;
    }
  }

  /** The hit rate reads only the signal-trial counts and the false-alarm
      rate only the noise-trial counts. */
  lemma RatesAreLocal(s: SignalDetection, t: SignalDetection)
    ensures s.hits == t.hits && s.misses == t.misses ==> HitRate(s) == HitRate(t)
    ensures s.falseAlarm == t.falseAlarm && s.correctRejections == t.correctRejections
            ==> FalseAlarmRate(s) == FalseAlarmRate(t)
  {
  }
}
