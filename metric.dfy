/** Metric definitions, the value each pass of the emission loop produces, and the identity a metric is recorded under. */
module Metrics {
  import opened Wrappers
  import opened Lex
  import opened Labels

  /** The `random_value` bounds of a definition. */
  datatype RandomValue = RandomValue(min: real, max: real)

  /**
   * One metric definition as parsed from the configuration. `kind` is the
   * `type` field, kept as the raw string the loop switches on; `interval` is a
   * duration in nanoseconds, like Go's `time.Duration`.
   */
  datatype Metric = Metric(
    kind: string,
    name: string,
    labels: Labels,
    value: int,
    interval: int,
    randomValue: Option<RandomValue>)

  /**
   * `metric.GetValue`. The draw of `rand.Float64`, which lies in [0, 1), is
   * passed in as `r`. Without a random range the fixed value comes back
   * whatever the draw; with one, the result lies between the bounds, reaching
   * `min` but never `max`.
   */
  function GetValue(m: Metric, r: real): (v: real)
    requires 0.0 <= r < 1.0
    ensures m.randomValue.None? ==> v == m.value as real
    ensures m.randomValue.Some? && m.randomValue.value.min < m.randomValue.value.max ==>
      m.randomValue.value.min <= v < m.randomValue.value.max
    ensures m.randomValue.Some? && m.randomValue.value.min == m.randomValue.value.max ==>
      v == m.randomValue.value.min
    ensures m.randomValue.Some? && m.randomValue.value.max < m.randomValue.value.min ==>
      m.randomValue.value.max < v <= m.randomValue.value.min
  {
    match m.randomValue
    case None => m.value as real
    case Some(bounds) => Interpolate(bounds.min, bounds.max, r)
  }

  /**
   * The point a draw `r` in [0, 1) picks between `lo` and `hi`, reaching `lo`
   * but never `hi`, whichever way round the two are. Computed apart for each
   * sign of the width; `InterpolateFormula` shows it is `lo + (hi - lo) * r`.
   */
  function Interpolate(lo: real, hi: real, r: real): (v: real)
    requires 0.0 <= r < 1.0
    ensures lo < hi ==> lo <= v < hi
    ensures lo == hi ==> v == lo
    ensures hi < lo ==> hi < v <= lo
  {
    if lo < hi then lo + Stretch(hi - lo, r)
    else if hi < lo then lo - Stretch(lo - hi, r)
    else lo
  }

  /** A positive width `d` scaled by a draw in [0, 1): at least 0, below `d`. */
  function Stretch(d: real, r: real): (p: real)
    requires 0.0 <= r < 1.0 && 0.0 < d
    ensures 0.0 <= p < d
  {
    PositiveWidth(d, r);
    d * r
  }

  lemma PositiveWidth(d: real, r: real)
    requires 0.0 <= r < 1.0 && 0.0 < d
    ensures 0.0 <= d * r < d
  {
    assert d * (1.0 - r) > 0.0;
  }

  lemma StretchMonotonic(d: real, r1: real, r2: real)
    requires 0.0 <= r1 <= r2 < 1.0 && 0.0 < d
    ensures Stretch(d, r1) <= Stretch(d, r2)
  {
    assert d * r2 - d * r1 == d * (r2 - r1);
    assert d * (r2 - r1) >= 0.0;
  }

  /** The value of a random range is `min + (max - min) * r`, the source's formula. */
  lemma InterpolateFormula(lo: real, hi: real, r: real)
    requires 0.0 <= r < 1.0
    ensures Interpolate(lo, hi, r) == lo + (hi - lo) * r
  {
    if hi < lo {
      assert (lo - hi) * r == -((hi - lo) * r);
    }
  }

  /** With a random range, the value is the source's `min + (max - min) * r`. */
  lemma GetValueFormula(m: Metric, r: real)
    requires 0.0 <= r < 1.0 && m.randomValue.Some?
    ensures GetValue(m, r) == m.randomValue.value.min + (m.randomValue.value.max - m.randomValue.value.min) * r
  {
    InterpolateFormula(m.randomValue.value.min, m.randomValue.value.max, r);
  }

  /** Larger draws give larger values when the range is the right way round. */
  lemma GetValueMonotonic(m: Metric, r1: real, r2: real)
    requires 0.0 <= r1 <= r2 < 1.0
    requires m.randomValue.Some? ==> m.randomValue.value.min <= m.randomValue.value.max
    ensures GetValue(m, r1) <= GetValue(m, r2)
  {
    if m.randomValue.Some? {
      var lo, hi := m.randomValue.value.min, m.randomValue.value.max;
      if lo < hi {
        StretchMonotonic(hi - lo, r1, r2);
      }
    }
  }

  /**
   * The identity the samples of `m` are recorded under: the name, then the
   * canonical label string in braces. No labels give `name{}`.
   */
  ghost function Identity(m: Metric): (id: string)
    ensures |id| >= |m.name| + 2
    ensures id[..|m.name|] == m.name && id[|m.name|] == '{' && id[|id| - 1] == '}'
    ensures |id| == |m.name| + 2 <==> m.labels == map[]
  {
    m.name + "{" + Canonical(m.labels) + "}"
  }

  lemma IdentityWithoutLabels(m: Metric)
    requires m.labels == map[]
    ensures Identity(m) == m.name + "{}"
  {
    CanonicalEmpty();
  }

  /**
   * Two definitions with the same name and differently split labels can share
   * an identity, and so an accumulator: the value of one label can spell out a
   * second label.
   */
  lemma IdentitiesCollide(m1: Metric, m2: Metric, k1: string, v1: string, k2: string, v2: string)
    requires m1.name == m2.name && k1 != k2
    requires LexLe(Render(k1, v1), Render(k2, v2))
    requires m1.labels == map[k1 := v1 + "\"," + k2 + "=\"" + v2]
    requires m2.labels == map[k1 := v1, k2 := v2]
    ensures m1.labels != m2.labels && Identity(m1) == Identity(m2)
  {
    UnescapedLabelsCollide(k1, v1, k2, v2);
  }
}
