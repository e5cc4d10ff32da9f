/** The metric scorers shared by the holdings page, the candidates page and the
    stand-alone app: each financial ratio is mapped to an ordinal score from 1
    to 5 through a fixed table of four thresholds, and a missing ratio is left
    unscored. */
module Scoring {
  import opened Wrappers

  /** The six scored ratios. */
  datatype Metric = SelfCapitalRatio | Roe | Roa | Per | Pbr | DividendYield

  /** The thresholds a value must reach for the scores 5, 4, 3 and 2; a value
      that reaches none of them scores 1. */
  datatype Bands = Bands(t5: real, t4: real, t3: real, t2: real)
  {
    /** The threshold of score `k`. */
    function Threshold(k: int): real
      requires 2 <= k <= 5
    {
      if k == 5 then t5 else if k == 4 then t4 else if k == 3 then t3 else t2
    }

    /** Thresholds of a higher-is-better ratio fall from score 5 to score 2. */
    predicate Falling() { t5 > t4 > t3 > t2 }

    /** Thresholds of a lower-is-better ratio rise from score 5 to score 2. */
    predicate Rising() { t5 < t4 < t3 < t2 }
  }

  /** Lower price multiples are better: PER and PBR bands are "below the
      threshold"; every other ratio scores by "at least the threshold". */
  predicate LowerIsBetter(m: Metric)
  {
    m == Per || m == Pbr
  }

  /** The band table of each ratio (ratios in percent, multiples as is). */
  function BandsOf(m: Metric): (b: Bands)
    ensures LowerIsBetter(m) ==> b.Rising()
    ensures !LowerIsBetter(m) ==> b.Falling()
  {
    match m
    case SelfCapitalRatio => Bands(80.0, 60.0, 40.0, 20.0)
    case Roe => Bands(15.0, 10.0, 5.0, 2.0)
    case Roa => Bands(10.0, 7.5, 5.0, 2.5)
    case Per => Bands(10.0, 15.0, 20.0, 25.0)
    case Pbr => Bands(1.0, 2.0, 3.0, 4.0)
    case DividendYield => Bands(5.0, 4.0, 3.0, 2.0)
  }

  /** The "at least" chain, tried from score 5 down: the score is k or more
      exactly when the value reaches the threshold of k, so each threshold
      belongs to the higher band. */
  function AtLeastScore(b: Bands, x: real): (r: int)
    requires b.Falling()
    ensures 1 <= r <= 5
    ensures forall k :: 2 <= k <= 5 ==> (r >= k <==> x >= b.Threshold(k))
  {
    if x >= b.t5 then 5
    else if x >= b.t4 then 4
    else if x >= b.t3 then 3
    else if x >= b.t2 then 2
    else 1
  }

  /** The strict "below" chain, tried from score 5 down: the score is k or more
      exactly when the value is strictly below the threshold of k, so each
      threshold belongs to the lower band. */
  function BelowScore(b: Bands, x: real): (r: int)
    requires b.Rising()
    ensures 1 <= r <= 5
    ensures forall k :: 2 <= k <= 5 ==> (r >= k <==> x < b.Threshold(k))
  {
    if x < b.t5 then 5
    else if x < b.t4 then 4
    else if x < b.t3 then 3
    else if x < b.t2 then 2
    else 1
  }

  /** The `calculate_*_score` functions: a missing value stays unscored, a
      present one gets a score from 1 to 5 from the ratio's own table. */
  function MetricScore(m: Metric, v: Option<real>): (r: Option<int>)
    ensures r.None? <==> v.None?
    ensures r.Some? ==> 1 <= r.value <= 5
    ensures v.Some? && !LowerIsBetter(m) ==>
      forall k :: 2 <= k <= 5 ==> (r.value >= k <==> v.value >= BandsOf(m).Threshold(k))
    ensures v.Some? && LowerIsBetter(m) ==>
      forall k :: 2 <= k <= 5 ==> (r.value >= k <==> v.value < BandsOf(m).Threshold(k))
  {
    match v
    case None => None
    case Some(x) =>
      if LowerIsBetter(m) then Some(BelowScore(BandsOf(m), x))
      else Some(AtLeastScore(BandsOf(m), x))
  }

  /** A higher-is-better score never falls as the value rises; a
      lower-is-better score never rises. */
  lemma ScoreMonotone(m: Metric, x: real, y: real)
    requires x <= y
    ensures !LowerIsBetter(m) ==> MetricScore(m, Some(x)).value <= MetricScore(m, Some(y)).value
    ensures LowerIsBetter(m) ==> MetricScore(m, Some(x)).value >= MetricScore(m, Some(y)).value
  {
    var sx, sy := MetricScore(m, Some(x)).value, MetricScore(m, Some(y)).value;
    if !LowerIsBetter(m) && sx > 1 {
      assert x >= BandsOf(m).Threshold(sx);
    }
    if LowerIsBetter(m) && sy > 1 {
      assert y < BandsOf(m).Threshold(sy);
    }
  }

  /** The self-capital ratio table: 80 % and more scores 5, 60 % 4, 40 % 3,
      20 % 2, below 20 % 1; exactly 80 % already scores 5. */
  lemma SelfCapitalRatioBands()
    ensures MetricScore(SelfCapitalRatio, Some(80.0)) == Some(5)
    ensures MetricScore(SelfCapitalRatio, Some(79.999)) == Some(4)
    ensures MetricScore(SelfCapitalRatio, Some(60.0)) == Some(4)
    ensures MetricScore(SelfCapitalRatio, Some(40.0)) == Some(3)
    ensures MetricScore(SelfCapitalRatio, Some(20.0)) == Some(2)
    ensures MetricScore(SelfCapitalRatio, Some(19.999)) == Some(1)
  {
  }

  /** ROE: 15 % scores 5, 10 % 4, 5 % 3, 2 % 2, below 2 % 1. */
  lemma RoeBands()
    ensures MetricScore(Roe, Some(15.0)) == Some(5)
    ensures MetricScore(Roe, Some(10.0)) == Some(4)
    ensures MetricScore(Roe, Some(5.0)) == Some(3)
    ensures MetricScore(Roe, Some(2.0)) == Some(2)
    ensures MetricScore(Roe, Some(1.999)) == Some(1)
  {
  }

  /** ROA: 10 % scores 5, 7.5 % 4, 5 % 3, 2.5 % 2, below 2.5 % 1. */
  lemma RoaBands()
    ensures MetricScore(Roa, Some(10.0)) == Some(5)
    ensures MetricScore(Roa, Some(7.5)) == Some(4)
    ensures MetricScore(Roa, Some(7.499)) == Some(3)
    ensures MetricScore(Roa, Some(5.0)) == Some(3)
    ensures MetricScore(Roa, Some(2.5)) == Some(2)
    ensures MetricScore(Roa, Some(2.499)) == Some(1)
  {
  }

  /** PER: below 10 scores 5, below 15 4, below 20 3, below 25 2, else 1;
      exactly 10 scores 4, not 5. */
  lemma PerBands()
    ensures MetricScore(Per, Some(9.999)) == Some(5)
    ensures MetricScore(Per, Some(10.0)) == Some(4)
    ensures MetricScore(Per, Some(15.0)) == Some(3)
    ensures MetricScore(Per, Some(20.0)) == Some(2)
    ensures MetricScore(Per, Some(25.0)) == Some(1)
  {
  }

  /** PBR: below 1 scores 5, below 2 4, below 3 3, below 4 2, else 1;
      exactly 1 scores 4. */
  lemma PbrBands()
    ensures MetricScore(Pbr, Some(0.999)) == Some(5)
    ensures MetricScore(Pbr, Some(1.0)) == Some(4)
    ensures MetricScore(Pbr, Some(2.0)) == Some(3)
    ensures MetricScore(Pbr, Some(3.0)) == Some(2)
    ensures MetricScore(Pbr, Some(4.0)) == Some(1)
  {
  }

  /** Dividend yield, in percent: 5 % scores 5, 4 % 4, 3 % 3, 2 % 2, below 2 % 1. */
  lemma DividendYieldBands()
    ensures MetricScore(DividendYield, Some(5.0)) == Some(5)
    ensures MetricScore(DividendYield, Some(4.0)) == Some(4)
    ensures MetricScore(DividendYield, Some(3.0)) == Some(3)
    ensures MetricScore(DividendYield, Some(2.0)) == Some(2)
    ensures MetricScore(DividendYield, Some(1.999)) == Some(1)
  {
  }

  /** Negative ratios are not rejected: they fall into the lowest band of a
      higher-is-better ratio and the highest of a lower-is-better one. */
  lemma NegativeValues(m: Metric, x: real)
    requires x < 0.0
    ensures MetricScore(m, Some(x)) == if LowerIsBetter(m) then Some(5) else Some(1)
  {
  }
}
