/** One row of an uploaded securities sheet, the six-score vector computed from
    it (`calculate_scores`), its total score (`合計スコア`), and the combined row
    of `pd.concat([df, scores_df], axis=1)`. */
module Records {
  import opened Wrappers
  import opened Scoring
  import Series

  /** A sheet row, every numeric cell already coerced to a number or missing.
      Holdings sheets fill the market value and the four past dividends;
      candidate sheets fill the planned share count. */
  datatype Security = Security(
    name: string,                      // 企業名
    industry: Option<string>,          // 業種
    selfCapitalRatio: Option<real>,    // 自己資本比率 (%)
    roe: Option<real>,                 // ROE (%)
    roa: Option<real>,                 // ROA (%)
    per: Option<real>,                 // PER (multiple)
    pbr: Option<real>,                 // PBR (multiple)
    dividendYield: Option<real>,       // 配当利回り (fraction as uploaded, percent once rescaled)
    price: Option<real>,               // 株価
    dividendPerShare: Option<real>,    // 1株当たり配当金
    plannedShares: Option<real>,       // 購入株数
    marketValue: Option<real>,         // 時価
    dividend2020: Option<real>,        // 配当金2020
    dividend2021: Option<real>,        // 配当金2021
    dividend2022: Option<real>,        // 配当金2022
    dividend2023: Option<real>)        // 配当金2023
  {
    /** The raw cell of a scored ratio. */
    function Raw(m: Metric): Option<real>
    {
      match m
      case SelfCapitalRatio => selfCapitalRatio
      case Roe => roe
      case Roa => roa
      case Per => per
      case Pbr => pbr
      case DividendYield => dividendYield
    }

    /** The four cells `配当金2020` … `配当金2023`, in year order. */
    function PastDividends(): seq<Option<real>>
    {
      [dividend2020, dividend2021, dividend2022, dividend2023]
    }
  }

  /** One score per ratio, each 1 to 5 or unscored. */
  datatype ScoreVector = ScoreVector(
    selfCapitalRatio: Option<int>,     // 自己資本比率スコア
    roe: Option<int>,                  // ROEスコア
    roa: Option<int>,                  // ROAスコア
    per: Option<int>,                  // PERスコア
    pbr: Option<int>,                  // PBRスコア
    dividendYield: Option<int>)        // 配当利回りスコア
  {
    function Component(m: Metric): Option<int>
    {
      match m
      case SelfCapitalRatio => selfCapitalRatio
      case Roe => roe
      case Roa => roa
      case Per => per
      case Pbr => pbr
      case DividendYield => dividendYield
    }

    /** The same vector with the score of `m` replaced. */
    function With(m: Metric, s: Option<int>): (v: ScoreVector)
      ensures v.Component(m) == s
      ensures forall n :: n != m ==> v.Component(n) == Component(n)
    {
      match m
      case SelfCapitalRatio => this.(selfCapitalRatio := s)
      case Roe => this.(roe := s)
      case Roa => this.(roa := s)
      case Per => this.(per := s)
      case Pbr => this.(pbr := s)
      case DividendYield => this.(dividendYield := s)
    }

    /** The six score columns in the order of `score_columns`, as the float
        cells pandas stores them in. */
    function Columns(): seq<Option<real>>
    {
      [AsCell(selfCapitalRatio), AsCell(roe), AsCell(roa),
       AsCell(per), AsCell(pbr), AsCell(dividendYield)]
    }
  }

  /** An integer score as a numeric cell. */
  function AsCell(s: Option<int>): Option<real>
  {
    match s
    case None => None
    case Some(k) => Some(k as real)
  }

  /** All six metric scores are within 1..5 or missing. */
  predicate WellScored(v: ScoreVector)
  {
    forall m :: v.Component(m).Some? ==> 1 <= v.Component(m).value <= 5
  }

  /** `calculate_scores(row)`: every ratio goes to its own scorer. */
  function ScoreRow(s: Security): (v: ScoreVector)
    ensures forall m :: v.Component(m) == MetricScore(m, s.Raw(m))
    ensures WellScored(v)
  {
    ScoreVector(
      MetricScore(SelfCapitalRatio, s.selfCapitalRatio),
      MetricScore(Roe, s.roe),
      MetricScore(Roa, s.roa),
      MetricScore(Per, s.per),
      MetricScore(Pbr, s.pbr),
      MetricScore(DividendYield, s.dividendYield))
  }

  /** Contribution of one score to a skip-missing sum. */
  function Points(s: Option<int>): int
  {
    if s.Some? then s.value else 0
  }

  /** Number of scored components. */
  function Scored(v: ScoreVector): (c: nat)
    ensures c <= 6
  {
    (if v.selfCapitalRatio.Some? then 1 else 0) + (if v.roe.Some? then 1 else 0) +
    (if v.roa.Some? then 1 else 0) + (if v.per.Some? then 1 else 0) +
    (if v.pbr.Some? then 1 else 0) + (if v.dividendYield.Some? then 1 else 0)
  }

  /** `combined_df[score_columns].sum(axis=1)`: the row-wise skip-missing sum of
      the six score columns. It is the pandas column sum of those cells, lies
      between the number of scored components and five times it, hence in
      0..30, and is 0 exactly when nothing is scored. */
  function TotalScore(v: ScoreVector): (t: int)
    requires WellScored(v)
    ensures t as real == Series.SumPresent(v.Columns())
    ensures Scored(v) <= t <= 5 * Scored(v)
    ensures 0 <= t <= 30
    ensures t == 0 <==> Scored(v) == 0
  {
    assert 1 <= Points(v.Component(SelfCapitalRatio)) || v.selfCapitalRatio.None?;
    assert 1 <= Points(v.Component(Roe)) || v.roe.None?;
    assert 1 <= Points(v.Component(Roa)) || v.roa.None?;
    assert 1 <= Points(v.Component(Per)) || v.per.None?;
    assert 1 <= Points(v.Component(Pbr)) || v.pbr.None?;
    assert 1 <= Points(v.Component(DividendYield)) || v.dividendYield.None?;
    assert Points(v.Component(SelfCapitalRatio)) <= 5 && Points(v.Component(Roe)) <= 5;
    assert Points(v.Component(Roa)) <= 5 && Points(v.Component(Per)) <= 5;
    assert Points(v.Component(Pbr)) <= 5 && Points(v.Component(DividendYield)) <= 5;
    ColumnSum(v);
    Points(v.selfCapitalRatio) + Points(v.roe) + Points(v.roa) +
    Points(v.per) + Points(v.pbr) + Points(v.dividendYield)
  }

  /** The six score cells sum, skipping missing ones, to the sum of their points. */
  lemma ColumnSum(v: ScoreVector)
    ensures Series.SumPresent(v.Columns()) ==
      (Points(v.selfCapitalRatio) + Points(v.roe) + Points(v.roa) +
       Points(v.per) + Points(v.pbr) + Points(v.dividendYield)) as real
  {
    var c := v.Columns();
    assert c == [c[0]] + ([c[1]] + ([c[2]] + ([c[3]] + ([c[4]] + ([c[5]] + [])))));
    Series.SumCons(c[5], []);
    Series.SumCons(c[4], [c[5]] + []);
    Series.SumCons(c[3], [c[4]] + ([c[5]] + []));
    Series.SumCons(c[2], [c[3]] + ([c[4]] + ([c[5]] + [])));
    Series.SumCons(c[1], [c[2]] + ([c[3]] + ([c[4]] + ([c[5]] + []))));
    Series.SumCons(c[0], [c[1]] + ([c[2]] + ([c[3]] + ([c[4]] + ([c[5]] + [])))));
  }

  /** Raising one component score, or scoring a missing one, never lowers the
      total; the total grows by exactly the change in that component. */
  lemma TotalMonotone(v: ScoreVector, m: Metric, s: int)
    requires WellScored(v) && 1 <= s <= 5 && Points(v.Component(m)) <= s
    ensures WellScored(v.With(m, Some(s)))
    ensures TotalScore(v.With(m, Some(s))) == TotalScore(v) + s - Points(v.Component(m))
    ensures TotalScore(v.With(m, Some(s))) >= TotalScore(v)
  {
    var w := v.With(m, Some(s));
    assert forall n :: w.Component(n).Some? ==> 1 <= w.Component(n).value <= 5 by {
      forall n ensures w.Component(n).Some? ==> 1 <= w.Component(n).value <= 5 {
        if n != m {
          assert w.Component(n) == v.Component(n);
        }
      }
    }
    assert w.Component(SelfCapitalRatio) == w.selfCapitalRatio;
    match m
    case SelfCapitalRatio =>
    case Roe =>
    case Roa =>
    case Per =>
    case Pbr =>
    case DividendYield =>
  }

  /** Rescaling of `配当利回り` to percent (`× 100`); a missing cell stays
      missing and every other cell of the row is left as it is. */
  function RescaleYield(s: Security): (t: Security)
    ensures t.dividendYield.None? <==> s.dividendYield.None?
    ensures t.dividendYield.Some? ==> t.dividendYield.value == 100.0 * s.dividendYield.value
    ensures t.(dividendYield := s.dividendYield) == s
  {
    match s.dividendYield
    case None => s
    case Some(y) => s.(dividendYield := Some(y * 100.0))
  }

  /** A row of the combined frame: the sheet row, its scores and its total. */
  datatype ScoredRow = ScoredRow(record: Security, scores: ScoreVector, total: int)

  /** One row of `pd.concat([df, scores_df], axis=1)` with `合計スコア` added. */
  function Combine(s: Security): (r: ScoredRow)
    ensures r.record == s
    ensures forall m :: r.scores.Component(m) == MetricScore(m, s.Raw(m))
    ensures WellScored(r.scores) && r.total == TotalScore(r.scores)
  {
    var v := ScoreRow(s);
    ScoredRow(s, v, TotalScore(v))
  }

  /** A combined row whose scores and total agree with its own record. */
  predicate Consistent(r: ScoredRow)
  {
    r.scores == ScoreRow(r.record) && r.total == TotalScore(r.scores)
  }

  /** Scoring is a function of the row alone: two rows with the same ratios get
      the same scores and the same total, whatever else differs. */
  lemma ScoresDependOnRatiosOnly(s: Security, t: Security)
    requires forall m :: s.Raw(m) == t.Raw(m)
    ensures Combine(s).scores == Combine(t).scores
    ensures Combine(s).total == Combine(t).total
  {
    assert s.Raw(SelfCapitalRatio) == t.Raw(SelfCapitalRatio);
    assert s.Raw(Roe) == t.Raw(Roe) && s.Raw(Roa) == t.Raw(Roa);
    assert s.Raw(Per) == t.Raw(Per) && s.Raw(Pbr) == t.Raw(Pbr);
    assert s.Raw(DividendYield) == t.Raw(DividendYield);
  }

  /** The total of a row with no present ratio is 0, not missing. */
  lemma AllMissingTotalsZero(s: Security)
    requires forall m :: s.Raw(m).None?
    ensures Combine(s).total == 0
  {
    assert s.Raw(SelfCapitalRatio).None? && s.Raw(Roe).None? && s.Raw(Roa).None?;
    assert s.Raw(Per).None? && s.Raw(Pbr).None? && s.Raw(DividendYield).None?;
  }

  /** `df['配当利回り'] * 100` over a whole frame. */
  function RescaleRows(rows: seq<Security>): (r: seq<Security>)
    ensures |r| == |rows|
    ensures forall i :: 0 <= i < |rows| ==> r[i] == RescaleYield(rows[i])
  {
    seq(|rows|, i requires 0 <= i < |rows| => RescaleYield(rows[i]))
  }

  /** `df.apply(calculate_scores, axis=1)` joined with the frame, plus `合計スコア`. */
  function CombineRows(rows: seq<Security>): (r: seq<ScoredRow>)
    ensures |r| == |rows|
    ensures forall i :: 0 <= i < |rows| ==> r[i] == Combine(rows[i])
  {
    seq(|rows|, i requires 0 <= i < |rows| => Combine(rows[i]))
  }
}
