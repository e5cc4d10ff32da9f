/** The scoring pipeline of the holdings page and of the stand-alone app, which
    run the same steps on an uploaded holdings sheet: drop the past-year
    dividend-yield columns, rescale the dividend yield to percent when its
    column exists, score every row and add the total. */
module Holdings {
  import opened Wrappers
  import opened Scoring
  import opened Records
  import opened Seqs

  /** An uploaded sheet: its column labels and its rows. A row's cell for a
      column the sheet lacks is never read. */
  datatype Sheet = Sheet(columns: seq<string>, rows: seq<Security>)

  /** The combined frame: the remaining columns and the scored rows. */
  datatype ScoredSheet = ScoredSheet(columns: seq<string>, rows: seq<ScoredRow>)

  const YieldColumn: string := "配当利回り"

  /** `[str(year) for year in range(2020, 2025)]`. */
  const DroppedYears: seq<string> := ["2020", "2021", "2022", "2023", "2024"]

  /** The columns the six scorers read, in `calculate_scores` order. */
  const MetricColumns: seq<string> := ["自己資本比率", "ROE", "ROA", "PER", "PBR", "配当利回り"]

  /** `配当利回り2020` … `配当利回り2024` up to the first `k` years. */
  function HistoryColumns(k: nat): (r: seq<string>)
    requires k <= |DroppedYears|
    ensures |r| == k
    ensures forall j :: 0 <= j < k ==> r[j] == YieldColumn + DroppedYears[j]
  {
    if k == 0 then [] else HistoryColumns(k - 1) + [YieldColumn + DroppedYears[k - 1]]
  }

  /** Labels that survive the drop loop. */
  predicate Kept(c: string)
  {
    c !in HistoryColumns(|DroppedYears|)
  }

  /** The drop loop: for each year, `df = df.drop(columns=[…])` when the label
      is present. The result is the sheet's columns without the five past-year
      labels, every other column kept in order and with its multiplicity. */
  method DropYieldHistory(columns: seq<string>) returns (kept: seq<string>)
    ensures kept == Filter(columns, Kept)
  {
    kept := columns;
    FilterKeepsAll(columns, (c: string) => c !in HistoryColumns(0));
    for k := 0 to |DroppedYears|
      invariant kept == Filter(columns, (c: string) => c !in HistoryColumns(k))
    {
      var name := YieldColumn + DroppedYears[k];
      assert forall c :: c in HistoryColumns(k + 1) <==> c in HistoryColumns(k) || c == name;
      if name in kept {
        kept := Filter(kept, (c: string) => c != name);
      } else {
        FilterKeepsAll(kept, (c: string) => c != name);
      }
      FilterNarrow(columns, (c: string) => c !in HistoryColumns(k), (c: string) => c != name,
        (c: string) => c !in HistoryColumns(k + 1));
    }
    FilterNarrow(columns, (c: string) => c !in HistoryColumns(|DroppedYears|), (c: string) => true, Kept);
    FilterKeepsAll(kept, (c: string) => true);
  }

  /** No metric column is a past-year label, so the drop loop keeps them all. */
  lemma MetricColumnsKept(c: string)
    requires c in MetricColumns
    ensures Kept(c)
  {
    forall j | 0 <= j < |DroppedYears| ensures c != HistoryColumns(|DroppedYears|)[j] {
      assert |YieldColumn + DroppedYears[j]| == 9;
    }
  }

  /** The first metric column the frame lacks, read as a `KeyError`. */
  function MissingMetric(columns: seq<string>): (r: Option<string>)
    ensures r.None? <==> forall c :: c in MetricColumns ==> c in columns
    ensures r.Some? ==> r.value in MetricColumns && r.value !in columns
  {
    if "自己資本比率" !in columns then Some("自己資本比率")
    else if "ROE" !in columns then Some("ROE")
    else if "ROA" !in columns then Some("ROA")
    else if "PER" !in columns then Some("PER")
    else if "PBR" !in columns then Some("PBR")
    else if YieldColumn !in columns then Some(YieldColumn)
    else None
  }

  /** Why the score table cannot be built; both are `KeyError`s. */
  datatype ScoreError =
    | AbsentColumn(column: string)  // a metric column that scoring the first row reads
    | NoScoreColumns                // a sheet without rows, to which `apply` adds no score columns

  /** The steps of `show()` up to the score table. The frame is scored exactly
      when the sheet has rows and all six metric columns; then the past-year
      columns are gone, every row keeps its cells except the dividend yield,
      which is scored in percent (`× 100`), and each row carries its six scores
      and their total. A sheet without rows fails when the total reads the
      score columns; otherwise the first absent metric column is reported. */
  method ScoreHoldings(sheet: Sheet) returns (result: Result<ScoredSheet, ScoreError>)
    ensures result.Failure? <==> sheet.rows == [] || exists c :: c in MetricColumns && c !in sheet.columns
    ensures result.Failure? && sheet.rows == [] ==> result.error == NoScoreColumns
    ensures result.Failure? && sheet.rows != [] ==>
      result.error.AbsentColumn? && result.error.column in MetricColumns && result.error.column !in sheet.columns
    ensures result.Success? ==>
      && result.value.columns == Filter(sheet.columns, Kept)
      && |result.value.rows| == |sheet.rows|
      && forall i :: 0 <= i < |sheet.rows| ==>
           && result.value.rows[i].record == RescaleYield(sheet.rows[i])
           && Consistent(result.value.rows[i])
  {
    var columns := DropYieldHistory(sheet.columns);
    var rows := sheet.rows;
    if YieldColumn in columns {
      rows := RescaleRows(rows);
    }
    forall c | c in MetricColumns ensures c in columns <==> c in sheet.columns {
      MetricColumnsKept(c);
    }
    var missing := MissingMetric(columns);
    if rows == [] {
      result := Failure(NoScoreColumns);
    } else if missing.Some? {
      result := Failure(AbsentColumn(missing.value));
    } else {
      result := Success(ScoredSheet(columns, CombineRows(rows)));
    }
  }

  /** The dividend-yield score of a scored holdings row is the score of the
      uploaded fraction times 100, never of the raw fraction. */
  lemma YieldScoredInPercent(sheet: Sheet, scored: ScoredSheet, i: nat)
    requires i < |sheet.rows| && |scored.rows| == |sheet.rows|
    requires scored.rows[i].record == RescaleYield(sheet.rows[i]) && Consistent(scored.rows[i])
    ensures scored.rows[i].scores.dividendYield ==
      MetricScore(DividendYield, if sheet.rows[i].dividendYield.Some?
                                 then Some(100.0 * sheet.rows[i].dividendYield.value) else None)
  {
    assert scored.rows[i].scores.dividendYield == scored.rows[i].scores.Component(DividendYield);
  }

  /** The other five scores of a scored holdings row are those of the uploaded
      cells, untouched by the rescaling. */
  lemma OtherScoresUnscaled(sheet: Sheet, scored: ScoredSheet, i: nat, m: Metric)
    requires i < |sheet.rows| && |scored.rows| == |sheet.rows|
    requires scored.rows[i].record == RescaleYield(sheet.rows[i]) && Consistent(scored.rows[i])
    requires m != DividendYield
    ensures scored.rows[i].scores.Component(m) == MetricScore(m, sheet.rows[i].Raw(m))
  {
    var s := sheet.rows[i];
    assert RescaleYield(s).(dividendYield := s.dividendYield) == s;
  }
}
