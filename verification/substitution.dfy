/** The substitution page: the user picks some of the held securities and one
    candidate, and the page compares what is held (its market value and the
    four-year average dividends) with what the after-tax proceeds would buy of
    the candidate. */
module Substitution {
  import opened Wrappers
  import opened Records
  import opened Seqs
  import Series
  import Purchase

  /** Why the page stops before computing anything. */
  datatype SimError =
    | MissingPageData      // the holdings or the candidates sheet was never uploaded
    | NoHeldSelection      // no held security is selected
    | UnknownCandidate     // no candidate row carries the chosen name (`.iloc[0]` fails)

  /** The figures the page shows: held value and dividends, the purchase
      ceiling, the candidate's share count, value and dividends, and the two
      changes. A missing per-share dividend leaves the candidate's dividends,
      and so their change, missing. */
  datatype Scenario = Scenario(
    heldValue: real,                 // 選択した保有有価証券の時価総額
    heldDividends: real,             // 配当金平均 summed over the held rows
    ceiling: real,                   // 購入可能な上限金額
    shares: int,                     // 新しい有価証券の購入株数
    newValue: real,                  // 購入株数 × 株価
    newDividends: Option<real>,      // 新しい有価証券の配当金
    valueDelta: real,                // 変化 of 時価総額
    dividendDelta: Option<real>)     // 変化 of 配当金

  /** One line of the per-security table: name, market value, average dividend. */
  datatype HeldLine = HeldLine(name: string, marketValue: Option<real>, averageDividend: Option<real>)

  /** `page1_df[page1_df['企業名'].isin(held_securities)]`: the rows of the
      selected securities and no others. */
  function HeldRows(rows: seq<Security>, selection: seq<string>): (r: seq<Security>)
    ensures |r| <= |rows|
    ensures forall x :: x in r <==> x in rows && x.name in selection
  {
    Filter(rows, (s: Security) => s.name in selection)
  }

  /** `配当金平均`: the row mean of the four past dividends, skipping missing
      years; it is missing exactly when all four years are. */
  function AverageDividend(s: Security): (a: Option<real>)
    ensures a.None? <==>
      s.dividend2020.None? && s.dividend2021.None? && s.dividend2022.None? && s.dividend2023.None?
  {
    var d := s.PastDividends();
    assert d[0] == s.dividend2020 && d[1] == s.dividend2021 && d[2] == s.dividend2022 && d[3] == s.dividend2023;
    Series.MeanPresent(d)
  }

  /** With all four years present the average is their sum over four, and it
      lies between any bounds on the years present. */
  lemma AverageDividendSpec(s: Security, lo: real, hi: real)
    requires Series.PresentWithin(s.PastDividends(), lo, hi)
    ensures AverageDividend(s).Some? ==> lo <= AverageDividend(s).value <= hi
  {
    Series.MeanWithin(s.PastDividends(), lo, hi);
  }

  /** A full four-year history averages to the plain mean of the four. */
  lemma FullHistoryAverage(s: Security)
    requires s.dividend2020.Some? && s.dividend2021.Some? && s.dividend2022.Some? && s.dividend2023.Some?
    ensures AverageDividend(s).Some?
    ensures AverageDividend(s).value ==
      (s.dividend2020.value + s.dividend2021.value + s.dividend2022.value + s.dividend2023.value) / 4.0
  {
    var d := s.PastDividends();
    var a, b, c, e := s.dividend2020.value, s.dividend2021.value, s.dividend2022.value, s.dividend2023.value;
    assert d[1..] == [s.dividend2021, s.dividend2022, s.dividend2023];
    assert d[1..][1..] == [s.dividend2022, s.dividend2023];
    assert d[1..][1..][1..] == [s.dividend2023];
    assert d[1..][1..][1..][1..] == [];
    assert Series.CountPresent(d[1..][1..][1..]) == 1 && Series.SumPresent(d[1..][1..][1..]) == e;
    assert Series.CountPresent(d[1..][1..]) == 2 && Series.SumPresent(d[1..][1..]) == c + e;
    assert Series.CountPresent(d[1..]) == 3 && Series.SumPresent(d[1..]) == b + c + e;
    assert Series.CountPresent(d) == 4 && Series.SumPresent(d) == a + b + c + e;
  }

  /** The `時価` cell of a row. */
  function MarketValue(s: Security): Option<real>
  {
    s.marketValue
  }

  /** One column of some rows: the cell `cell` reads from each. */
  function Cells(rows: seq<Security>, cell: Security -> Option<real>): (c: seq<Option<real>>)
    ensures |c| == |rows|
    ensures forall i :: 0 <= i < |rows| ==> c[i] == cell(rows[i])
  {
    seq(|rows|, i requires 0 <= i < |rows| => cell(rows[i]))
  }

  /** One column over the whole frame with the cells of unselected rows
      blanked out. */
  function Masked(rows: seq<Security>, selection: seq<string>, cell: Security -> Option<real>): (c: seq<Option<real>>)
    ensures |c| == |rows|
    ensures forall i :: 0 <= i < |rows| ==> c[i] == if rows[i].name in selection then cell(rows[i]) else None
  {
    seq(|rows|, i requires 0 <= i < |rows| => if rows[i].name in selection then cell(rows[i]) else None)
  }

  /** Summing a column over the selected rows is summing it over the whole
      frame with the unselected rows counted as missing. */
  lemma {:induction false} SumOfSelected(rows: seq<Security>, selection: seq<string>, cell: Security -> Option<real>)
    ensures Series.SumPresent(Cells(HeldRows(rows, selection), cell)) == Series.SumPresent(Masked(rows, selection, cell))
  {
    if rows != [] {
      var x, rest := rows[0], rows[1..];
      SumOfSelected(rest, selection, cell);
      var head := if x.name in selection then cell(x) else None;
      assert Series.SumPresent(Masked(rows, selection, cell)) ==
        (if head.Some? then head.value else 0.0) + Series.SumPresent(Masked(rest, selection, cell)) by {
        assert Masked(rows, selection, cell) == [head] + Masked(rest, selection, cell);
        Series.SumCons(head, Masked(rest, selection, cell));
      }
      assert Series.SumPresent(Cells(HeldRows(rows, selection), cell)) ==
        (if head.Some? then head.value else 0.0) + Series.SumPresent(Cells(HeldRows(rest, selection), cell)) by {
        SelectedCellsCons(rows, selection, cell);
      }
    }
  }

  /** The first row adds its cell to the selected column when it is selected. */
  lemma SelectedCellsCons(rows: seq<Security>, selection: seq<string>, cell: Security -> Option<real>)
    requires rows != []
    ensures var head := if rows[0].name in selection then cell(rows[0]) else None;
      Series.SumPresent(Cells(HeldRows(rows, selection), cell)) ==
        (if head.Some? then head.value else 0.0) + Series.SumPresent(Cells(HeldRows(rows[1..], selection), cell))
  {
    var x, rest := rows[0], rows[1..];
    var tail := HeldRows(rest, selection);
    if x.name in selection {
      assert HeldRows(rows, selection) == [x] + tail;
      assert Cells([x] + tail, cell) == [cell(x)] + Cells(tail, cell);
      Series.SumCons(cell(x), Cells(tail, cell));
    } else {
      assert HeldRows(rows, selection) == tail;
    }
  }

  /** `held_security_data['時価'].sum()`: the market values of the selected
      rows added up, missing ones skipped. */
  function HeldValue(rows: seq<Security>, selection: seq<string>): (h: real)
    ensures h == Series.SumPresent(Masked(rows, selection, MarketValue))
  {
    SumOfSelected(rows, selection, MarketValue);
    Series.SumPresent(Cells(HeldRows(rows, selection), MarketValue))
  }

  /** `held_security_data['配当金平均'].sum()`: the average dividends of the
      selected rows added up, missing ones skipped. */
  function HeldDividends(rows: seq<Security>, selection: seq<string>): (h: real)
    ensures h == Series.SumPresent(Masked(rows, selection, AverageDividend))
  {
    SumOfSelected(rows, selection, AverageDividend);
    Series.SumPresent(Cells(HeldRows(rows, selection), AverageDividend))
  }

  /** Held value adds up row by row: a row counts with its `時価` exactly when
      it is selected and its value is present, and every other row adds
      nothing. */
  lemma HeldValueStep(rows: seq<Security>, x: Security, selection: seq<string>)
    ensures HeldValue(rows + [x], selection) ==
      HeldValue(rows, selection) +
      (if x.name in selection && x.marketValue.Some? then x.marketValue.value else 0.0)
  {
    var last := if x.name in selection then x.marketValue else None;
    assert Masked(rows + [x], selection, MarketValue) == Masked(rows, selection, MarketValue) + [last];
    Series.SumAppend(Masked(rows, selection, MarketValue), [last]);
    Series.SumCons(last, []);
    assert [last] + [] == [last];
  }

  /** Held value over non-negative market values is non-negative. */
  lemma HeldValueNonNegative(rows: seq<Security>, selection: seq<string>)
    requires forall i :: 0 <= i < |rows| && rows[i].marketValue.Some? ==> 0.0 <= rows[i].marketValue.value
    ensures 0.0 <= HeldValue(rows, selection)
  {
    Series.SumNonNegative(Masked(rows, selection, MarketValue));
  }

  /** The share of the held value that is left after the assumed 30% tax. */
  const AfterTaxShare: real := 7.0 / 10.0

  /** `held_market_value * 0.7`: the most the proceeds can pay for. */
  function Ceiling(heldValue: real): (c: real)
    ensures heldValue >= 0.0 ==> 0.0 <= c <= heldValue
    ensures heldValue >= 0.0 ==> heldValue - c == heldValue * 3.0 / 10.0
  {
    heldValue * AfterTaxShare
  }

  /** Python's `int(x)` on a number: truncation toward zero. */
  function Trunc(x: real): (n: int)
    ensures x >= 0.0 ==> 0 <= n && n as real <= x < (n + 1) as real
    ensures x < 0.0 ==> n <= 0 && (n - 1) as real < x <= n as real
  {
    if x >= 0.0 then x.Floor else -((-x).Floor)
  }

  /** Position of the first row with the given name, or the row count if none has it. */
  function FirstIndex(rows: seq<Security>, name: string): (i: nat)
    ensures i <= |rows|
    ensures i < |rows| ==> rows[i].name == name
    ensures forall j :: 0 <= j < i ==> rows[j].name != name
  {
    if rows == [] then 0
    else if rows[0].name == name then 0
    else 1 + FirstIndex(rows[1..], name)
  }

  /** `page2_df[page2_df['企業名'] == new_security].iloc[0]`. */
  function FirstNamed(rows: seq<Security>, name: string): (r: Option<Security>)
    ensures r.None? <==> forall j :: 0 <= j < |rows| ==> rows[j].name != name
    ensures r.Some? ==> r.value in rows && r.value.name == name
  {
    var i := FirstIndex(rows, name);
    if i < |rows| then Some(rows[i]) else None
  }

  /** The candidate row the page would pick has a positive price. The page
      divides by that price without a guard, so a caller must supply one. */
  predicate CandidatePriced(candidates: Option<seq<Security>>, candidate: string)
  {
    candidates.Some? ==>
      var i := FirstIndex(candidates.value, candidate);
      i < |candidates.value| ==>
        candidates.value[i].price.Some? && candidates.value[i].price.value > 0.0
  }

  /** The whole page, from the two stored sheets, the selected held names, the
      purchase amount from the slider and the chosen candidate name. */
  function Simulate(holdings: Option<seq<Security>>, candidates: Option<seq<Security>>,
                    selection: seq<string>, purchase: int, candidate: string): (r: Result<Scenario, SimError>)
    requires CandidatePriced(candidates, candidate)
    ensures r == Failure(MissingPageData) <==> holdings.None? || candidates.None?
    ensures r == Failure(NoHeldSelection) <==> holdings.Some? && candidates.Some? && selection == []
    ensures r == Failure(UnknownCandidate) <==>
      holdings.Some? && candidates.Some? && selection != [] &&
      forall j :: 0 <= j < |candidates.value| ==> candidates.value[j].name != candidate
    ensures r.Success? ==>
      var c := FirstNamed(candidates.value, candidate).value;
      && c in candidates.value && c.name == candidate
      && r.value == Figures(HeldValue(holdings.value, selection), HeldDividends(holdings.value, selection), c, purchase)
  {
    if holdings.None? || candidates.None? then Failure(MissingPageData)
    else if selection == [] then Failure(NoHeldSelection)
    else match FirstNamed(candidates.value, candidate)
      case None => Failure(UnknownCandidate)
      case Some(c) =>
        Success(Figures(HeldValue(holdings.value, selection), HeldDividends(holdings.value, selection), c, purchase))
  }

  /** The figures for the chosen candidate row `c`: the shares the purchase
      amount pays for at its price, what they are worth and earn, and the
      changes against the held value and dividends. */
  function Figures(heldValue: real, heldDividends: real, c: Security, purchase: int): (s: Scenario)
    requires c.price.Some? && c.price.value > 0.0
    ensures && s.heldValue == heldValue
            && s.heldDividends == heldDividends
            && s.ceiling == heldValue * AfterTaxShare
            && c.price.value * (s.shares as real) <= purchase as real < c.price.value * ((s.shares + 1) as real)
            && (purchase >= 0 ==> s.shares >= 0)
            && s.newValue == s.shares as real * c.price.value
            && s.newDividends == Purchase.Times(c.dividendPerShare, s.shares as real)
            && s.valueDelta == s.newValue - heldValue
            && (s.dividendDelta.Some? <==> c.dividendPerShare.Some?)
            && (s.dividendDelta.Some? ==> s.dividendDelta.value == s.newDividends.value - heldDividends)
  {
    var shares := Purchase.SharesForBudget(purchase as real, c.price.value);
    var newValue := shares as real * c.price.value;
    var newDividends := Purchase.Times(c.dividendPerShare, shares as real);
    Scenario(
      heldValue, heldDividends, Ceiling(heldValue), shares, newValue, newDividends,
      newValue - heldValue,
      match newDividends
      case None => None
      case Some(d) => Some(d - heldDividends))
  }

  /** With the purchase amount on the slider, from 0 to `int` of the ceiling,
      the candidate bought costs at most the amount, so at most 70% of the
      held value, and for a non-negative held value the market value falls
      by at least 30% of it. */
  lemma WithinCeiling(heldValue: real, heldDividends: real, c: Security, purchase: int)
    requires c.price.Some? && c.price.value > 0.0
    requires 0 <= purchase <= Trunc(Ceiling(heldValue))
    ensures var s := Figures(heldValue, heldDividends, c, purchase);
      && 0 <= s.shares
      && 0.0 <= s.newValue <= purchase as real
      && (heldValue >= 0.0 ==> purchase as real <= s.ceiling)
      && (heldValue >= 0.0 ==> s.valueDelta <= -(heldValue * 3.0 / 10.0) <= 0.0)
  {
    var s := Figures(heldValue, heldDividends, c, purchase);
    var price := c.price.value;
    assert s.shares as real * price == price * s.shares as real;
    NonNegativeProduct(s.shares as real, price);
  }

  /** A product of two non-negative numbers is non-negative. */
  lemma NonNegativeProduct(a: real, b: real)
    requires 0.0 <= a && 0.0 <= b
    ensures 0.0 <= a * b
  {
  }

  /** Held value 10,000,000 yen gives a ceiling of 7,000,000; spending all of it
      on a candidate at 3,500 yen buys 2,000 shares worth 7,000,000, a change
      of -3,000,000. */
  lemma SimulationExample(holdings: seq<Security>, candidates: seq<Security>, selection: seq<string>, candidate: string)
    requires selection != [] && HeldValue(holdings, selection) == 10000000.0
    requires candidates != [] && candidates[0].name == candidate && candidates[0].price == Some(3500.0)
    ensures var r := Simulate(Some(holdings), Some(candidates), selection, 7000000, candidate);
      && r.Success? && r.value.ceiling == 7000000.0 && r.value.shares == 2000
      && r.value.newValue == 7000000.0 && r.value.valueDelta == -3000000.0
  {
    Purchase.ExactShares(3500.0, 2000);
  }

  /** One line of the per-security table. */
  function Line(s: Security): (l: HeldLine)
    ensures l.name == s.name && l.marketValue == s.marketValue
    ensures l.averageDividend.None? <==> forall i :: 0 <= i < 4 ==> s.PastDividends()[i].None?
  {
    HeldLine(s.name, s.marketValue, AverageDividend(s))
  }

  /** The loop over `held_security_data.iterrows()` that appends one line per
      held row, in frame order. */
  method HeldLines(held: seq<Security>) returns (lines: seq<HeldLine>)
    ensures |lines| == |held|
    ensures forall i :: 0 <= i < |held| ==> lines[i] == Line(held[i])
  {
    lines := [];
    var k := 0;
    while k < |held|
      invariant 0 <= k <= |held|
      invariant |lines| == k
      invariant forall i :: 0 <= i < k ==> lines[i] == Line(held[i])
    {
      lines := lines + [Line(held[k])];
      k := k + 1;
    }
  }
}
