/** The candidates page: its scoring of an uploaded candidates sheet, the
    company filter, and the sizing of a purchase either by a share count or by
    a budget. */
module Purchase {
  import opened Wrappers
  import opened Records
  import opened Seqs

  /** The page's scoring steps: `配当利回り` is rescaled to percent
      unconditionally, then every row is scored and totalled. A sheet with no
      rows gets no score columns from `apply`, so reading them for the total
      fails. */
  function ScoreCandidates(rows: seq<Security>): (r: Option<seq<ScoredRow>>)
    ensures r.None? <==> rows == []
    ensures r.Some? ==> |r.value| == |rows|
    ensures r.Some? ==> forall i :: 0 <= i < |rows| ==>
      r.value[i].record == RescaleYield(rows[i]) && Consistent(r.value[i])
  {
    if rows == [] then None else Some(CombineRows(RescaleRows(rows)))
  }

  /** `combined_df[combined_df['企業名'].isin(selected_companies)]`: the rows
      of the selected companies and no others. */
  function SelectCompanies(rows: seq<ScoredRow>, names: seq<string>): (r: seq<ScoredRow>)
    ensures |r| <= |rows|
    ensures forall x :: x in r <==> x in rows && x.record.name in names
  {
    Filter(rows, (y: ScoredRow) => y.record.name in names)
  }

  /** The filter keeps each selected row as many times as it occurs, and in
      frame order: selecting from two consecutive parts of a frame is
      selecting from each part in turn. */
  lemma SelectCompaniesSpec(rows: seq<ScoredRow>, more: seq<ScoredRow>, names: seq<string>, x: ScoredRow)
    ensures multiset(SelectCompanies(rows, names))[x] ==
      if x.record.name in names then multiset(rows)[x] else 0
    ensures SelectCompanies(rows + more, names) == SelectCompanies(rows, names) + SelectCompanies(more, names)
  {
    FilterMultiset(rows, (y: ScoredRow) => y.record.name in names, x);
    FilterAppend(rows, more, (y: ScoredRow) => y.record.name in names);
  }

  /** A missing cell times a number stays missing (NaN propagation). */
  function Times(v: Option<real>, k: real): (r: Option<real>)
    ensures r.None? <==> v.None?
    ensures r.Some? ==> r.value == v.value * k
  {
    match v
    case None => None
    case Some(x) => Some(x * k)
  }

  /** `amount // price` for a positive price: the largest whole number of
      shares the budget pays for. */
  function SharesForBudget(budget: real, price: real): (n: int)
    requires price > 0.0
    ensures price * (n as real) <= budget < price * ((n + 1) as real)
    ensures budget >= 0.0 ==> n >= 0
  {
    FloorOfQuotient(budget, price);
    (budget / price).Floor
  }

  /** The floor of a quotient, multiplied back, brackets the dividend. */
  lemma FloorOfQuotient(b: real, p: real)
    requires p > 0.0
    ensures p * ((b / p).Floor as real) <= b < p * (((b / p).Floor + 1) as real)
    ensures b >= 0.0 ==> (b / p).Floor >= 0
  {
    var q := b / p;
    var n := q.Floor;
    var f, g := n as real, (n + 1) as real;
    assert p * q == b;
    assert f <= q < g;
    assert p * (q - f) >= 0.0;
    assert p * (q - f) == p * q - p * f;
    assert p * (g - q) > 0.0;
    assert p * (g - q) == p * g - p * q;
    assert p * g - p * q > 0.0;
    assert p * g > b;
    assert p * f <= b;
  }

  /** How the purchase is sized: the share-count slider or the budget slider. */
  datatype Sizing = ByCount(count: int) | ByBudget(budget: real)

  /** The row's price is present and positive, as a budget division needs. */
  predicate Priced(r: ScoredRow)
  {
    r.record.price.Some? && r.record.price.value > 0.0
  }

  /** A selected row with its sizing columns: `購入株数`, `推定購入金額` and
      `推定配当金額`. */
  datatype Plan = Plan(row: ScoredRow, shares: Option<real>, amount: Option<real>, dividend: Option<real>)

  /** Lines 154-162 of the page for one row. By count, the amount is price
      times the count and the dividend per-share dividend times the count,
      while `購入株数` keeps the sheet's own cell. By budget, `購入株数`
      becomes the whole number of shares the budget pays for, and the amount
      and the dividend are the same products for that number. */
  function SizeRow(r: ScoredRow, sizing: Sizing): (p: Plan)
    requires sizing.ByBudget? ==> Priced(r)
    ensures p.row == r
    ensures sizing.ByCount? ==> p.shares == r.record.plannedShares
    ensures sizing.ByBudget? ==> p.shares == Some(SharesForBudget(sizing.budget, r.record.price.value) as real)
  {
    match sizing
    case ByCount(n) =>
      Plan(r, r.record.plannedShares, Times(r.record.price, n as real), Times(r.record.dividendPerShare, n as real))
    case ByBudget(b) =>
      var n := SharesForBudget(b, r.record.price.value) as real;
      Plan(r, Some(n), Times(r.record.price, n), Times(r.record.dividendPerShare, n))
  }

  /** By count: purchase amount = price × count and dividend = per-share
      dividend × count, missing when the cell is missing. */
  lemma CountPlan(r: ScoredRow, n: int)
    ensures var p := SizeRow(r, ByCount(n));
      && (p.amount.Some? <==> r.record.price.Some?)
      && (p.amount.Some? ==> p.amount.value == r.record.price.value * n as real)
      && (p.dividend.Some? <==> r.record.dividendPerShare.Some?)
      && (p.dividend.Some? ==> p.dividend.value == r.record.dividendPerShare.value * n as real)
  {
  }

  /** By budget: a non-negative whole number of shares whose cost does not
      exceed the budget, with less than one share's price left over; the
      dividend is the per-share dividend times that number. */
  lemma BudgetPlan(r: ScoredRow, budget: real)
    requires Priced(r)
    ensures var p := SizeRow(r, ByBudget(budget));
      && p.shares.Some? && p.amount.Some?
      && p.shares.value == p.shares.value.Floor as real
      && (budget >= 0.0 ==> p.shares.value >= 0.0)
      && p.amount.value == r.record.price.value * p.shares.value
      && p.amount.value <= budget < p.amount.value + r.record.price.value
      && p.dividend == Times(r.record.dividendPerShare, p.shares.value)
  {
    var price := r.record.price.value;
    var n := SharesForBudget(budget, price);
    assert price * ((n + 1) as real) == price * (n as real) + price;
  }

  /** Sizing every selected row. */
  function SizeSelection(rows: seq<ScoredRow>, sizing: Sizing): (plans: seq<Plan>)
    requires sizing.ByBudget? ==> forall i :: 0 <= i < |rows| ==> Priced(rows[i])
    ensures |plans| == |rows|
    ensures forall i :: 0 <= i < |rows| ==> plans[i] == SizeRow(rows[i], sizing)
  {
    seq(|rows|, i requires 0 <= i < |rows| => SizeRow(rows[i], sizing))
  }

  /** Sizing by budget is sizing by the share count the budget buys: the same
      purchase amount and the same dividend. */
  lemma BudgetIsCountOfItsShares(r: ScoredRow, budget: real)
    requires Priced(r)
    ensures var byBudget := SizeRow(r, ByBudget(budget));
      var byCount := SizeRow(r, ByCount(SharesForBudget(budget, r.record.price.value)));
      byBudget.amount == byCount.amount && byBudget.dividend == byCount.dividend
  {
  }

  /** A budget that is an exact multiple of the price buys exactly that many
      shares and spends all of it. */
  lemma ExactBudget(r: ScoredRow, price: real, k: nat)
    requires r.record.price == Some(price) && price > 0.0
    ensures var p := SizeRow(r, ByBudget(price * k as real));
      p.shares == Some(k as real) && p.amount.Some? && p.amount.value == price * k as real
  {
    ExactShares(price, k);
  }

  /** The only whole number of shares whose cost brackets an exact multiple of
      the price is that multiple. */
  lemma ExactShares(price: real, k: int)
    requires price > 0.0
    ensures SharesForBudget(price * k as real, price) == k
  {
    var b := price * k as real;
    var n := SharesForBudget(b, price);
    Cancel(price, n as real, k as real);
    Cancel(price, k as real, (n + 1) as real);
  }

  /** A positive factor can be cancelled from both sides of a comparison. */
  lemma Cancel(p: real, a: real, b: real)
    requires p > 0.0
    ensures p * a <= p * b ==> a <= b
    ensures p * a < p * b ==> a < b
  {
    assert p * (b - a) == p * b - p * a;
  }

  /** A budget of 1,000,000 at a price of 2,500 buys 400 shares and spends it
      all; the dividend is 400 times the per-share dividend. */
  lemma BudgetExample(r: ScoredRow)
    requires r.record.price == Some(2500.0)
    ensures var p := SizeRow(r, ByBudget(1000000.0));
      p.shares == Some(400.0) && p.amount == Some(1000000.0) &&
      p.dividend == Times(r.record.dividendPerShare, 400.0)
  {
    ExactBudget(r, 2500.0, 400);
  }

  /** A stop of a Streamlit slider from `lo` to `hi` in steps of `step`. */
  predicate SliderStop(v: int, lo: int, hi: int, step: int)
  {
    step > 0 && lo <= v <= hi && (v - lo) % step == 0
  }

  /** The budget slider counts in units of 10,000 yen from 100 to 10,000 in
      steps of 100, so every budget is a whole number of millions between
      1,000,000 and 100,000,000. */
  function BudgetFromSlider(units: int): (budget: real)
    requires SliderStop(units, 100, 10000, 100)
    ensures 1000000.0 <= budget <= 100000000.0
    ensures budget == budget.Floor as real && budget.Floor % 1000000 == 0
  {
    (units * 10000) as real
  }
}
