/** Column reductions with pandas' default `skipna=True`: a missing cell is left
    out of a sum and out of a mean's denominator; a sum of nothing is 0 and a
    mean of nothing is missing. */
module Series {
  import opened Wrappers

  /** Number of cells that hold a value. */
  function CountPresent(xs: seq<Option<real>>): (c: nat)
    ensures c <= |xs|
  {
    if xs == [] then 0
    else (if xs[0].Some? then 1 else 0) + CountPresent(xs[1..])
  }

  /** No cell is counted exactly when every cell is missing. */
  lemma {:induction false} CountZero(xs: seq<Option<real>>)
    ensures CountPresent(xs) == 0 <==> forall i :: 0 <= i < |xs| ==> xs[i].None?
  {
    if xs != [] {
      CountZero(xs[1..]);
      assert forall i :: 1 <= i < |xs| ==> xs[i] == xs[1..][i - 1];
    }
  }

  /** `Series.sum()`: the sum of the cells that hold a value. */
  function SumPresent(xs: seq<Option<real>>): real
  {
    if xs == [] then 0.0
    else (if xs[0].Some? then xs[0].value else 0.0) + SumPresent(xs[1..])
  }

  /** `Series.mean()`: missing when no cell holds a value, otherwise the sum of
      the present cells over their number. */
  function MeanPresent(xs: seq<Option<real>>): (m: Option<real>)
    ensures m.None? <==> forall i :: 0 <= i < |xs| ==> xs[i].None?
  {
    CountZero(xs);
    var c := CountPresent(xs);
    if c == 0 then None else Some(SumPresent(xs) / c as real)
  }

  /** Every present cell lies in `[lo, hi]`. */
  predicate PresentWithin(xs: seq<Option<real>>, lo: real, hi: real)
  {
    forall i :: 0 <= i < |xs| && xs[i].Some? ==> lo <= xs[i].value <= hi
  }

  /** A sum of all-missing cells is 0. */
  lemma {:induction false} SumAllMissing(xs: seq<Option<real>>)
    requires forall i :: 0 <= i < |xs| ==> xs[i].None?
    ensures SumPresent(xs) == 0.0
  {
    if xs != [] {
      SumAllMissing(xs[1..]);
    }
  }

  /** The sum of a column is its first cell plus the sum of the rest. */
  lemma SumCons(x: Option<real>, xs: seq<Option<real>>)
    ensures SumPresent([x] + xs) == (if x.Some? then x.value else 0.0) + SumPresent(xs)
  {
    assert ([x] + xs)[1..] == xs;
  }

  /** Sums split over concatenation; the step a running total needs. */
  lemma {:induction false} SumAppend(a: seq<Option<real>>, b: seq<Option<real>>)
    ensures SumPresent(a + b) == SumPresent(a) + SumPresent(b)
    ensures CountPresent(a + b) == CountPresent(a) + CountPresent(b)
  {
    if a == [] {
      assert a + b == b;
    } else {
      assert (a + b)[1..] == a[1..] + b;
      SumAppend(a[1..], b);
    }
  }

  /** `k` copies of `x` added up. */
  function Multiple(k: nat, x: real): real
  {
    if k == 0 then 0.0 else x + Multiple(k - 1, x)
  }

  /** Adding up `k` copies of `x` is multiplying `x` by `k`. */
  lemma {:induction false} MultipleIsProduct(k: nat, x: real)
    ensures Multiple(k, x) == x * (k as real)
  {
    if k > 0 {
      MultipleIsProduct(k - 1, x);
      assert x * (k as real) == x * ((k - 1) as real) + x;
    }
  }

  /** Bounds on the present cells bound the sum: it lies between the lower
      bound and the upper bound taken once per present cell. */
  lemma {:induction false} SumWithin(xs: seq<Option<real>>, lo: real, hi: real)
    requires PresentWithin(xs, lo, hi)
    ensures Multiple(CountPresent(xs), lo) <= SumPresent(xs) <= Multiple(CountPresent(xs), hi)
  {
    if xs != [] {
      TailWithin(xs, lo, hi);
      SumWithin(xs[1..], lo, hi);
      if xs[0].Some? {
        assert lo <= xs[0].value <= hi;
      }
    }
  }

  /** Dropping the first cell keeps the bounds. */
  lemma TailWithin(xs: seq<Option<real>>, lo: real, hi: real)
    requires xs != [] && PresentWithin(xs, lo, hi)
    ensures PresentWithin(xs[1..], lo, hi)
  {
    forall i | 0 <= i < |xs[1..]| && xs[1..][i].Some?
      ensures lo <= xs[1..][i].value <= hi
    {
      assert xs[1..][i] == xs[i + 1];
    }
  }

  /** A sum of non-negative cells is non-negative. */
  lemma {:induction false} SumNonNegative(xs: seq<Option<real>>)
    requires forall i :: 0 <= i < |xs| && xs[i].Some? ==> 0.0 <= xs[i].value
    ensures 0.0 <= SumPresent(xs)
  {
    if xs != [] {
      assert forall i :: 0 <= i < |xs[1..]| ==> xs[1..][i] == xs[i + 1];
      SumNonNegative(xs[1..]);
    }
  }

  /** A quotient lies between the bounds that its numerator meets times the divisor. */
  lemma QuotientWithin(s: real, c: real, lo: real, hi: real)
    requires c > 0.0 && lo * c <= s <= hi * c
    ensures lo <= s / c <= hi
  {
  }

  /** The mean of the present cells lies between any bounds on them, so between
      their minimum and their maximum. */
  lemma MeanWithin(xs: seq<Option<real>>, lo: real, hi: real)
    requires PresentWithin(xs, lo, hi)
    ensures MeanPresent(xs).Some? ==> lo <= MeanPresent(xs).value <= hi
  {
    if MeanPresent(xs).Some? {
      SumWithin(xs, lo, hi);
      MultipleIsProduct(CountPresent(xs), lo);
      MultipleIsProduct(CountPresent(xs), hi);
      QuotientWithin(SumPresent(xs), CountPresent(xs) as real, lo, hi);
    }
  }

  /** A one-cell column has that cell as its mean, missing included. */
  lemma MeanOfOne(x: Option<real>)
    ensures MeanPresent([x]) == x
  {
    assert [x][1..] == [];
    assert CountPresent([x]) == if x.Some? then 1 else 0;
    assert SumPresent([x]) == if x.Some? then x.value else 0.0;
  }
}
