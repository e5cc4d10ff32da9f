/** The two read-only views of a combined frame: the ten largest rows of one raw
    ratio (`df.nlargest(10, column)`) and the per-industry mean of each score
    column (`groupby('業種')[score_columns].mean()`). */
module Ranking {
  import opened Wrappers
  import opened Scoring
  import opened Records
  import opened Seqs
  import Series

  /** The row has a value for the ratio. */
  predicate Has(r: ScoredRow, m: Metric)
  {
    r.record.Raw(m).Some?
  }

  /** The row's value for the ratio. */
  function Val(r: ScoredRow, m: Metric): real
    requires Has(r, m)
  {
    r.record.Raw(m).value
  }

  /** Every row has a value and the values never rise along the sequence. */
  predicate Descending(s: seq<ScoredRow>, m: Metric)
  {
    (forall i :: 0 <= i < |s| ==> Has(s[i], m)) &&
    (forall i, j :: 0 <= i < j < |s| ==> Val(s[i], m) >= Val(s[j], m))
  }

  /** Places `x` after the rows strictly larger than it, so before the rows it
      ties with, which keeps earlier rows ahead of later equal ones. */
  function Insert(x: ScoredRow, s: seq<ScoredRow>, m: Metric): (r: seq<ScoredRow>)
    requires Has(x, m) && Descending(s, m)
    ensures Descending(r, m)
    ensures multiset(r) == multiset(s) + multiset{x}
    ensures |r| == |s| + 1
    ensures r[0] == if s == [] || Val(s[0], m) <= Val(x, m) then x else s[0]
  {
    if s == [] then [x]
    else if Val(s[0], m) > Val(x, m) then
      DescendingTail(s, m);
      var rest := Insert(x, s[1..], m);
      KeepHead(x, s, rest, m);
      [s[0]] + rest
    else
      DescendingCons(x, s, m);
      [x] + s
  }

  /** The insertion step that keeps the head: the head of a descending
      sequence can go in front of `x` inserted into its tail. */
  lemma KeepHead(x: ScoredRow, s: seq<ScoredRow>, rest: seq<ScoredRow>, m: Metric)
    requires Has(x, m) && Descending(s, m) && s != [] && Val(s[0], m) > Val(x, m)
    requires Descending(rest, m) && multiset(rest) == multiset(s[1..]) + multiset{x} && rest != []
    requires rest[0] == if s[1..] == [] || Val(s[1..][0], m) <= Val(x, m) then x else s[1..][0]
    ensures Descending([s[0]] + rest, m)
    ensures multiset([s[0]] + rest) == multiset(s) + multiset{x}
  {
    if |s| > 1 {
      assert Val(s[0], m) >= Val(s[1], m);
    }
    DescendingCons(s[0], rest, m);
    assert s == [s[0]] + s[1..];
  }

  /** The rest of a descending sequence is descending. */
  lemma DescendingTail(s: seq<ScoredRow>, m: Metric)
    requires s != [] && Descending(s, m)
    ensures Descending(s[1..], m)
  {
    forall i, j | 0 <= i < j < |s[1..]| ensures Val(s[1..][i], m) >= Val(s[1..][j], m) {
      assert s[1..][i] == s[i + 1] && s[1..][j] == s[j + 1];
    }
  }

  /** A row no smaller than the head of a descending sequence can go in front. */
  lemma DescendingCons(x: ScoredRow, s: seq<ScoredRow>, m: Metric)
    requires Has(x, m) && Descending(s, m)
    requires s != [] ==> Val(s[0], m) <= Val(x, m)
    ensures Descending([x] + s, m)
  {
    var t := [x] + s;
    forall i | 0 <= i < |t| ensures Has(t[i], m) {
      if i > 0 { assert t[i] == s[i - 1]; }
    }
    forall i, j | 0 <= i < j < |t| ensures Val(t[i], m) >= Val(t[j], m) {
      assert t[j] == s[j - 1];
      if i > 0 {
        assert t[i] == s[i - 1];
      } else {
        assert Val(s[0], m) >= Val(s[j - 1], m);
      }
    }
  }

  /** The number of rows of a descending sequence strictly larger than `x`:
      the place where `x` goes. */
  function Slot(x: ScoredRow, s: seq<ScoredRow>, m: Metric): (k: nat)
    requires Has(x, m) && Descending(s, m)
    ensures k <= |s|
    ensures forall i :: 0 <= i < k ==> Val(s[i], m) > Val(x, m)
    ensures forall i :: k <= i < |s| ==> Val(s[i], m) <= Val(x, m)
  {
    if s == [] || Val(s[0], m) <= Val(x, m) then 0
    else
      DescendingTail(s, m);
      var k := Slot(x, s[1..], m);
      assert forall i :: 1 <= i < |s| ==> s[i] == s[1..][i - 1];
      1 + k
  }

  /** Insertion puts `x` after every row strictly larger than it and in front
      of every row it ties with or exceeds, leaving the others in order. */
  lemma {:induction false} InsertPlacement(x: ScoredRow, s: seq<ScoredRow>, m: Metric)
    requires Has(x, m) && Descending(s, m)
    ensures Insert(x, s, m) == s[..Slot(x, s, m)] + [x] + s[Slot(x, s, m)..]
  {
    if s == [] || Val(s[0], m) <= Val(x, m) {
      assert s[..0] + [x] + s[0..] == [x] + s;
    } else {
      DescendingTail(s, m);
      InsertPlacement(x, s[1..], m);
      InsertBehindHead(x, s, Insert(x, s[1..], m), Slot(x, s[1..], m), m);
    }
  }

  /** The step of `InsertPlacement` past a head larger than `x`. */
  lemma InsertBehindHead(x: ScoredRow, s: seq<ScoredRow>, rest: seq<ScoredRow>, k: nat, m: Metric)
    requires s != [] && k < |s| && rest == s[1..][..k] + [x] + s[1..][k..]
    ensures [s[0]] + rest == s[..k + 1] + [x] + s[k + 1..]
  {
    assert s[..k + 1] == [s[0]] + s[1..][..k];
    assert s[k + 1..] == s[1..][k..];
  }

  /** Stable sort of rows with a value, largest first. */
  function SortDescending(s: seq<ScoredRow>, m: Metric): (r: seq<ScoredRow>)
    requires forall i :: 0 <= i < |s| ==> Has(s[i], m)
    ensures Descending(r, m)
    ensures multiset(r) == multiset(s)
    ensures |r| == |s|
  {
    if s == [] then []
    else
      assert s == [s[0]] + s[1..];
      Insert(s[0], SortDescending(s[1..], m), m)
  }

  /** The rows that have a value for the ratio, in sheet order. */
  function Ranked(rows: seq<ScoredRow>, m: Metric): (r: seq<ScoredRow>)
    ensures forall i :: 0 <= i < |r| ==> Has(r[i], m)
  {
    Filter(rows, (x: ScoredRow) => Has(x, m))
  }

  /** The rows that lack a value for the ratio, in sheet order. */
  function Unranked(rows: seq<ScoredRow>, m: Metric): (r: seq<ScoredRow>)
    ensures forall i :: 0 <= i < |r| ==> !Has(r[i], m)
  {
    Filter(rows, (x: ScoredRow) => !Has(x, m))
  }

  /** Every row either has a value or lacks one, so the two views split the
      frame. */
  lemma RankedSplit(rows: seq<ScoredRow>, m: Metric)
    ensures multiset(Ranked(rows, m)) + multiset(Unranked(rows, m)) == multiset(rows)
    ensures |Ranked(rows, m)| + |Unranked(rows, m)| == |rows|
  {
    FilterSplit(rows, (x: ScoredRow) => Has(x, m), (x: ScoredRow) => !Has(x, m));
  }

  /** `df.nlargest(n, column)`: the rows with a value sorted largest first,
      then the rows whose value is missing in sheet order, cut to `n` rows.
      The result has `n` rows, or every row of a smaller frame; its first
      rows are the largest values in descending order, and once the rows with
      a value are used up the missing ones follow in sheet order. */
  function TopN(rows: seq<ScoredRow>, m: Metric, n: nat): (r: seq<ScoredRow>)
    ensures |r| == if n < |rows| then n else |rows|
    ensures var k := if n < |Ranked(rows, m)| then n else |Ranked(rows, m)|;
      && k <= |r|
      && Descending(r[..k], m)
      && r[k..] <= Unranked(rows, m)
  {
    var sorted := SortDescending(Ranked(rows, m), m);
    RankedSplit(rows, m);
    var all := sorted + Unranked(rows, m);
    var cut := if n < |all| then n else |all|;
    PrefixOfAppend(sorted, Unranked(rows, m), cut);
    DescendingPrefix(sorted, if n < |sorted| then n else |sorted|, m);
    all[..cut]
  }

  /** The first `n` elements of `a + b` are the first elements of `a`, then
      the first elements of `b`. */
  lemma PrefixOfAppend<T>(a: seq<T>, b: seq<T>, n: nat)
    requires n <= |a| + |b|
    ensures var k := if n < |a| then n else |a|;
      && (a + b)[..n][..k] == a[..k]
      && (a + b)[..n][k..] <= b
  {
  }

  /** A prefix of a descending sequence is descending. */
  lemma DescendingPrefix(s: seq<ScoredRow>, k: nat, m: Metric)
    requires k <= |s| && Descending(s, m)
    ensures Descending(s[..k], m)
  {
  }

  /** `display_top_10` keeps ten rows. */
  const TopCount: nat := 10

  /** `display_top_10(combined_df, column, label)`: ten rows, or the whole
      frame when it has fewer. */
  function TopTen(rows: seq<ScoredRow>, m: Metric): (r: seq<ScoredRow>)
    ensures |r| == if |rows| < TopCount then |rows| else TopCount
    ensures multiset(r) <= multiset(rows)
  {
    TopNFromFrame(rows, m, TopCount);
    TopN(rows, m, TopCount)
  }

  /** The sorted ranked rows hold each row with a value exactly as often as the
      frame does, and no row more often. */
  lemma SortedRankedMultiset(rows: seq<ScoredRow>, m: Metric, x: ScoredRow)
    ensures multiset(SortDescending(Ranked(rows, m), m))[x] <= multiset(rows)[x]
    ensures Has(x, m) ==> multiset(SortDescending(Ranked(rows, m), m))[x] == multiset(rows)[x]
  {
    FilterMultiset(rows, (y: ScoredRow) => Has(y, m), x);
  }

  /** `nlargest` only returns rows of the frame, never more often than they
      occur. */
  lemma TopNFromFrame(rows: seq<ScoredRow>, m: Metric, n: nat)
    ensures multiset(TopN(rows, m, n)) <= multiset(rows)
  {
    var sorted := SortDescending(Ranked(rows, m), m);
    var all := sorted + Unranked(rows, m);
    RankedSplit(rows, m);
    assert multiset(all) == multiset(rows);
    PrefixMultiset(all, if n < |all| then n else |all|);
  }

  /** A prefix holds no element more often than the whole sequence. */
  lemma PrefixMultiset<T>(s: seq<T>, k: nat)
    requires k <= |s|
    ensures multiset(s[..k]) <= multiset(s)
  {
    assert s == s[..k] + s[k..];
  }

  /** When no more than `n` rows have a value, every row with a value comes
      back as often as it occurs. */
  lemma TopNAllWhenFew(rows: seq<ScoredRow>, m: Metric, n: nat, x: ScoredRow)
    requires |Ranked(rows, m)| <= n && Has(x, m)
    ensures multiset(TopN(rows, m, n))[x] == multiset(rows)[x]
  {
    var sorted := SortDescending(Ranked(rows, m), m);
    var missing := Unranked(rows, m);
    var r := TopN(rows, m, n);
    RankedSplit(rows, m);
    var j := |r| - |sorted|;
    assert r == sorted + missing[..j] by {
      TakePastFirst(sorted, missing, j);
    }
    assert multiset(missing[..j])[x] == 0 by {
      PrefixMultiset(missing, j);
      FilterMultiset(rows, (y: ScoredRow) => !Has(y, m), x);
    }
    assert multiset(r) == multiset(sorted) + multiset(missing[..j]);
    SortedRankedMultiset(rows, m, x);
  }

  /** Taking past the end of `a` from `a + b` takes all of `a`. */
  lemma TakePastFirst<T>(a: seq<T>, b: seq<T>, j: nat)
    requires j <= |b|
    ensures (a + b)[..|a| + j] == a + b[..j]
  {
  }

  /** No row left out of `nlargest` that has a value is larger than a returned
      row (a row is left out when it is returned fewer times than it occurs);
      every returned row then has a value. */
  lemma TopNLeftOutNotLarger(rows: seq<ScoredRow>, m: Metric, n: nat, x: ScoredRow, i: nat)
    requires i < |TopN(rows, m, n)| && Has(x, m)
    requires multiset(TopN(rows, m, n))[x] < multiset(rows)[x]
    ensures Has(TopN(rows, m, n)[i], m)
    ensures Val(x, m) <= Val(TopN(rows, m, n)[i], m)
  {
    if |Ranked(rows, m)| <= n {
      TopNAllWhenFew(rows, m, n, x);
      assert false;
    }
    TopNWhenMany(rows, m, n);
    SortedRankedMultiset(rows, m, x);
    LeftOutOfPrefix(SortDescending(Ranked(rows, m), m), m, n, x, i);
  }

  /** When more than `n` rows have a value, `nlargest` returns the first `n`
      of them in sorted order. */
  lemma TopNWhenMany(rows: seq<ScoredRow>, m: Metric, n: nat)
    requires n < |Ranked(rows, m)|
    ensures TopN(rows, m, n) == SortDescending(Ranked(rows, m), m)[..n]
  {
    RankedSplit(rows, m);
    TakeWithinFirst(SortDescending(Ranked(rows, m), m), Unranked(rows, m), n);
  }

  /** A row that a prefix of a descending sequence holds fewer times than the
      whole is no larger than any row of the prefix. */
  lemma LeftOutOfPrefix(s: seq<ScoredRow>, m: Metric, n: nat, x: ScoredRow, i: nat)
    requires Descending(s, m) && i < n <= |s| && Has(x, m)
    requires multiset(s[..n])[x] < multiset(s)[x]
    ensures Has(s[..n][i], m) && Val(x, m) <= Val(s[..n][i], m)
  {
    var j := LeftOutIsInSuffix(s, n, x);
  }

  /** Taking no more than `a` holds from `a + b` takes from `a` alone. */
  lemma TakeWithinFirst<T>(a: seq<T>, b: seq<T>, n: nat)
    requires n <= |a|
    ensures (a + b)[..n] == a[..n]
  {
  }

  /** An element that a prefix holds fewer times than the whole sequence occurs
      after the prefix. */
  lemma LeftOutIsInSuffix<T>(s: seq<T>, k: nat, x: T) returns (j: nat)
    requires k <= |s| && multiset(s[..k])[x] < multiset(s)[x]
    ensures k <= j < |s| && s[j] == x
  {
    assert s == s[..k] + s[k..];
    assert multiset(s) == multiset(s[..k]) + multiset(s[k..]);
    assert x in s[k..];
    var d :| 0 <= d < |s[k..]| && s[k..][d] == x;
    j := k + d;
  }

  /** Re-ranking a ranking changes nothing: the top rows of an already ranked
      frame are that frame's first rows. */
  lemma {:induction false} TopNOfSorted(s: seq<ScoredRow>, m: Metric, n: nat)
    requires Descending(s, m)
    ensures TopN(s, m, n) == s[..if n < |s| then n else |s|]
  {
    FilterKeepsAll(s, (x: ScoredRow) => Has(x, m));
    FilterKeepsNone(s, (x: ScoredRow) => !Has(x, m));
    SortedIsFixed(s, m);
    assert SortDescending(Ranked(s, m), m) + Unranked(s, m) == s;
  }

  /** Sorting a sorted sequence returns it unchanged. */
  lemma {:induction false} SortedIsFixed(s: seq<ScoredRow>, m: Metric)
    requires Descending(s, m)
    ensures SortDescending(s, m) == s
  {
    if s != [] {
      var t := s[1..];
      DescendingTail(s, m);
      calc {
        SortDescending(s, m);
        Insert(s[0], SortDescending(t, m), m);
        { SortedIsFixed(t, m); }
        Insert(s[0], t, m);
        { HeadLeads(s, m); InsertFirst(s[0], t, m); }
        [s[0]] + t;
      }
    }
  }

  /** The head of a descending sequence is no smaller than the head of its
      rest. */
  lemma HeadLeads(s: seq<ScoredRow>, m: Metric)
    requires s != [] && Descending(s, m)
    ensures s[1..] != [] ==> Val(s[1..][0], m) <= Val(s[0], m)
  {
    if |s| > 1 {
      assert s[1..][0] == s[1];
    }
  }

  /** A row no smaller than the head of a sorted sequence goes in front. */
  lemma InsertFirst(x: ScoredRow, s: seq<ScoredRow>, m: Metric)
    requires Has(x, m) && Descending(s, m)
    requires s != [] ==> Val(s[0], m) <= Val(x, m)
    ensures Insert(x, s, m) == [x] + s
  {
  }

  // ----- industry means -----

  /** The members of industry `g`; rows whose industry is missing belong to no
      group, as `groupby` drops missing keys. */
  function Members(rows: seq<ScoredRow>, g: string): (r: seq<ScoredRow>)
    ensures forall i :: 0 <= i < |r| ==> r[i].record.industry == Some(g)
  {
    Filter(rows, (x: ScoredRow) => x.record.industry == Some(g))
  }

  /** The industries that occur in the frame. */
  function Industries(rows: seq<ScoredRow>): set<string>
  {
    set i | 0 <= i < |rows| && rows[i].record.industry.Some? :: rows[i].record.industry.value
  }

  /** One score column of some rows, as float cells. */
  function ScoreColumn(rows: seq<ScoredRow>, m: Metric): (c: seq<Option<real>>)
    ensures |c| == |rows|
    ensures forall i :: 0 <= i < |rows| ==> c[i] == AsCell(rows[i].scores.Component(m))
  {
    seq(|rows|, i requires 0 <= i < |rows| => AsCell(rows[i].scores.Component(m)))
  }

  /** The mean of each score column over one group. */
  datatype ScoreMeans = ScoreMeans(
    selfCapitalRatio: Option<real>, roe: Option<real>, roa: Option<real>,
    per: Option<real>, pbr: Option<real>, dividendYield: Option<real>)
  {
    function Component(m: Metric): Option<real>
    {
      match m
      case SelfCapitalRatio => selfCapitalRatio
      case Roe => roe
      case Roa => roa
      case Per => per
      case Pbr => pbr
      case DividendYield => dividendYield
    }
  }

  /** No member has this score. */
  predicate Unscored(members: seq<ScoredRow>, m: Metric)
  {
    forall i :: 0 <= i < |members| ==> members[i].scores.Component(m).None?
  }

  /** Column means of a group, each skipping missing scores: a mean is missing
      exactly when no member has that score. */
  function GroupMeans(members: seq<ScoredRow>): (g: ScoreMeans)
    ensures g.selfCapitalRatio.None? <==> Unscored(members, SelfCapitalRatio)
    ensures g.roe.None? <==> Unscored(members, Roe)
    ensures g.roa.None? <==> Unscored(members, Roa)
    ensures g.per.None? <==> Unscored(members, Per)
    ensures g.pbr.None? <==> Unscored(members, Pbr)
    ensures g.dividendYield.None? <==> Unscored(members, DividendYield)
  {
    ColumnMissing(members, SelfCapitalRatio);
    ColumnMissing(members, Roe);
    ColumnMissing(members, Roa);
    ColumnMissing(members, Per);
    ColumnMissing(members, Pbr);
    ColumnMissing(members, DividendYield);
    ScoreMeans(
      Series.MeanPresent(ScoreColumn(members, SelfCapitalRatio)),
      Series.MeanPresent(ScoreColumn(members, Roe)),
      Series.MeanPresent(ScoreColumn(members, Roa)),
      Series.MeanPresent(ScoreColumn(members, Per)),
      Series.MeanPresent(ScoreColumn(members, Pbr)),
      Series.MeanPresent(ScoreColumn(members, DividendYield)))
  }

  /** The mean of a score column is missing exactly when no member has that
      score. */
  lemma ColumnMissing(members: seq<ScoredRow>, m: Metric)
    ensures Series.MeanPresent(ScoreColumn(members, m)).None? <==> Unscored(members, m)
  {
    var col := ScoreColumn(members, m);
    assert forall i :: 0 <= i < |members| ==> (col[i].None? <==> members[i].scores.Component(m).None?);
  }

  /** Each component of the group means is the mean of that score column. */
  lemma GroupMeansComponent(members: seq<ScoredRow>, m: Metric)
    ensures GroupMeans(members).Component(m) == Series.MeanPresent(ScoreColumn(members, m))
  {
    match m
    case SelfCapitalRatio =>
    case Roe =>
    case Roa =>
    case Per =>
    case Pbr =>
    case DividendYield =>
  }

  /** `combined_df.groupby('業種')[score_columns].mean()`, one entry per
      industry that occurs. */
  function IndustryMeans(rows: seq<ScoredRow>): (t: map<string, ScoreMeans>)
    ensures t.Keys == Industries(rows)
    ensures forall g :: g in t ==> t[g] == GroupMeans(Members(rows, g))
  {
    map g | g in Industries(rows) :: GroupMeans(Members(rows, g))
  }

  /** Every industry in the table has at least one member. */
  lemma IndustryHasMembers(rows: seq<ScoredRow>, g: string)
    requires g in IndustryMeans(rows)
    ensures |Members(rows, g)| > 0
  {
    assert g in Industries(rows);
    IndustryOccurs(rows, g);
  }

  /** An industry that occurs in the frame has a member. */
  lemma IndustryOccurs(rows: seq<ScoredRow>, g: string)
    requires g in Industries(rows)
    ensures |Members(rows, g)| > 0
  {
    var i :| 0 <= i < |rows| && rows[i].record.industry == Some(g);
    assert rows[i] in Members(rows, g);
  }

  /** The mean of one score column over some rows is missing exactly when no
      row has that score, and otherwise lies between any bounds on the present
      scores. */
  lemma ColumnMeanWithin(members: seq<ScoredRow>, m: Metric, lo: real, hi: real)
    requires forall i :: 0 <= i < |members| && members[i].scores.Component(m).Some? ==>
      lo <= members[i].scores.Component(m).value as real <= hi
    ensures var mean := Series.MeanPresent(ScoreColumn(members, m));
      && (mean.None? <==> Unscored(members, m))
      && (mean.Some? ==> lo <= mean.value <= hi)
  {
    var col := ScoreColumn(members, m);
    ColumnMissing(members, m);
    assert Series.PresentWithin(col, lo, hi);
    Series.MeanWithin(col, lo, hi);
  }

  /** A group's mean score of a ratio is missing exactly when no member has that
      score; otherwise it lies between any bounds on the members' present scores
      (so between their minimum and maximum), and in 1..5. */
  lemma IndustryMeanWithin(rows: seq<ScoredRow>, g: string, m: Metric, lo: real, hi: real)
    requires g in IndustryMeans(rows)
    requires forall i :: 0 <= i < |rows| ==> WellScored(rows[i].scores)
    requires forall i :: 0 <= i < |Members(rows, g)| && Members(rows, g)[i].scores.Component(m).Some? ==>
      lo <= Members(rows, g)[i].scores.Component(m).value as real <= hi
    ensures var mean := IndustryMeans(rows)[g].Component(m);
      && (mean.None? <==> Unscored(Members(rows, g), m))
      && (mean.Some? ==> lo <= mean.value <= hi && 1.0 <= mean.value <= 5.0)
  {
    IndustryMeanIs(rows, g, m);
    MemberScoresInRange(rows, g, m);
    ColumnMeanWithin(Members(rows, g), m, lo, hi);
    ColumnMeanWithin(Members(rows, g), m, 1.0, 5.0);
  }

  /** A group's entry for a ratio is the mean of that score column over the
      group's members. */
  lemma IndustryMeanIs(rows: seq<ScoredRow>, g: string, m: Metric)
    requires g in IndustryMeans(rows)
    ensures IndustryMeans(rows)[g].Component(m) == Series.MeanPresent(ScoreColumn(Members(rows, g), m))
  {
    GroupMeansComponent(Members(rows, g), m);
  }

  /** The members of an industry of a well-scored frame score 1..5. */
  lemma MemberScoresInRange(rows: seq<ScoredRow>, g: string, m: Metric)
    requires forall i :: 0 <= i < |rows| ==> WellScored(rows[i].scores)
    ensures forall i :: 0 <= i < |Members(rows, g)| && Members(rows, g)[i].scores.Component(m).Some? ==>
      1.0 <= Members(rows, g)[i].scores.Component(m).value as real <= 5.0
  {
    var members := Members(rows, g);
    forall i | 0 <= i < |members| && members[i].scores.Component(m).Some?
      ensures 1.0 <= members[i].scores.Component(m).value as real <= 5.0
    {
      assert members[i] in rows;
    }
  }

  /** A one-member industry reproduces that member's scores. */
  lemma IndustryMeanOfOne(rows: seq<ScoredRow>, g: string, x: ScoredRow)
    requires Members(rows, g) == [x]
    ensures g in IndustryMeans(rows)
    ensures forall m :: IndustryMeans(rows)[g].Component(m) == AsCell(x.scores.Component(m))
  {
    assert x in Members(rows, g);
    var i :| 0 <= i < |rows| && rows[i] == x;
    assert g in Industries(rows);
    forall m ensures IndustryMeans(rows)[g].Component(m) == AsCell(x.scores.Component(m)) {
      assert ScoreColumn([x], m) == [AsCell(x.scores.Component(m))];
      GroupMeansComponent([x], m);
      Series.MeanOfOne(AsCell(x.scores.Component(m)));
    }
  }
}
