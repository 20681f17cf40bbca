/** `Beta.py`: one stock symbol against one index over a window ending at a chosen date.
    Each frame gets a daily change rounded to two decimals; the two frames are outer-merged
    on the date and split into the rows both have and the rows only one has; the beta is
    computed without a zero-variance guard. */
module BetaPage {
  import opened Wrappers
  import opened Numbers
  import opened Sequences
  import opened Series
  import opened Align
  import opened Estimator
  import opened Stats

  /** The largest number of days the window may reach back: the window starts at
      `WindowStart(end, numDays, MaxDays)`. */
  const MaxDays := 720

  const StockError := "Failed to fetch stock data. Please check the stock symbol."
  const IndexError := "Failed to fetch index data. Please check the index symbol."

  /** The frame with `Daily Change (%)` set to `((Close.pct_change()) * 100).round(2)`. */
  function RoundedChanges(s: seq<Bar>): (r: seq<Row>)
    ensures |r| == |s|
    ensures forall i :: 0 <= i < |s| ==>
      r[i].date == s[i].date && r[i].close == s[i].close && r[i].rest == s[i].rest
    ensures |s| > 0 ==> r[0].change == None
    ensures forall i :: 0 < i < |s| ==>
      r[i].change == RoundOption(PercentChange(s[i - 1].close, s[i].close))
  {
    var w := WithDailyChange(s);
    seq(|w|, i requires 0 <= i < |w| => w[i].(change := RoundOption(w[i].change)))
  }

  /** Adding the rounded column keeps the frame's dates and their order. */
  lemma RoundedChangesAscending(s: seq<Bar>)
    requires AscendingBars(s)
    ensures Ascending(RoundedChanges(s))
  {
  }

  /** What the page shows once both frames are there. */
  datatype Report = Report(intersecting: seq<Aligned>, nonIntersecting: seq<Unaligned>, beta: Float)

  /** The error messages shown, and the report when there is one. */
  datatype Page = Page(errors: seq<string>, report: Option<Report>)

  /** The outer merge split by `_merge`, and the unguarded beta of the `'both'` rows. */
  function Analyse(stock: seq<Row>, index: seq<Row>): (r: Report)
    ensures |r.intersecting| + |r.nonIntersecting| == |OuterMerge(stock, index)|
  {
    var m := OuterMerge(stock, index);
    MergeSplit(m);
    var j := Intersecting(m);
    Report(j, OneSided(m), UnguardedBeta(j))
  }

  /** The "Fetch Data" handler on the two downloaded frames: an empty frame yields its
      error message (both messages when both are empty), and only when both frames are
      non-empty are they aligned and the beta computed. */
  function Run(stock: seq<Bar>, index: seq<Bar>): (p: Page)
    ensures StockError in p.errors <==> |stock| == 0
    ensures IndexError in p.errors <==> |index| == 0
    ensures |p.errors| == (if |stock| == 0 then 1 else 0) + (if |index| == 0 then 1 else 0)
    ensures |p.errors| == 2 ==> p.errors == [StockError, IndexError]
    ensures p.report.Some? <==> |stock| > 0 && |index| > 0
    ensures p.report.Some? ==> p.report.value == Analyse(RoundedChanges(stock), RoundedChanges(index))
  {
    var errors := (if |stock| == 0 then [StockError] else []) + (if |index| == 0 then [IndexError] else []);
    if |stock| > 0 && |index| > 0 then
      Page(errors, Some(Analyse(RoundedChanges(stock), RoundedChanges(index))))
    else Page(errors, None)
  }

  /** On frames with unique ascending dates: the intersecting rows are the inner merge of
      the two frames (the dates both have, ascending, each with both prices and both
      changes of that date); the non-intersecting rows are the dates exactly one frame
      has, ascending, with that frame's price and NaN for the other; the two parts share
      no date and together cover every date of either frame. */
  lemma ReportSpec(stock: seq<Row>, index: seq<Row>)
    requires Ascending(stock) && Ascending(index)
    ensures Analyse(stock, index).intersecting == InnerJoin(stock, index)
    ensures Increasing(Analyse(stock, index).intersecting, AlignedDate)
    ensures Keys(Analyse(stock, index).intersecting, AlignedDate) == Dates(stock) * Dates(index)
    ensures Increasing(Analyse(stock, index).nonIntersecting, UnalignedDate)
    ensures Keys(Analyse(stock, index).nonIntersecting, UnalignedDate) ==
      (Dates(stock) + Dates(index)) - Dates(stock) * Dates(index)
    ensures forall i :: 0 <= i < |Analyse(stock, index).nonIntersecting| ==>
      var u := Analyse(stock, index).nonIntersecting[i];
      u.stockPrice == CloseOf(At(stock, u.date)) && u.indexPrice == CloseOf(At(index, u.date)) &&
      (u.stockPrice.Some? <==> u.indexPrice.None?)
  {
    var m := OuterMerge(stock, index);
    IntersectingIsInnerJoin(stock, index);
    InnerJoinAscending(stock, index);
    InnerJoinDates(stock, index);
    OuterMergeAscending(stock, index);
    OuterMergeDates(stock, index);
    OuterMergeRows(stock, index);
    OneSidedAscending(m);
    OneSidedDates(m, stock, index);
    OneSidedRows(m, stock, index);
    var n := OneSided(m);
    forall i | 0 <= i < |n|
      ensures n[i].stockPrice.Some? <==> n[i].indexPrice.None?
    {
      assert n[i].date in Keys(n, UnalignedDate);
    }
  }

  /** Without a guard, an index whose rounded changes are all equal gives no number for
      beta: an infinity, or NaN. */
  lemma FlatIndexGivesNoNumber(stock: seq<Bar>, index: seq<Bar>)
    requires |stock| > 0 && |index| > 0
    requires var j := Run(stock, index).report.value.intersecting;
      |Present(IndexChanges(j))| >= 2 && Constant(Present(IndexChanges(j)))
    ensures !Run(stock, index).report.value.beta.Finite?
  {
    var j := Run(stock, index).report.value.intersecting;
    VarianceZeroIffConstant(IndexChanges(j));
  }
}
