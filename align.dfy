/** Aligning a stock frame against an index frame by date: pandas' inner merge on `Date`,
    its outer merge (which sorts the dates), and the split of the outer merge into the rows
    both frames have and the rows only one frame has. */
module Align {
  import opened Wrappers
  import opened Sequences
  import opened Series

  /** One intersection row: a date both frames have, with both closes and both changes. */
  datatype Aligned = Aligned(
    date: Day,
    stockClose: real, stockChange: Option<real>,
    indexClose: real, indexChange: Option<real>)

  /** One outer-merge row: a date, and each frame's row of that date when it has one.
      `_merge` is `'both'` exactly when both sides are present. */
  datatype Joined = Joined(date: Day, stock: Option<Row>, index: Option<Row>)

  /** One non-intersection row as displayed: a date with the stock price and the index
      price, each NaN (`None`) when that frame lacks the date. */
  datatype Unaligned = Unaligned(date: Day, stockPrice: Option<real>, indexPrice: Option<real>)

  function AlignedDate(x: Aligned): Day {
    x.date
  }

  function JoinedDate(x: Joined): Day {
    x.date
  }

  function UnalignedDate(x: Unaligned): Day {
    x.date
  }

  // ----- Looking a date up in a frame -----

  /** The row of frame `s` indexed by `d`, if `s` has that date. */
  function At(s: seq<Row>, d: Day): (r: Option<Row>)
    ensures r.Some? <==> d in Dates(s)
    ensures r.Some? ==> r.value in s && r.value.date == d
  {
    if |s| == 0 then None
    else if s[0].date == d then Some(s[0])
    else At(s[1..], d)
  }

  /** The close of a looked-up row; NaN (`None`) when the row is missing. */
  function CloseOf(r: Option<Row>): (c: Option<real>)
    ensures c.Some? <==> r.Some?
    ensures r.Some? ==> c.value == r.value.close
  {
    match r
    case Some(x) => Some(x.close)
    case None => None
  }

  /** In a frame with unique dates, looking up a row's own date finds that row. */
  lemma {:induction false} AtOwnDate(s: seq<Row>, i: int)
    requires Ascending(s) && 0 <= i < |s|
    ensures At(s, s[i].date) == Some(s[i])
  {
    if i > 0 {
      IncreasingRest(s, RowDate);
      assert s[1..][i - 1] == s[i];
      AtOwnDate(s[1..], i - 1);
    }
  }

  // ----- Inner merge -----

  /** The intersection row made of a stock row and an index row of the same date. */
  function Pair(x: Row, y: Row): Aligned {
    Aligned(x.date, x.close, x.change, y.close, y.change)
  }

  /** `pd.merge(stock, index, on='Date')`: the stock rows whose date the index also has,
      in the stock frame's order, each paired with the index row of that date. */
  function InnerJoin(a: seq<Row>, b: seq<Row>): (j: seq<Aligned>)
    ensures |j| <= |a|
  {
    if |a| == 0 then []
    else
      var rest := InnerJoin(a[1..], b);
      match At(b, a[0].date)
      case Some(y) => [Pair(a[0], y)] + rest
      case None => rest
  }

  /** The intersection holds exactly the dates both frames have. */
  lemma {:induction false} InnerJoinDates(a: seq<Row>, b: seq<Row>)
    ensures Keys(InnerJoin(a, b), AlignedDate) == Dates(a) * Dates(b)
  {
    if |a| > 0 {
      InnerJoinDates(a[1..], b);
      match At(b, a[0].date)
      case Some(y) => KeysCons(Pair(a[0], y), InnerJoin(a[1..], b), AlignedDate);
      case None =>
    }
  }

  /** The intersection follows the stock frame's order, so its dates ascend and none
      repeats. */
  lemma {:induction false} InnerJoinAscending(a: seq<Row>, b: seq<Row>)
    requires Ascending(a)
    ensures Increasing(InnerJoin(a, b), AlignedDate)
  {
    if |a| > 0 {
      IncreasingRest(a, RowDate);
      InnerJoinAscending(a[1..], b);
      InnerJoinDates(a[1..], b);
    }
  }

  /** Looking past the first row: a date other than the first row's is found in the rest. */
  lemma AtTail(s: seq<Row>, d: Day)
    requires |s| > 0 && d != s[0].date
    ensures At(s, d) == At(s[1..], d)
  {
  }

  /** A date before the first date of an ascending frame is not in the frame. */
  lemma AtBelow(s: seq<Row>, d: Day)
    requires Ascending(s) && (|s| > 0 ==> d < s[0].date)
    ensures At(s, d) == None
  {
    if |s| > 0 {
      IncreasingRest(s, RowDate);
    }
  }

  /** Each intersection row carries the stock values and the index values recorded for
      its own date. */
  lemma {:induction false} InnerJoinRows(a: seq<Row>, b: seq<Row>)
    requires Ascending(a)
    ensures forall i :: 0 <= i < |InnerJoin(a, b)| ==>
      var x := InnerJoin(a, b)[i];
      At(a, x.date).Some? && At(b, x.date).Some? && x == Pair(At(a, x.date).value, At(b, x.date).value)
  {
    if |a| > 0 {
      IncreasingRest(a, RowDate);
      InnerJoinRows(a[1..], b);
      InnerJoinDates(a[1..], b);
      var rest := InnerJoin(a[1..], b);
      forall i | 0 <= i < |rest|
        ensures At(a, rest[i].date) == At(a[1..], rest[i].date)
      {
        assert rest[i].date in Keys(rest, AlignedDate);
        AtTail(a, rest[i].date);
      }
      assert At(a, a[0].date) == Some(a[0]);
      match At(b, a[0].date)
      case Some(y) =>
        assert InnerJoin(a, b) == [Pair(a[0], y)] + rest;
        PairsMatch(Pair(a[0], y), rest, a, b);
      case None =>
        assert InnerJoin(a, b) == rest;
    }
  }

  /** An intersection row put in front of intersection rows keeps each row matched to
      its date. */
  lemma PairsMatch(x: Aligned, rest: seq<Aligned>, a: seq<Row>, b: seq<Row>)
    requires At(a, x.date).Some? && At(b, x.date).Some? && x == Pair(At(a, x.date).value, At(b, x.date).value)
    requires forall i :: 0 <= i < |rest| ==>
      At(a, rest[i].date).Some? && At(b, rest[i].date).Some? &&
      rest[i] == Pair(At(a, rest[i].date).value, At(b, rest[i].date).value)
    ensures forall i :: 0 <= i < |[x] + rest| ==>
      var y := ([x] + rest)[i];
      At(a, y.date).Some? && At(b, y.date).Some? && y == Pair(At(a, y.date).value, At(b, y.date).value)
  {
    var s := [x] + rest;
    forall i | 0 <= i < |s|
      ensures At(a, s[i].date).Some? && At(b, s[i].date).Some? &&
        s[i] == Pair(At(a, s[i].date).value, At(b, s[i].date).value)
    {
      if i > 0 {
        assert s[i] == rest[i - 1];
      }
    }
  }

  /** When the two frames have the same dates, the intersection pairs them row by row
      (here from row `k` of the stock frame on). */
  lemma {:induction false} InnerJoinSameDates(a: seq<Row>, b: seq<Row>, k: nat)
    requires Ascending(b) && |a| == |b| && k <= |a|
    requires forall i :: 0 <= i < |a| ==> a[i].date == b[i].date
    ensures |InnerJoin(a[k..], b)| == |a| - k
    ensures forall i :: 0 <= i < |a| - k ==> InnerJoin(a[k..], b)[i] == Pair(a[k + i], b[k + i])
    decreases |a| - k
  {
    if k < |a| {
      InnerJoinSameDates(a, b, k + 1);
      SameDatesStep(a, b, k);
      PairsCons(a, b, k, InnerJoin(a[k + 1..], b));
    }
  }

  lemma SameDatesStep(a: seq<Row>, b: seq<Row>, k: nat)
    requires Ascending(b) && |a| == |b| && k < |a|
    requires forall i :: 0 <= i < |a| ==> a[i].date == b[i].date
    ensures InnerJoin(a[k..], b) == [Pair(a[k], b[k])] + InnerJoin(a[k + 1..], b)
  {
    AtOwnDate(b, k);
    assert a[k..][1..] == a[k + 1..];
    assert a[k..][0] == a[k];
  }

  lemma PairsCons(a: seq<Row>, b: seq<Row>, k: nat, rest: seq<Aligned>)
    requires |a| == |b| && k < |a| && |rest| == |a| - k - 1
    requires forall i :: 0 <= i < |rest| ==> rest[i] == Pair(a[k + 1 + i], b[k + 1 + i])
    ensures forall i :: 0 <= i < |a| - k ==> ([Pair(a[k], b[k])] + rest)[i] == Pair(a[k + i], b[k + i])
  {
    var s := [Pair(a[k], b[k])] + rest;
    forall i | 0 <= i < |a| - k
      ensures s[i] == Pair(a[k + i], b[k + i])
    {
      if i > 0 {
        assert s[i] == rest[i - 1];
        assert k + 1 + (i - 1) == k + i;
      }
    }
  }

  // ----- Outer merge -----

  /** `pd.merge(stock, index, on='Date', how='outer', indicator=True)` on frames with
      unique ascending dates: every date of either frame once, in ascending order (the
      outer merge sorts its keys), with the row of each frame that has it. */
  function OuterMerge(a: seq<Row>, b: seq<Row>): (m: seq<Joined>)
    ensures |m| <= |a| + |b|
    ensures |a| <= |m| && |b| <= |m|
    decreases |a| + |b|
  {
    if |a| == 0 && |b| == 0 then []
    else if |b| == 0 || (|a| > 0 && a[0].date < b[0].date) then
      [Joined(a[0].date, Some(a[0]), None)] + OuterMerge(a[1..], b)
    else if |a| == 0 || b[0].date < a[0].date then
      [Joined(b[0].date, None, Some(b[0]))] + OuterMerge(a, b[1..])
    else
      [Joined(a[0].date, Some(a[0]), Some(b[0]))] + OuterMerge(a[1..], b[1..])
  }

  /** The outer merge has exactly the dates of either frame. */
  lemma {:induction false} OuterMergeDates(a: seq<Row>, b: seq<Row>)
    ensures Keys(OuterMerge(a, b), JoinedDate) == Dates(a) + Dates(b)
    decreases |a| + |b|
  {
    if |a| == 0 && |b| == 0 {
    } else if |b| == 0 || (|a| > 0 && a[0].date < b[0].date) {
      OuterMergeDates(a[1..], b);
      KeysCons(Joined(a[0].date, Some(a[0]), None), OuterMerge(a[1..], b), JoinedDate);
    } else if |a| == 0 || b[0].date < a[0].date {
      OuterMergeDates(a, b[1..]);
      KeysCons(Joined(b[0].date, None, Some(b[0])), OuterMerge(a, b[1..]), JoinedDate);
    } else {
      OuterMergeDates(a[1..], b[1..]);
      KeysCons(Joined(a[0].date, Some(a[0]), Some(b[0])), OuterMerge(a[1..], b[1..]), JoinedDate);
    }
  }

  /** A row put in front of rows whose dates all lie above its own keeps them increasing. */
  lemma ConsIncreasing(x: Joined, rest: seq<Joined>)
    requires Increasing(rest, JoinedDate)
    requires forall d :: d in Keys(rest, JoinedDate) ==> d > x.date
    ensures Increasing([x] + rest, JoinedDate)
  {
    var s := [x] + rest;
    forall i, k | 0 <= i < k < |s|
      ensures JoinedDate(s[i]) < JoinedDate(s[k])
    {
      assert s[k] == rest[k - 1];
      assert JoinedDate(rest[k - 1]) in Keys(rest, JoinedDate);
      if i > 0 {
        assert s[i] == rest[i - 1];
      }
    }
  }

  /** The outer merge lists its dates in ascending order, each once. */
  lemma {:induction false} OuterMergeAscending(a: seq<Row>, b: seq<Row>)
    requires Ascending(a) && Ascending(b)
    ensures Increasing(OuterMerge(a, b), JoinedDate)
    decreases |a| + |b|
  {
    if |a| > 0 {
      IncreasingRest(a, RowDate);
    }
    if |b| > 0 {
      IncreasingRest(b, RowDate);
    }
    if |a| == 0 && |b| == 0 {
    } else if |b| == 0 || (|a| > 0 && a[0].date < b[0].date) {
      OuterMergeAscending(a[1..], b);
      OuterMergeDates(a[1..], b);
      ConsIncreasing(Joined(a[0].date, Some(a[0]), None), OuterMerge(a[1..], b));
    } else if |a| == 0 || b[0].date < a[0].date {
      OuterMergeAscending(a, b[1..]);
      OuterMergeDates(a, b[1..]);
      ConsIncreasing(Joined(b[0].date, None, Some(b[0])), OuterMerge(a, b[1..]));
    } else {
      OuterMergeAscending(a[1..], b[1..]);
      OuterMergeDates(a[1..], b[1..]);
      ConsIncreasing(Joined(a[0].date, Some(a[0]), Some(b[0])), OuterMerge(a[1..], b[1..]));
    }
  }

  /** Each outer-merge row holds, for its date, exactly the rows the two frames have
      there: `_merge` is `'both'`, `'left_only'` or `'right_only'` accordingly. */
  lemma {:induction false} OuterMergeRows(a: seq<Row>, b: seq<Row>)
    requires Ascending(a) && Ascending(b)
    ensures forall i :: 0 <= i < |OuterMerge(a, b)| ==>
      var x := OuterMerge(a, b)[i];
      x.stock == At(a, x.date) && x.index == At(b, x.date)
    decreases |a| + |b|
  {
    if |a| > 0 {
      IncreasingRest(a, RowDate);
    }
    if |b| > 0 {
      IncreasingRest(b, RowDate);
    }
    if |a| == 0 && |b| == 0 {
    } else if |b| == 0 || (|a| > 0 && a[0].date < b[0].date) {
      OuterMergeRows(a[1..], b);
      OuterMergeDates(a[1..], b);
      var rest := OuterMerge(a[1..], b);
      forall i | 0 <= i < |rest|
        ensures At(a, rest[i].date) == At(a[1..], rest[i].date)
      {
        assert rest[i].date in Keys(rest, JoinedDate);
        AtTail(a, rest[i].date);
      }
      AtBelow(b, a[0].date);
      RowsCons(Joined(a[0].date, Some(a[0]), None), rest, a, b);
    } else if |a| == 0 || b[0].date < a[0].date {
      OuterMergeRows(a, b[1..]);
      OuterMergeDates(a, b[1..]);
      var rest := OuterMerge(a, b[1..]);
      forall i | 0 <= i < |rest|
        ensures At(b, rest[i].date) == At(b[1..], rest[i].date)
      {
        assert rest[i].date in Keys(rest, JoinedDate);
        AtTail(b, rest[i].date);
      }
      AtBelow(a, b[0].date);
      RowsCons(Joined(b[0].date, None, Some(b[0])), rest, a, b);
    } else {
      OuterMergeRows(a[1..], b[1..]);
      OuterMergeDates(a[1..], b[1..]);
      var rest := OuterMerge(a[1..], b[1..]);
      forall i | 0 <= i < |rest|
        ensures At(a, rest[i].date) == At(a[1..], rest[i].date)
        ensures At(b, rest[i].date) == At(b[1..], rest[i].date)
      {
        assert rest[i].date in Keys(rest, JoinedDate);
        AtTail(a, rest[i].date);
        AtTail(b, rest[i].date);
      }
      RowsCons(Joined(a[0].date, Some(a[0]), Some(b[0])), rest, a, b);
    }
  }

  /** A merge row put in front of merge rows keeps each row matched to its date. */
  lemma RowsCons(x: Joined, rest: seq<Joined>, a: seq<Row>, b: seq<Row>)
    requires x.stock == At(a, x.date) && x.index == At(b, x.date)
    requires forall i :: 0 <= i < |rest| ==> rest[i].stock == At(a, rest[i].date) && rest[i].index == At(b, rest[i].date)
    ensures forall i :: 0 <= i < |[x] + rest| ==>
      ([x] + rest)[i].stock == At(a, ([x] + rest)[i].date) && ([x] + rest)[i].index == At(b, ([x] + rest)[i].date)
  {
    var s := [x] + rest;
    forall i | 0 <= i < |s|
      ensures s[i].stock == At(a, s[i].date) && s[i].index == At(b, s[i].date)
    {
      if i > 0 {
        assert s[i] == rest[i - 1];
      }
    }
  }

  /** The rows of an outer merge whose `_merge` is `'both'`, as intersection rows. */
  function Intersecting(m: seq<Joined>): (j: seq<Aligned>)
    ensures |j| <= |m|
  {
    if |m| == 0 then []
    else
      var rest := Intersecting(m[1..]);
      match (m[0].stock, m[0].index)
      case (Some(x), Some(y)) => [Pair(x, y)] + rest
      case _ => rest
  }

  /** Dropping an index row whose date no stock row has leaves the inner merge alone. */
  lemma {:induction false} InnerJoinSkip(a: seq<Row>, b: seq<Row>)
    requires |b| > 0
    requires b[0].date !in Dates(a)
    ensures InnerJoin(a, b) == InnerJoin(a, b[1..])
  {
    if |a| > 0 {
      InnerJoinSkip(a[1..], b);
    }
  }

  /** Taking the `'both'` rows of the outer merge gives the inner merge, row for row:
      the two ways the scripts build the intersection agree. */
  lemma {:induction false} IntersectingIsInnerJoin(a: seq<Row>, b: seq<Row>)
    requires Ascending(a) && Ascending(b)
    ensures Intersecting(OuterMerge(a, b)) == InnerJoin(a, b)
    decreases |a| + |b|
  {
    if |a| > 0 {
      IncreasingRest(a, RowDate);
    }
    if |b| > 0 {
      IncreasingRest(b, RowDate);
    }
    if |a| == 0 && |b| == 0 {
    } else if |b| == 0 || (|a| > 0 && a[0].date < b[0].date) {
      IntersectingIsInnerJoin(a[1..], b);
    } else if |a| == 0 || b[0].date < a[0].date {
      IntersectingIsInnerJoin(a, b[1..]);
      InnerJoinSkip(a, b);
    } else {
      IntersectingIsInnerJoin(a[1..], b[1..]);
      InnerJoinSkip(a[1..], b);
    }
  }

  /** Splitting the merge by `_merge` puts every row on exactly one side. */
  lemma {:induction false} MergeSplit(m: seq<Joined>)
    ensures |Intersecting(m)| + |OneSided(m)| == |m|
  {
    if |m| > 0 {
      MergeSplit(m[1..]);
    }
  }

  /** A row of the outer merge with its two prices. */
  function Prices(x: Joined): (u: Unaligned)
    ensures u.date == x.date
  {
    Unaligned(x.date, CloseOf(x.stock), CloseOf(x.index))
  }

  /** The rows of an outer merge whose `_merge` is not `'both'`, with their prices. */
  function OneSided(m: seq<Joined>): (u: seq<Unaligned>)
    ensures |u| <= |m|
  {
    if |m| == 0 then []
    else
      var rest := OneSided(m[1..]);
      if m[0].stock.Some? && m[0].index.Some? then rest else [Prices(m[0])] + rest
  }

  /** The one-sided rows are the merge's rows whose date some frame lacks. */
  lemma {:induction false} OneSidedDates(m: seq<Joined>, a: seq<Row>, b: seq<Row>)
    requires forall i :: 0 <= i < |m| ==> m[i].stock == At(a, m[i].date) && m[i].index == At(b, m[i].date)
    ensures Keys(OneSided(m), UnalignedDate) == Keys(m, JoinedDate) - Dates(a) * Dates(b)
  {
    if |m| > 0 {
      assert forall i :: 1 <= i < |m| ==> m[1..][i - 1] == m[i];
      OneSidedDates(m[1..], a, b);
      if !(m[0].stock.Some? && m[0].index.Some?) {
        KeysCons(Prices(m[0]), OneSided(m[1..]), UnalignedDate);
      }
    }
  }

  /** On an ascending merge the one-sided rows ascend too. */
  lemma {:induction false} OneSidedAscending(m: seq<Joined>)
    requires Increasing(m, JoinedDate)
    ensures Increasing(OneSided(m), UnalignedDate)
    ensures Keys(OneSided(m), UnalignedDate) <= Keys(m, JoinedDate)
  {
    if |m| > 0 {
      IncreasingRest(m, JoinedDate);
      OneSidedAscending(m[1..]);
      var rest := OneSided(m[1..]);
      if !(m[0].stock.Some? && m[0].index.Some?) {
        KeysCons(Prices(m[0]), rest, UnalignedDate);
        assert forall k :: 1 <= k < |[Prices(m[0])] + rest| ==> ([Prices(m[0])] + rest)[k] == rest[k - 1];
      }
    }
  }

  /** Each one-sided row carries the price of each frame at its date, NaN for the frame
      that lacks it. */
  lemma {:induction false} OneSidedRows(m: seq<Joined>, a: seq<Row>, b: seq<Row>)
    requires forall i :: 0 <= i < |m| ==> m[i].stock == At(a, m[i].date) && m[i].index == At(b, m[i].date)
    ensures forall i :: 0 <= i < |OneSided(m)| ==>
      var u := OneSided(m)[i];
      u.stockPrice == CloseOf(At(a, u.date)) && u.indexPrice == CloseOf(At(b, u.date))
  {
    if |m| > 0 {
      assert forall i :: 1 <= i < |m| ==> m[1..][i - 1] == m[i];
      OneSidedRows(m[1..], a, b);
    }
  }

  // ----- Changes are taken before the merge -----

  /** The daily change is added to each frame before the merge, so an intersection row
      carries the change from the previous row of the same frame, not from the previous
      intersection row; in particular a frame's first date keeps an undefined change. */
  lemma {:induction false} IntersectionChanges(stock: seq<Bar>, index: seq<Bar>)
    requires AscendingBars(stock) && AscendingBars(index)
    ensures forall i, k :: (0 <= i < |InnerJoin(WithDailyChange(stock), WithDailyChange(index))| && 0 <= k < |stock| &&
      stock[k].date == InnerJoin(WithDailyChange(stock), WithDailyChange(index))[i].date) ==>
      var x := InnerJoin(WithDailyChange(stock), WithDailyChange(index))[i];
      x.stockClose == stock[k].close &&
      x.stockChange == (if k == 0 then None else PercentChange(stock[k - 1].close, stock[k].close))
    ensures forall i, k :: (0 <= i < |InnerJoin(WithDailyChange(stock), WithDailyChange(index))| && 0 <= k < |index| &&
      index[k].date == InnerJoin(WithDailyChange(stock), WithDailyChange(index))[i].date) ==>
      var x := InnerJoin(WithDailyChange(stock), WithDailyChange(index))[i];
      x.indexClose == index[k].close &&
      x.indexChange == (if k == 0 then None else PercentChange(index[k - 1].close, index[k].close))
  {
    var a, b := WithDailyChange(stock), WithDailyChange(index);
    WithDailyChangeAscending(stock);
    WithDailyChangeAscending(index);
    InnerJoinRows(a, b);
    var j := InnerJoin(a, b);
    forall i, k | 0 <= i < |j| && 0 <= k < |stock| && stock[k].date == j[i].date
      ensures j[i].stockClose == stock[k].close
      ensures j[i].stockChange == (if k == 0 then None else PercentChange(stock[k - 1].close, stock[k].close))
    {
      AtOwnDate(a, k);
    }
    forall i, k | 0 <= i < |j| && 0 <= k < |index| && index[k].date == j[i].date
      ensures j[i].indexClose == index[k].close
      ensures j[i].indexChange == (if k == 0 then None else PercentChange(index[k - 1].close, index[k].close))
    {
      AtOwnDate(b, k);
    }
  }
}
