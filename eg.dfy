/** `Eg.py`: several stock symbols typed one per field, a selected end date, and per symbol
    an intersection, a non-intersection made of the leftover rows of each frame placed side
    by side by date, and a guarded beta. */
module Eg {
  import opened Wrappers
  import opened Sequences
  import opened Series
  import opened Align
  import opened Summary

  /** The largest number of days the window may reach back: the window starts at
      `WindowStart(end, numDays, MaxDays)`. */
  const MaxDays := 1000

  // ----- Symbols -----

  /** The symbols kept from the text fields: the non-empty ones, in field order. */
  function NonEmptySymbols(fields: seq<string>): (symbols: seq<string>)
    ensures |symbols| <= |fields|
    ensures forall i :: 0 <= i < |symbols| ==> symbols[i] != ""
  {
    if |fields| == 0 then []
    else
      var n := |fields| - 1;
      NonEmptySymbols(fields[..n]) + (if fields[n] != "" then [fields[n]] else [])
  }

  /** The kept symbols are exactly the non-empty fields, in field order. */
  lemma {:induction false} NonEmptySymbolsSpec(fields: seq<string>)
    ensures IsSubsequence(NonEmptySymbols(fields), fields)
    ensures forall s :: s in NonEmptySymbols(fields) <==> s in fields && s != ""
    ensures forall s :: (Occurrences(NonEmptySymbols(fields), s) == if s != "" then Occurrences(fields, s) else 0)
  {
    NonEmptySymbolsCounts(fields);
    if |fields| > 0 {
      var n := |fields| - 1;
      NonEmptySymbolsSpec(fields[..n]);
      assert fields == fields[..n] + [fields[n]];
      SubsequenceAppend(NonEmptySymbols(fields[..n]), fields[..n], fields[n], fields[n] != "");
    }
  }

  /** A symbol typed in several fields is kept once per field; the empty text is never
      kept. */
  lemma {:induction false} NonEmptySymbolsCounts(fields: seq<string>)
    ensures forall s :: (Occurrences(NonEmptySymbols(fields), s) == if s != "" then Occurrences(fields, s) else 0)
  {
    if |fields| > 0 {
      var n := |fields| - 1;
      var pre := fields[..n];
      NonEmptySymbolsCounts(pre);
      var kept := NonEmptySymbols(pre);
      forall s
        ensures Occurrences(fields, s) == Occurrences(pre, s) + (if fields[n] == s then 1 else 0)
      {
        assert fields == pre + [fields[n]];
        OccurrencesSnoc(pre, fields[n], s);
      }
      if fields[n] != "" {
        forall s
          ensures Occurrences(kept + [fields[n]], s) == Occurrences(kept, s) + (if fields[n] == s then 1 else 0)
        {
          OccurrencesSnoc(kept, fields[n], s);
        }
      } else {
        assert kept + [] == kept;
      }
    }
  }

  /** `for i in range(num_companies): if symbol: stock_symbols.append(symbol)` */
  method CollectSymbols(fields: seq<string>) returns (symbols: seq<string>)
    ensures symbols == NonEmptySymbols(fields)
  {
    symbols := [];
    for i := 0 to |fields|
      invariant symbols == NonEmptySymbols(fields[..i])
    {
      assert fields[..i + 1][..i] == fields[..i];
      if fields[i] != "" {
        symbols := symbols + [fields[i]];
      }
    }
    assert fields[..|fields|] == fields;
  }

  // ----- Non-intersection -----

  /** The rows of a frame whose date is not in `taken`:
      `frame[~frame.index.isin(intersection['Date'])]`. */
  function Residual(s: seq<Row>, taken: set<Day>): (r: seq<Row>)
    ensures |r| <= |s|
    ensures forall x :: x in r <==> x in s && x.date !in taken
  {
    if |s| == 0 then []
    else (if s[0].date in taken then [] else [s[0]]) + Residual(s[1..], taken)
  }

  /** Each outer-merge row as a date with its two prices. */
  function AllPrices(m: seq<Joined>): (u: seq<Unaligned>)
    ensures |u| == |m|
  {
    if |m| == 0 then [] else [Prices(m[0])] + AllPrices(m[1..])
  }

  /** `pd.concat([stock_rest[['Close']], index_rest[['Close']]], axis=1)`: the two residual
      frames aligned on their date index. The concatenation of date-indexed frames along
      the columns takes the union of the dates, sorted, so it is the outer merge of the
      residuals, each row with its two prices. */
  function NonIntersection(stock: seq<Row>, index: seq<Row>): (u: seq<Unaligned>)
    ensures |u| <= |stock| + |index|
  {
    var taken := Keys(InnerJoin(stock, index), AlignedDate);
    AllPrices(OuterMerge(Residual(stock, taken), Residual(index, taken)))
  }

  /** `taken` holds exactly the dates that both frames have. */
  predicate SharedDates(a: seq<Row>, b: seq<Row>, taken: set<Day>) {
    forall d :: d in Dates(a) + Dates(b) ==> (d in taken <==> d in Dates(a) && d in Dates(b))
  }

  /** Merging the residuals, where `taken` is the set of dates the two frames share, gives
      the one-sided rows of the outer merge of the whole frames. */
  lemma {:induction false} ResidualMerge(a: seq<Row>, b: seq<Row>, taken: set<Day>)
    requires Ascending(a) && Ascending(b)
    requires SharedDates(a, b, taken)
    ensures AllPrices(OuterMerge(Residual(a, taken), Residual(b, taken))) == OneSided(OuterMerge(a, b))
    decreases |a| + |b|
  {
    if |a| == 0 && |b| == 0 {
    } else if |b| == 0 || (|a| > 0 && a[0].date < b[0].date) {
      SharedDatesRest(a, b, taken, true, false);
      ResidualMerge(a[1..], b, taken);
      LeftStep(a, b, taken);
    } else if |a| == 0 || b[0].date < a[0].date {
      SharedDatesRest(a, b, taken, false, true);
      ResidualMerge(a, b[1..], taken);
      RightStep(a, b, taken);
    } else {
      SharedDatesRest(a, b, taken, true, true);
      ResidualMerge(a[1..], b[1..], taken);
      BothStep(a, b, taken);
    }
  }

  /** Dropping the first row of a frame whose first date is not shared by both, or of both
      frames when they share their first date, keeps `taken` the shared dates. */
  lemma SharedDatesRest(a: seq<Row>, b: seq<Row>, taken: set<Day>, dropA: bool, dropB: bool)
    requires Ascending(a) && Ascending(b)
    requires SharedDates(a, b, taken)
    requires dropA ==> |a| > 0
    requires dropB ==> |b| > 0
    requires dropA && !dropB ==> |b| == 0 || a[0].date < b[0].date
    requires dropB && !dropA ==> |a| == 0 || b[0].date < a[0].date
    requires dropA && dropB ==> a[0].date == b[0].date
    ensures SharedDates(if dropA then a[1..] else a, if dropB then b[1..] else b, taken)
  {
    if |a| > 0 {
      IncreasingRest(a, RowDate);
    }
    if |b| > 0 {
      IncreasingRest(b, RowDate);
    }
  }

  lemma LeftStep(a: seq<Row>, b: seq<Row>, taken: set<Day>)
    requires Ascending(a) && Ascending(b) && SharedDates(a, b, taken)
    requires |a| > 0 && (|b| == 0 || a[0].date < b[0].date)
    requires AllPrices(OuterMerge(Residual(a[1..], taken), Residual(b, taken))) == OneSided(OuterMerge(a[1..], b))
    ensures AllPrices(OuterMerge(Residual(a, taken), Residual(b, taken))) == OneSided(OuterMerge(a, b))
  {
    IncreasingRest(a, RowDate);
    if |b| > 0 {
      IncreasingRest(b, RowDate);
    }
    assert a[0].date !in Dates(b);
    var ra := Residual(a[1..], taken);
    var rb := Residual(b, taken);
    assert Residual(a, taken) == [a[0]] + ra;
    forall y | y in rb
      ensures a[0].date < y.date
    {
      assert y.date in Dates(b) by {
        var i :| 0 <= i < |b| && b[i] == y;
      }
    }
    MergeFront(a[0], ra, rb, true);
    assert OuterMerge(a, b) == [Joined(a[0].date, Some(a[0]), None)] + OuterMerge(a[1..], b);
  }

  lemma RightStep(a: seq<Row>, b: seq<Row>, taken: set<Day>)
    requires Ascending(a) && Ascending(b) && SharedDates(a, b, taken)
    requires |b| > 0 && (|a| == 0 || b[0].date < a[0].date)
    requires AllPrices(OuterMerge(Residual(a, taken), Residual(b[1..], taken))) == OneSided(OuterMerge(a, b[1..]))
    ensures AllPrices(OuterMerge(Residual(a, taken), Residual(b, taken))) == OneSided(OuterMerge(a, b))
  {
    IncreasingRest(b, RowDate);
    if |a| > 0 {
      IncreasingRest(a, RowDate);
    }
    assert b[0].date !in Dates(a);
    var ra := Residual(a, taken);
    var rb := Residual(b[1..], taken);
    assert Residual(b, taken) == [b[0]] + rb;
    forall y | y in ra
      ensures b[0].date < y.date
    {
      assert y.date in Dates(a) by {
        var i :| 0 <= i < |a| && a[i] == y;
      }
    }
    MergeFront(b[0], ra, rb, false);
    assert OuterMerge(a, b) == [Joined(b[0].date, None, Some(b[0]))] + OuterMerge(a, b[1..]);
  }

  lemma BothStep(a: seq<Row>, b: seq<Row>, taken: set<Day>)
    requires SharedDates(a, b, taken)
    requires |a| > 0 && |b| > 0 && a[0].date == b[0].date
    requires AllPrices(OuterMerge(Residual(a[1..], taken), Residual(b[1..], taken))) == OneSided(OuterMerge(a[1..], b[1..]))
    ensures AllPrices(OuterMerge(Residual(a, taken), Residual(b, taken))) == OneSided(OuterMerge(a, b))
  {
    assert a[0].date in Dates(a) && b[0].date in Dates(b);
    assert Residual(a, taken) == Residual(a[1..], taken);
    assert Residual(b, taken) == Residual(b[1..], taken);
    assert OuterMerge(a, b) == [Joined(a[0].date, Some(a[0]), Some(b[0]))] + OuterMerge(a[1..], b[1..]);
  }

  /** A row whose date lies below every date of the other frame comes first in the outer
      merge, on its own. */
  lemma MergeFront(x: Row, p: seq<Row>, q: seq<Row>, left: bool)
    requires left ==> forall y :: y in q ==> x.date < y.date
    requires !left ==> forall y :: y in p ==> x.date < y.date
    ensures left ==> OuterMerge([x] + p, q) == [Joined(x.date, Some(x), None)] + OuterMerge(p, q)
    ensures !left ==> OuterMerge(p, [x] + q) == [Joined(x.date, None, Some(x))] + OuterMerge(p, q)
  {
    assert ([x] + p)[1..] == p;
    assert ([x] + q)[1..] == q;
    if left && |q| > 0 {
      assert q[0] in q;
    }
    if !left && |p| > 0 {
      assert p[0] in p;
    }
  }

  /** The non-intersection of `Eg.py` has the same rows as the one-sided rows of the outer
      merge that `Beta.py` displays. */
  lemma NonIntersectionIsOneSided(a: seq<Row>, b: seq<Row>)
    requires Ascending(a) && Ascending(b)
    ensures NonIntersection(a, b) == OneSided(OuterMerge(a, b))
  {
    InnerJoinDates(a, b);
    ResidualMerge(a, b, Dates(a) * Dates(b));
  }

  /** The non-intersection lists, in ascending order, exactly the dates that one frame
      has and the other lacks; it shares no date with the intersection, and the two
      together cover every date of either frame. */
  lemma NonIntersectionDates(a: seq<Row>, b: seq<Row>)
    requires Ascending(a) && Ascending(b)
    ensures Increasing(NonIntersection(a, b), UnalignedDate)
    ensures Keys(NonIntersection(a, b), UnalignedDate) == (Dates(a) + Dates(b)) - Dates(a) * Dates(b)
    ensures Keys(InnerJoin(a, b), AlignedDate) !! Keys(NonIntersection(a, b), UnalignedDate)
    ensures Keys(InnerJoin(a, b), AlignedDate) + Keys(NonIntersection(a, b), UnalignedDate) == Dates(a) + Dates(b)
  {
    NonIntersectionIsOneSided(a, b);
    var m := OuterMerge(a, b);
    OuterMergeAscending(a, b);
    OuterMergeDates(a, b);
    OuterMergeRows(a, b);
    OneSidedAscending(m);
    OneSidedDates(m, a, b);
    InnerJoinDates(a, b);
  }

  /** Each non-intersection row has the price of the one frame that has its date and NaN
      for the other. */
  lemma NonIntersectionRows(a: seq<Row>, b: seq<Row>)
    requires Ascending(a) && Ascending(b)
    ensures forall i :: 0 <= i < |NonIntersection(a, b)| ==>
      var u := NonIntersection(a, b)[i];
      u.stockPrice == CloseOf(At(a, u.date)) && u.indexPrice == CloseOf(At(b, u.date)) &&
      (u.stockPrice.Some? <==> u.indexPrice.None?)
  {
    NonIntersectionIsOneSided(a, b);
    NonIntersectionDates(a, b);
    var m := OuterMerge(a, b);
    OuterMergeRows(a, b);
    OneSidedRows(m, a, b);
    var n := OneSided(m);
    forall i | 0 <= i < |n|
      ensures n[i].stockPrice.Some? <==> n[i].indexPrice.None?
    {
      assert n[i].date in Keys(n, UnalignedDate);
    }
  }

  /** Every date of either frame that is not in the intersection appears once in the
      non-intersection, in ascending order, with the price of the one frame that has it
      and NaN for the other; the intersection and the non-intersection share no date and
      together cover every date of either frame. */
  lemma NonIntersectionSpec(a: seq<Row>, b: seq<Row>)
    requires Ascending(a) && Ascending(b)
    ensures Increasing(NonIntersection(a, b), UnalignedDate)
    ensures Keys(NonIntersection(a, b), UnalignedDate) == (Dates(a) + Dates(b)) - Dates(a) * Dates(b)
    ensures Keys(InnerJoin(a, b), AlignedDate) !! Keys(NonIntersection(a, b), UnalignedDate)
    ensures Keys(InnerJoin(a, b), AlignedDate) + Keys(NonIntersection(a, b), UnalignedDate) == Dates(a) + Dates(b)
    ensures forall i :: 0 <= i < |NonIntersection(a, b)| ==>
      var u := NonIntersection(a, b)[i];
      u.stockPrice == CloseOf(At(a, u.date)) && u.indexPrice == CloseOf(At(b, u.date)) &&
      (u.stockPrice.Some? <==> u.indexPrice.None?)
  {
    NonIntersectionDates(a, b);
    NonIntersectionRows(a, b);
  }

  // ----- The fetch -----

  /** The "Fetch Data" handler: the non-empty symbols, then the per-symbol loop with this
      script's non-intersection. */
  method FetchData(fields: seq<string>, indexSymbol: string, download: Downloader)
    returns (results: seq<(string, SymbolData<seq<Unaligned>>)>, summary: seq<SummaryRow>)
    ensures results == ResultsOf(NonEmptySymbols(fields), indexSymbol, download, NonIntersection)
    ensures summary == SummaryOf(NonEmptySymbols(fields), indexSymbol, download)
  {
    var symbols := CollectSymbols(fields);
    results, summary := FetchAll(symbols, indexSymbol, download, NonIntersection);
  }
}
