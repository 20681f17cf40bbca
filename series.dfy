/** Price frames as the scripts receive them from the download, and the daily-change column
    each script adds to them. */
module Series {
  import opened Wrappers
  import opened Sequences

  /** A calendar date, as a day number. */
  type Day = int

  /** One row of a downloaded price frame: its date (the frame's index), its close, and the
      remaining downloaded columns (open, high, low, adjusted close, volume), which the core
      carries along but never computes with. */
  datatype Bar = Bar(date: Day, close: real, rest: seq<real>)

  /** A frame row once the script has added the `Daily Change (%)` column. */
  datatype Row = Row(date: Day, close: real, rest: seq<real>, change: Option<real>)

  function BarDate(b: Bar): Day {
    b.date
  }

  function RowDate(r: Row): Day {
    r.date
  }

  /** The download delivers each frame indexed by unique dates in ascending order. */
  predicate AscendingBars(s: seq<Bar>) {
    Increasing(s, BarDate)
  }

  predicate Ascending(s: seq<Row>) {
    Increasing(s, RowDate)
  }

  /** The set of dates a frame is indexed by. */
  function Dates(s: seq<Row>): set<Day> {
    Keys(s, RowDate)
  }

  /** One cell of `Close.pct_change() * 100`; a zero previous close gives no value. */
  function PercentChange(prev: real, cur: real): (c: Option<real>)
    ensures c.Some? <==> prev != 0.0
  {
    if prev == 0.0 then None else Some((cur - prev) / prev * 100.0)
  }

  /** The frame with its `Daily Change (%)` column: each row's change is taken relative to
      the row just before it in the same frame, and the first row has none. */
  function WithDailyChange(s: seq<Bar>): (r: seq<Row>)
    ensures |r| == |s|
    ensures forall i :: 0 <= i < |s| ==>
      r[i].date == s[i].date && r[i].close == s[i].close && r[i].rest == s[i].rest
    ensures |s| > 0 ==> r[0].change == None
    ensures forall i :: 0 < i < |s| ==> r[i].change == PercentChange(s[i - 1].close, s[i].close)
    decreases |s|
  {
    if |s| == 0 then []
    else
      var n := |s| - 1;
      var change := if n == 0 then None else PercentChange(s[n - 1].close, s[n].close);
      WithDailyChange(s[..n]) + [Row(s[n].date, s[n].close, s[n].rest, change)]
  }

  /** Adding the column keeps the frame's order and dates. */
  lemma WithDailyChangeAscending(s: seq<Bar>)
    requires AscendingBars(s)
    ensures Ascending(WithDailyChange(s))
  {
  }

  /** The change is the inverse of compounding: the current close is the previous close
      grown by the recorded percentage, whenever the previous close is not zero. */
  lemma PercentChangeCompounds(prev: real, cur: real)
    requires prev != 0.0
    ensures PercentChange(prev, cur).Some?
    ensures cur == prev * (1.0 + PercentChange(prev, cur).value / 100.0)
  {
    var v := (cur - prev) / prev * 100.0;
    assert v / 100.0 == (cur - prev) / prev;
    assert prev * (1.0 + (cur - prev) / prev) == prev + (cur - prev);
  }

  /** yfinance's `start` argument: the chosen end date moved back by `numDays` calendar
      days, where the number input admits 1 to `maxDays` days. */
  function WindowStart(end: Day, numDays: int, maxDays: int): (start: Day)
    requires 1 <= numDays <= maxDays
    ensures start < end
    ensures end - maxDays <= start
    ensures end - start == numDays
  {
    end - numDays
  }
}
