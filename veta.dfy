/** `Veta.py`: the stock symbols typed as one comma-separated text, a window ending today,
    and per symbol an intersection, a non-intersection made by dropping every row whose
    values occur more than once in the two frames put one under the other, and a guarded
    beta. */
module Veta {
  import opened Wrappers
  import opened Sequences
  import opened Series
  import opened Align
  import opened Summary

  /** The largest number of days the window may reach back: the window starts at
      `WindowStart(end, numDays, MaxDays)`. */
  const MaxDays := 1000

  // ----- Symbol parsing -----

  /** Python's `str.isspace` on one character: the characters `str.strip()` removes. */
  predicate IsSpace(c: char) {
    var n := c as int;
    (9 <= n <= 13) || (28 <= n <= 32) || n == 0x85 || n == 0xA0 || n == 0x1680
    || (0x2000 <= n <= 0x200A) || n == 0x2028 || n == 0x2029 || n == 0x202F
    || n == 0x205F || n == 0x3000
  }

  /** The text after its leading whitespace. */
  function TrimStart(s: string): (r: string)
    ensures |r| <= |s| && r == s[|s| - |r|..]
    ensures forall k :: 0 <= k < |s| - |r| ==> IsSpace(s[k])
    ensures |r| > 0 ==> !IsSpace(r[0])
  {
    if |s| > 0 && IsSpace(s[0]) then TrimStart(s[1..]) else s
  }

  /** The text before its trailing whitespace. */
  function TrimEnd(s: string): (r: string)
    ensures |r| <= |s| && r == s[..|r|]
    ensures forall k :: |r| <= k < |s| ==> IsSpace(s[k])
    ensures |r| > 0 ==> !IsSpace(r[|r| - 1])
  {
    if |s| > 0 && IsSpace(s[|s| - 1]) then TrimEnd(s[..|s| - 1]) else s
  }

  /** `str.strip()` */
  function Strip(s: string): (r: string)
    ensures |r| <= |s|
    ensures |r| > 0 ==> !IsSpace(r[0]) && !IsSpace(r[|r| - 1])
  {
    TrimEnd(TrimStart(s))
  }

  /** `strip` removes exactly the longest whitespace prefix and suffix: what it returns is
      a slice of the text, everything cut off is whitespace, and the slice neither starts
      nor ends with whitespace. */
  lemma StripSpec(s: string) returns (i: int, j: int)
    ensures 0 <= i <= j <= |s| && Strip(s) == s[i..j]
    ensures forall k :: 0 <= k < i || j <= k < |s| ==> IsSpace(s[k])
    ensures |Strip(s)| > 0 ==> !IsSpace(Strip(s)[0]) && !IsSpace(Strip(s)[|Strip(s)| - 1])
  {
    var t := TrimStart(s);
    var r := TrimEnd(t);
    i := |s| - |t|;
    j := i + |r|;
    assert r == s[i..][..|r|];
    forall k | j <= k < |s|
      ensures IsSpace(s[k])
    {
      assert s[k] == t[k - i];
    }
  }

  /** Stripping twice is stripping once. */
  lemma StripIdempotent(s: string)
    ensures Strip(Strip(s)) == Strip(s)
  {
    var r := Strip(s);
    var _, _ := StripSpec(s);
    assert TrimStart(r) == r;
  }

  /** The number of commas in the text. */
  function Commas(s: string): nat {
    if |s| == 0 then 0 else (if s[0] == ',' then 1 else 0) + Commas(s[1..])
  }

  /** `str.split(",")`: the pieces between the commas, empty pieces included. */
  function Split(s: string): (ps: seq<string>)
    ensures |ps| == Commas(s) + 1
    ensures forall i :: 0 <= i < |ps| ==> ',' !in ps[i]
  {
    if |s| == 0 then [""]
    else
      var rest := Split(s[1..]);
      if s[0] == ',' then [""] + rest
      else [[s[0]] + rest[0]] + rest[1..]
  }

  /** `",".join(pieces)` */
  function Join(ps: seq<string>): string {
    if |ps| == 0 then ""
    else if |ps| == 1 then ps[0]
    else ps[0] + "," + Join(ps[1..])
  }

  /** Splitting loses nothing: joining the pieces with commas gives the text back. */
  lemma {:induction false} JoinSplit(s: string)
    ensures Join(Split(s)) == s
  {
    if |s| > 0 {
      JoinSplit(s[1..]);
      var rest := Split(s[1..]);
      if s[0] == ',' {
        assert Join([""] + rest) == "" + "," + Join(rest);
      } else {
        var ps := [[s[0]] + rest[0]] + rest[1..];
        assert ps[1..] == rest[1..];
        if |rest| == 1 {
          assert Join(ps) == [s[0]] + rest[0];
        } else {
          assert Join(ps) == [s[0]] + rest[0] + "," + Join(rest[1..]);
        }
      }
    }
  }

  /** `[symbol.strip() for symbol in stock_symbols.split(",")]` */
  function ParseSymbols(text: string): (symbols: seq<string>)
    ensures |symbols| == Commas(text) + 1
    ensures forall i :: 0 <= i < |symbols| ==> symbols[i] == Strip(Split(text)[i])
  {
    var ps := Split(text);
    seq(|ps|, i requires 0 <= i < |ps| => Strip(ps[i]))
  }

  /** One symbol per comma-separated piece, in order, empty pieces kept, none with a
      comma or with whitespace at either end; the pieces rejoined give the text. */
  lemma ParseSymbolsSpec(text: string)
    ensures |ParseSymbols(text)| == Commas(text) + 1
    ensures Join(Split(text)) == text
    ensures forall i :: 0 <= i < |ParseSymbols(text)| ==>
      var s := ParseSymbols(text)[i];
      ',' !in s && (|s| > 0 ==> !IsSpace(s[0]) && !IsSpace(s[|s| - 1]))
  {
    JoinSplit(text);
    var ps := Split(text);
    forall i | 0 <= i < |ps|
      ensures ',' !in Strip(ps[i])
      ensures |Strip(ps[i])| > 0 ==> !IsSpace(Strip(ps[i])[0]) && !IsSpace(Strip(ps[i])[|Strip(ps[i])| - 1])
    {
      var a, b := StripSpec(ps[i]);
      assert forall c :: c in ps[i][a..b] ==> c in ps[i];
    }
  }

  // ----- Non-intersection -----

  /** The values `drop_duplicates` compares: every column, the date index excluded. */
  function ValuesOf(r: Row): (real, seq<real>, Option<real>) {
    (r.close, r.rest, r.change)
  }

  /** The rows of `s` whose values occur exactly once in `all`. */
  function Singletons(all: seq<Row>, s: seq<Row>): (r: seq<Row>)
    ensures |r| <= |s|
  {
    if |s| == 0 then []
    else (if CountKey(all, ValuesOf, ValuesOf(s[0])) == 1 then [s[0]] else []) + Singletons(all, s[1..])
  }

  /** `pd.concat([stock_data, index_data], axis=0).drop_duplicates(keep=False)`: the
      stock rows then the index rows, without every row whose values occur more than once. */
  function NonIntersection(stock: seq<Row>, index: seq<Row>): (r: seq<Row>)
    ensures |r| <= |stock| + |index|
  {
    Singletons(stock + index, stock + index)
  }

  lemma {:induction false} SingletonsSpec(all: seq<Row>, s: seq<Row>)
    ensures IsSubsequence(Singletons(all, s), s)
    ensures forall x :: x in Singletons(all, s) <==> x in s && CountKey(all, ValuesOf, ValuesOf(x)) == 1
  {
    if |s| > 0 {
      SingletonsSpec(all, s[1..]);
      var rest := Singletons(all, s[1..]);
      assert [s[0]] + s[1..] == s;
      if CountKey(all, ValuesOf, ValuesOf(s[0])) != 1 {
        assert Singletons(all, s) == rest;
        SubsequenceSkipAny(rest, s[1..], s[0]);
      }
    }
  }

  /** A row is kept exactly when its values occur once among the stock rows and the index
      rows together, whatever its date; the kept rows keep their order, so there are at
      most as many as the two frames have rows, and no two of them have the same values. */
  lemma NonIntersectionSpec(stock: seq<Row>, index: seq<Row>)
    ensures forall x :: x in NonIntersection(stock, index) <==>
      x in stock + index && CountKey(stock + index, ValuesOf, ValuesOf(x)) == 1
    ensures IsSubsequence(NonIntersection(stock, index), stock + index)
    ensures |NonIntersection(stock, index)| <= |stock| + |index|
    ensures forall x :: x in NonIntersection(stock, index) ==>
      CountKey(NonIntersection(stock, index), ValuesOf, ValuesOf(x)) == 1
  {
    var all := stock + index;
    var kept := NonIntersection(stock, index);
    SingletonsSpec(all, all);
    forall x | x in kept
      ensures CountKey(kept, ValuesOf, ValuesOf(x)) == 1
    {
      SubsequenceCount(kept, all, ValuesOf, ValuesOf(x));
      CountKeyPositive(kept, ValuesOf, x);
    }
  }

  /** Unlike the other scripts' non-intersection, dates play no part: a date both frames
      have stays when the two rows differ... */
  lemma SharedDateKept()
    ensures var stock, index := [Row(1, 10.0, [], None)], [Row(1, 20.0, [], None)];
      Keys(InnerJoin(stock, index), AlignedDate) == {1} &&
      NonIntersection(stock, index) == stock + index
  {
    var stock, index := [Row(1, 10.0, [], None)], [Row(1, 20.0, [], None)];
    assert InnerJoin(stock, index) == [Pair(stock[0], index[0])];
    var all := stock + index;
    assert all[1..] == index;
    assert all[1..][1..] == [];
    assert CountKey(all, ValuesOf, ValuesOf(all[0])) == 1;
    assert CountKey(all, ValuesOf, ValuesOf(all[1])) == 1;
    assert Singletons(all, all[1..]) == index;
  }

  /** ...and dates only one frame has go when their rows carry the same values. */
  lemma UnsharedDatesDropped()
    ensures var stock, index := [Row(1, 10.0, [], None)], [Row(2, 10.0, [], None)];
      Keys(InnerJoin(stock, index), AlignedDate) == {} &&
      NonIntersection(stock, index) == []
  {
    var stock, index := [Row(1, 10.0, [], None)], [Row(2, 10.0, [], None)];
    var all := stock + index;
    assert all[1..] == index;
    assert all[1..][1..] == [];
    assert CountKey(all, ValuesOf, ValuesOf(all[0])) == 2;
    assert Singletons(all, all[1..]) == [];
  }

  // ----- The fetch -----

  /** The "Fetch Data" handler: the parsed symbols, then the per-symbol loop with this
      script's non-intersection. */
  method FetchData(text: string, indexSymbol: string, download: Downloader)
    returns (results: seq<(string, SymbolData<seq<Row>>)>, summary: seq<SummaryRow>)
    ensures results == ResultsOf(ParseSymbols(text), indexSymbol, download, NonIntersection)
    ensures summary == SummaryOf(ParseSymbols(text), indexSymbol, download)
  {
    results, summary := FetchAll(ParseSymbols(text), indexSymbol, download, NonIntersection);
  }
}
