/** The per-symbol loop of `Eg.py` and `Veta.py`: for every symbol whose stock and index
    downloads are both non-empty, the intersection, the non-intersection and the beta go
    into the results dictionary under the symbol, and a row goes into the beta summary.
    Also the average beta written below the summary. The two scripts differ only in how
    they build the non-intersection, which is therefore a parameter here. */
module Summary {
  import opened Wrappers
  import opened Numbers
  import opened Sequences
  import opened Series
  import opened Align
  import opened Estimator
  import opened Stats

  /** `{"Stock Symbol": symbol, "Beta": beta}` */
  datatype SummaryRow = SummaryRow(symbol: string, beta: Option<Float>)

  /** `{"intersection": ..., "non_intersection": ..., "beta": ...}`, with the
      non-intersection of whichever shape the script builds. */
  datatype SymbolData<N> = SymbolData(intersection: seq<Aligned>, nonIntersection: N, beta: Option<Float>)

  /** `yf.download(symbol, start, end)` for the fixed window, as an input. */
  type Downloader = string -> seq<Bar>

  /** `not stock_data.empty and not index_data.empty` */
  predicate HasData(download: Downloader, symbol: string, indexSymbol: string) {
    |download(symbol)| > 0 && |download(indexSymbol)| > 0
  }

  /** The body of the loop for one symbol with data: the change columns are added to both
      frames, then the frames are joined, split and the beta estimated. */
  function Analyse<N>(stock: seq<Bar>, index: seq<Bar>, split: (seq<Row>, seq<Row>) -> N): (r: SymbolData<N>)
    ensures |r.intersection| <= |stock|
    ensures r.beta.None? <==> Variance(r.intersection) == Some(0.0)
  {
    var s := WithDailyChange(stock);
    var x := WithDailyChange(index);
    var j := InnerJoin(s, x);
    SymbolData(j, split(s, x), GuardedBeta(j))
  }

  /** The guarded beta the loop computes for one symbol with data. */
  function SymbolBeta(download: Downloader, symbol: string, indexSymbol: string): (b: Option<Float>)
    ensures b.None? <==>
      Variance(InnerJoin(WithDailyChange(download(symbol)), WithDailyChange(download(indexSymbol)))) == Some(0.0)
  {
    GuardedBeta(InnerJoin(WithDailyChange(download(symbol)), WithDailyChange(download(indexSymbol))))
  }

  // ----- An insertion-ordered dictionary -----

  /** The keys of a dictionary, in insertion order. */
  function KeysOf<V>(d: seq<(string, V)>): (ks: seq<string>)
    ensures |ks| == |d| && forall i :: 0 <= i < |d| ==> ks[i] == d[i].0
  {
    if |d| == 0 then [] else [d[0].0] + KeysOf(d[1..])
  }

  predicate Distinct(ks: seq<string>) {
    forall i, k :: 0 <= i < k < |ks| ==> ks[i] != ks[k]
  }

  /** `d[k]`, or `None` when `k` is not a key. */
  function Lookup<V>(d: seq<(string, V)>, k: string): (r: Option<V>)
    ensures r.Some? <==> k in KeysOf(d)
  {
    if |d| == 0 then None
    else if d[0].0 == k then Some(d[0].1)
    else Lookup(d[1..], k)
  }

  /** `d[k] = v` on a Python dictionary: an existing key keeps its place and takes the new
      value; a new key goes at the end. */
  function Assign<V>(d: seq<(string, V)>, k: string, v: V): (r: seq<(string, V)>)
    ensures k in KeysOf(d) ==> KeysOf(r) == KeysOf(d)
    ensures k !in KeysOf(d) ==> KeysOf(r) == KeysOf(d) + [k]
  {
    if |d| == 0 then [(k, v)]
    else if d[0].0 == k then [(k, v)] + d[1..]
    else [d[0]] + Assign(d[1..], k, v)
  }

  /** After `d[k] = v`, `k` maps to `v` and every other key to what it mapped to before. */
  lemma {:induction false} AssignLookup<V>(d: seq<(string, V)>, k: string, v: V, q: string)
    ensures Lookup(Assign(d, k, v), q) == if q == k then Some(v) else Lookup(d, q)
  {
    if |d| > 0 && d[0].0 != k {
      AssignLookup(d[1..], k, v, q);
    }
  }

  /** Assignment never duplicates a key. */
  lemma AssignDistinct<V>(d: seq<(string, V)>, k: string, v: V)
    requires Distinct(KeysOf(d))
    ensures Distinct(KeysOf(Assign(d, k, v)))
  {
  }

  /** `s` with every repeat after the first dropped: the keys a dictionary ends up with
      when the elements of `s` are assigned in order. */
  function FirstOccurrences(s: seq<string>): (r: seq<string>)
    ensures |r| <= |s|
  {
    if |s| == 0 then []
    else
      var n := |s| - 1;
      if s[n] in s[..n] then FirstOccurrences(s[..n]) else FirstOccurrences(s[..n]) + [s[n]]
  }

  /** The first occurrences hold every element of `s`, each once. */
  lemma {:induction false} FirstOccurrencesSpec(s: seq<string>)
    ensures forall x :: x in FirstOccurrences(s) <==> x in s
    ensures Distinct(FirstOccurrences(s))
  {
    if |s| > 0 {
      var n := |s| - 1;
      FirstOccurrencesSpec(s[..n]);
      assert s == s[..n] + [s[n]];
    }
  }

  // ----- The loop's specification -----

  /** The `beta_summary` list after the loop has run over `symbols`. */
  function SummaryOf(symbols: seq<string>, indexSymbol: string, download: Downloader): (rows: seq<SummaryRow>)
    ensures |rows| <= |symbols|
  {
    if |symbols| == 0 then []
    else
      var n := |symbols| - 1;
      var before := SummaryOf(symbols[..n], indexSymbol, download);
      if HasData(download, symbols[n], indexSymbol) then
        before + [SummaryRow(symbols[n], SymbolBeta(download, symbols[n], indexSymbol))]
      else before
  }

  /** The `stock_data_dict` dictionary after the loop has run over `symbols`. */
  function ResultsOf<N>(symbols: seq<string>, indexSymbol: string, download: Downloader,
                        split: (seq<Row>, seq<Row>) -> N): (r: seq<(string, SymbolData<N>)>)
    ensures |r| <= |symbols|
  {
    if |symbols| == 0 then []
    else
      var n := |symbols| - 1;
      var before := ResultsOf(symbols[..n], indexSymbol, download, split);
      if HasData(download, symbols[n], indexSymbol) then
        Assign(before, symbols[n], Analyse(download(symbols[n]), download(indexSymbol), split))
      else before
  }

  /** The symbols of the summary rows. */
  function SymbolsOf(rows: seq<SummaryRow>): (ss: seq<string>)
    ensures |ss| == |rows| && forall i :: 0 <= i < |rows| ==> ss[i] == rows[i].symbol
  {
    if |rows| == 0 then [] else SymbolsOf(rows[..|rows| - 1]) + [rows[|rows| - 1].symbol]
  }

  /** The summary's symbols are the input symbols with data, in input order: a filter of
      the input (a repeated symbol with data repeats, see `SummaryCounts`). */
  lemma {:induction false} SummaryOrder(symbols: seq<string>, indexSymbol: string, download: Downloader)
    ensures IsSubsequence(SymbolsOf(SummaryOf(symbols, indexSymbol, download)), symbols)
  {
    if |symbols| > 0 {
      var n := |symbols| - 1;
      var pre := symbols[..n];
      SummaryOrder(pre, indexSymbol, download);
      assert symbols == pre + [symbols[n]];
      var before := SummaryOf(pre, indexSymbol, download);
      var take := HasData(download, symbols[n], indexSymbol);
      SubsequenceAppend(SymbolsOf(before), pre, symbols[n], take);
      if take {
        var row := SummaryRow(symbols[n], SymbolBeta(download, symbols[n], indexSymbol));
        assert (before + [row])[..|before|] == before;
        assert SymbolsOf(before + [row]) == SymbolsOf(before) + [symbols[n]];
      } else {
        assert SymbolsOf(before) + [] == SymbolsOf(before);
      }
    }
  }

  /** A symbol with data gets one summary row per occurrence in the input, so a symbol
      typed twice has two rows (and counts twice in the average's divisor); a symbol
      without data gets none. */
  lemma {:induction false} SummaryCounts(symbols: seq<string>, indexSymbol: string, download: Downloader)
    ensures forall s :: (Occurrences(SymbolsOf(SummaryOf(symbols, indexSymbol, download)), s) ==
      if HasData(download, s, indexSymbol) then Occurrences(symbols, s) else 0)
  {
    if |symbols| > 0 {
      var n := |symbols| - 1;
      var pre := symbols[..n];
      SummaryCounts(pre, indexSymbol, download);
      SummarySymbolsStep(symbols, indexSymbol, download);
      var before := SymbolsOf(SummaryOf(pre, indexSymbol, download));
      assert symbols == pre + [symbols[n]];
      forall s
        ensures Occurrences(SymbolsOf(SummaryOf(symbols, indexSymbol, download)), s) ==
          if HasData(download, s, indexSymbol) then Occurrences(symbols, s) else 0
      {
        OccurrencesSnoc(pre, symbols[n], s);
        if HasData(download, symbols[n], indexSymbol) {
          OccurrencesSnoc(before, symbols[n], s);
        } else {
          assert before + [] == before;
        }
      }
    }
  }

  /** One more input symbol adds its row's symbol when it has data, and nothing otherwise. */
  lemma SummarySymbolsStep(symbols: seq<string>, indexSymbol: string, download: Downloader)
    requires |symbols| > 0
    ensures var n := |symbols| - 1;
      SymbolsOf(SummaryOf(symbols, indexSymbol, download)) ==
      SymbolsOf(SummaryOf(symbols[..n], indexSymbol, download)) +
      (if HasData(download, symbols[n], indexSymbol) then [symbols[n]] else [])
  {
    var n := |symbols| - 1;
    var before := SummaryOf(symbols[..n], indexSymbol, download);
    if HasData(download, symbols[n], indexSymbol) {
      var row := SummaryRow(symbols[n], SymbolBeta(download, symbols[n], indexSymbol));
      assert (before + [row])[..|before|] == before;
    } else {
      assert SymbolsOf(before) + [] == SymbolsOf(before);
    }
  }

  /** Every summary row is an input symbol with data, carrying that symbol's guarded beta;
      every input symbol with data has a row. */
  lemma {:induction false} SummaryRows(symbols: seq<string>, indexSymbol: string, download: Downloader)
    ensures forall r :: r in SummaryOf(symbols, indexSymbol, download) ==>
      r.symbol in symbols && HasData(download, r.symbol, indexSymbol) &&
      r.beta == SymbolBeta(download, r.symbol, indexSymbol)
    ensures forall s :: s in symbols && HasData(download, s, indexSymbol) ==>
      s in SymbolsOf(SummaryOf(symbols, indexSymbol, download))
  {
    if |symbols| > 0 {
      var n := |symbols| - 1;
      var pre := symbols[..n];
      SummaryRows(pre, indexSymbol, download);
      assert symbols == pre + [symbols[n]];
      var before := SummaryOf(pre, indexSymbol, download);
      if HasData(download, symbols[n], indexSymbol) {
        var row := SummaryRow(symbols[n], SymbolBeta(download, symbols[n], indexSymbol));
        assert (before + [row])[..|before|] == before;
        assert SymbolsOf(before + [row]) == SymbolsOf(before) + [symbols[n]];
      }
    }
  }

  /** The dictionary holds each input symbol with data exactly once, in the order of its
      first occurrence, mapped to that symbol's analysis, and nothing else. */
  lemma ResultsOfSpec<N>(symbols: seq<string>, indexSymbol: string, download: Downloader,
                         split: (seq<Row>, seq<Row>) -> N)
    ensures Distinct(KeysOf(ResultsOf(symbols, indexSymbol, download, split)))
    ensures KeysOf(ResultsOf(symbols, indexSymbol, download, split)) ==
      FirstOccurrences(SymbolsOf(SummaryOf(symbols, indexSymbol, download)))
    ensures forall s :: (Lookup(ResultsOf(symbols, indexSymbol, download, split), s) ==
      if s in symbols && HasData(download, s, indexSymbol)
      then Some(Analyse(download(s), download(indexSymbol), split))
      else None)
  {
    ResultsOfLookup(symbols, indexSymbol, download, split);
    ResultsOfOrder(symbols, indexSymbol, download, split);
  }

  /** Each input symbol with data maps to that symbol's analysis, and no other symbol is
      a key; no key is repeated. */
  lemma {:induction false} ResultsOfLookup<N>(symbols: seq<string>, indexSymbol: string, download: Downloader,
                                              split: (seq<Row>, seq<Row>) -> N)
    ensures Distinct(KeysOf(ResultsOf(symbols, indexSymbol, download, split)))
    ensures forall s :: (Lookup(ResultsOf(symbols, indexSymbol, download, split), s) ==
      if s in symbols && HasData(download, s, indexSymbol)
      then Some(Analyse(download(s), download(indexSymbol), split))
      else None)
  {
    if |symbols| > 0 {
      var n := |symbols| - 1;
      var pre := symbols[..n];
      ResultsOfLookup(pre, indexSymbol, download, split);
      assert symbols == pre + [symbols[n]];
      var before := ResultsOf(pre, indexSymbol, download, split);
      if HasData(download, symbols[n], indexSymbol) {
        var data := Analyse(download(symbols[n]), download(indexSymbol), split);
        AssignDistinct(before, symbols[n], data);
        forall s
          ensures Lookup(Assign(before, symbols[n], data), s) ==
            (if s in symbols && HasData(download, s, indexSymbol)
             then Some(Analyse(download(s), download(indexSymbol), split))
             else None)
        {
          AssignLookup(before, symbols[n], data, s);
        }
      }
    }
  }

  /** The dictionary's keys, the order `.items()` visits them in, are the summary's symbols
      with later repeats dropped: a symbol typed again keeps its first place. */
  lemma {:induction false} ResultsOfOrder<N>(symbols: seq<string>, indexSymbol: string, download: Downloader,
                                             split: (seq<Row>, seq<Row>) -> N)
    ensures KeysOf(ResultsOf(symbols, indexSymbol, download, split)) ==
      FirstOccurrences(SymbolsOf(SummaryOf(symbols, indexSymbol, download)))
  {
    if |symbols| > 0 {
      var n := |symbols| - 1;
      var pre := symbols[..n];
      ResultsOfOrder(pre, indexSymbol, download, split);
      SummarySymbolsStep(symbols, indexSymbol, download);
      var shown := SymbolsOf(SummaryOf(pre, indexSymbol, download));
      FirstOccurrencesSpec(shown);
      if HasData(download, symbols[n], indexSymbol) {
        assert (shown + [symbols[n]])[..|shown|] == shown;
      } else {
        assert shown + [] == shown;
      }
    }
  }

  /** `for stock_symbol in symbols: ...` — the loop filling `stock_data_dict` and
      `beta_summary` step by step. */
  method FetchAll<N>(symbols: seq<string>, indexSymbol: string, download: Downloader,
                     split: (seq<Row>, seq<Row>) -> N)
    returns (results: seq<(string, SymbolData<N>)>, summary: seq<SummaryRow>)
    ensures results == ResultsOf(symbols, indexSymbol, download, split)
    ensures summary == SummaryOf(symbols, indexSymbol, download)
  {
    results := [];
    summary := [];
    for i := 0 to |symbols|
      invariant results == ResultsOf(symbols[..i], indexSymbol, download, split)
      invariant summary == SummaryOf(symbols[..i], indexSymbol, download)
    {
      var stock := download(symbols[i]);
      var index := download(indexSymbol);
      LoopStep(symbols, i, indexSymbol, download, split);
      if |stock| > 0 && |index| > 0 {
        var stockRows := WithDailyChange(stock);
        var indexRows := WithDailyChange(index);
        var intersection := InnerJoin(stockRows, indexRows);
        var beta := GuardedBeta(intersection);
        assert beta == SymbolBeta(download, symbols[i], indexSymbol);
        results := Assign(results, symbols[i], SymbolData(intersection, split(stockRows, indexRows), beta));
        summary := summary + [SummaryRow(symbols[i], beta)];
      }
    }
    assert symbols[..|symbols|] == symbols;
  }

  /** One more symbol: what the loop body does to the dictionary and the summary. */
  lemma LoopStep<N>(symbols: seq<string>, i: int, indexSymbol: string, download: Downloader,
                    split: (seq<Row>, seq<Row>) -> N)
    requires 0 <= i < |symbols|
    ensures ResultsOf(symbols[..i + 1], indexSymbol, download, split) ==
      if HasData(download, symbols[i], indexSymbol)
      then Assign(ResultsOf(symbols[..i], indexSymbol, download, split), symbols[i],
                  Analyse(download(symbols[i]), download(indexSymbol), split))
      else ResultsOf(symbols[..i], indexSymbol, download, split)
    ensures SummaryOf(symbols[..i + 1], indexSymbol, download) ==
      if HasData(download, symbols[i], indexSymbol)
      then SummaryOf(symbols[..i], indexSymbol, download) +
           [SummaryRow(symbols[i], SymbolBeta(download, symbols[i], indexSymbol))]
      else SummaryOf(symbols[..i], indexSymbol, download)
  {
    assert symbols[..i + 1][..i] == symbols[..i];
  }

  // ----- Average beta -----

  /** The betas that are not `None`, in row order. */
  function PresentBetas(rows: seq<SummaryRow>): (bs: seq<Float>)
    ensures |bs| <= |rows|
  {
    if |rows| == 0 then []
    else
      var n := |rows| - 1;
      PresentBetas(rows[..n]) + (if rows[n].beta.Some? then [rows[n].beta.value] else [])
  }

  /** The beta column of the summary. */
  function BetasOf(rows: seq<SummaryRow>): (bs: seq<Option<Float>>)
    ensures |bs| == |rows| && forall i :: 0 <= i < |rows| ==> bs[i] == rows[i].beta
  {
    if |rows| == 0 then [] else BetasOf(rows[..|rows| - 1]) + [rows[|rows| - 1].beta]
  }

  /** A beta is summed once per row that holds it: equal betas of different symbols are
      all summed. */
  lemma {:induction false} PresentBetasCounts(rows: seq<SummaryRow>)
    ensures forall b :: Occurrences(PresentBetas(rows), b) == Occurrences(BetasOf(rows), Some(b))
  {
    if |rows| > 0 {
      var n := |rows| - 1;
      var pre := rows[..n];
      PresentBetasCounts(pre);
      var summed := PresentBetas(pre);
      var column := BetasOf(pre);
      assert BetasOf(rows) == column + [rows[n].beta];
      assert PresentBetas(rows) == summed + (if rows[n].beta.Some? then [rows[n].beta.value] else []);
      forall b
        ensures Occurrences(PresentBetas(rows), b) == Occurrences(BetasOf(rows), Some(b))
      {
        OccurrencesSnoc(column, rows[n].beta, Some(b));
        if rows[n].beta.Some? {
          OccurrencesSnoc(summed, rows[n].beta.value, b);
        } else {
          assert summed + [] == summed;
        }
      }
    }
  }

  /** Every present beta is summed. */
  lemma {:induction false} PresentBetasComplete(rows: seq<SummaryRow>)
    ensures forall i :: 0 <= i < |rows| && rows[i].beta.Some? ==> rows[i].beta.value in PresentBetas(rows)
  {
    if |rows| > 0 {
      var n := |rows| - 1;
      PresentBetasComplete(rows[..n]);
      assert forall i :: 0 <= i < n ==> rows[..n][i] == rows[i];
    }
  }

  /** Only present betas are summed. */
  lemma {:induction false} PresentBetasSound(rows: seq<SummaryRow>)
    ensures forall b :: b in PresentBetas(rows) ==> exists i :: 0 <= i < |rows| && rows[i].beta == Some(b)
  {
    if |rows| > 0 {
      var n := |rows| - 1;
      var pre := rows[..n];
      PresentBetasSound(pre);
      forall b | b in PresentBetas(rows)
        ensures exists i :: 0 <= i < |rows| && rows[i].beta == Some(b)
      {
        if b in PresentBetas(pre) {
          var i :| 0 <= i < n && pre[i].beta == Some(b);
          assert rows[i].beta == Some(b);
        } else {
          assert rows[n].beta == Some(b);
        }
      }
    }
  }

  /** With every beta missing nothing is summed. */
  lemma {:induction false} NoPresentBetas(rows: seq<SummaryRow>)
    requires forall i :: 0 <= i < |rows| ==> rows[i].beta.None?
    ensures PresentBetas(rows) == []
  {
    if |rows| > 0 {
      NoPresentBetas(rows[..|rows| - 1]);
    }
  }

  /** With no beta missing, every row's beta is summed, in row order. */
  lemma {:induction false} AllPresentBetas(rows: seq<SummaryRow>)
    requires forall i :: 0 <= i < |rows| ==> rows[i].beta.Some?
    ensures |PresentBetas(rows)| == |rows|
    ensures forall i :: 0 <= i < |rows| ==> PresentBetas(rows)[i] == rows[i].beta.value
  {
    if |rows| > 0 {
      var n := |rows| - 1;
      AllPresentBetas(rows[..n]);
      assert PresentBetas(rows) == PresentBetas(rows[..n]) + [rows[n].beta.value];
    }
  }

  /** Python's `sum` over doubles: `0 + b1 + b2 + ...`, left to right. A NaN anywhere
      makes the sum NaN. */
  function SumFloats(bs: seq<Float>): (s: Float)
    ensures (forall i :: 0 <= i < |bs| ==> bs[i].Finite?) ==> s.Finite?
    ensures (exists i :: 0 <= i < |bs| && bs[i].NaN?) ==> s.NaN?
  {
    if |bs| == 0 then Finite(0.0) else Add(SumFloats(bs[..|bs| - 1]), bs[|bs| - 1])
  }

  /** The values of finite doubles. */
  function FiniteValues(bs: seq<Float>): (vs: seq<real>)
    requires forall i :: 0 <= i < |bs| ==> bs[i].Finite?
  {
    seq(|bs|, i requires 0 <= i < |bs| && bs[i].Finite? => bs[i].value)
  }

  /** On finite betas the double sum is the exact sum of their values. */
  lemma {:induction false} SumOfFiniteBetas(bs: seq<Float>)
    requires forall i :: 0 <= i < |bs| ==> bs[i].Finite?
    ensures SumFloats(bs) == Finite(Sum(FiniteValues(bs)))
  {
    if |bs| > 0 {
      var n := |bs| - 1;
      SumOfFiniteBetas(bs[..n]);
      assert FiniteValues(bs) == FiniteValues(bs[..n]) + [bs[n].value];
      SumSnoc(FiniteValues(bs[..n]), bs[n].value);
    }
  }

  const ExcelError := "An error occurred while generating the Excel file: division by zero"

  /** `round(sum(d['Beta'] for d in beta_summary if d['Beta'] is not None) /
      len(beta_summary), 2)`: the missing betas are left out of the sum but still counted
      in the divisor. An empty summary divides by zero; the exception is caught and shown
      as a message. */
  function AverageBeta(rows: seq<SummaryRow>): (r: Result<Float, string>)
    ensures r.Failure? <==> |rows| == 0
    ensures r.Failure? ==> r.error == ExcelError
    ensures r.Success? ==> r.value == RoundFloat(Div(SumFloats(PresentBetas(rows)), Finite(|rows| as real)))
  {
    if |rows| == 0 then Failure(ExcelError)
    else Success(RoundFloat(Div(SumFloats(PresentBetas(rows)), Finite(|rows| as real))))
  }

  /** The average of the non-missing betas, and no average when every beta is missing: the
      corrected average. */
  function MeanOfPresent(rows: seq<SummaryRow>): (r: Option<Float>)
    ensures r.None? <==> |PresentBetas(rows)| == 0
  {
    var bs := PresentBetas(rows);
    if |bs| == 0 then None
    else Some(RoundFloat(Div(SumFloats(bs), Finite(|bs| as real))))
  }

  /** A row without a beta leaves the corrected average unchanged. */
  lemma MeanIgnoresMissing(rows: seq<SummaryRow>, symbol: string)
    ensures MeanOfPresent(rows + [SummaryRow(symbol, None)]) == MeanOfPresent(rows)
  {
    var more := rows + [SummaryRow(symbol, None)];
    assert more[..|more| - 1] == rows;
    assert more[|more| - 1].beta.None?;
    assert PresentBetas(more) == PresentBetas(rows) + [];
    assert PresentBetas(more) == PresentBetas(rows);
  }

  /** When every present beta is the same number, the corrected average is that number,
      rounded, however many betas are missing. */
  lemma MeanOfEqualBetas(rows: seq<SummaryRow>, c: real)
    requires |PresentBetas(rows)| > 0
    requires forall b :: b in PresentBetas(rows) ==> b == Finite(c)
    ensures MeanOfPresent(rows) == Some(Finite(Round2(c)))
  {
    var bs := PresentBetas(rows);
    SumOfEqual(bs, c);
    DivideEqualSum(|bs| as real, c);
  }

  lemma DivideEqualSum(n: real, c: real)
    requires n > 0.0
    ensures Div(Finite(Times(n, c)), Finite(n)) == Finite(c)
  {
    assert n * c / n == c;
  }

  lemma {:induction false} SumOfEqual(bs: seq<Float>, c: real)
    requires forall b :: b in bs ==> b == Finite(c)
    ensures SumFloats(bs) == Finite(Times(|bs| as real, c))
  {
    if |bs| > 0 {
      var n := |bs| - 1;
      assert forall b :: b in bs[..n] ==> b in bs;
      assert bs[n] in bs;
      SumOfEqual(bs[..n], c);
      OneMore(n as real, c);
    }
  }

  lemma OneMore(n: real, c: real)
    ensures Times(n, c) + c == Times(n + 1.0, c)
  {
  }

  /** As written, a summary in which every beta is missing averages to 0.0: neither an
      error nor a missing value. */
  lemma AverageOfMissingBetas(rows: seq<SummaryRow>)
    requires |rows| > 0
    requires forall i :: 0 <= i < |rows| ==> rows[i].beta.None?
    ensures AverageBeta(rows) == Success(Finite(0.0))
  {
    NoPresentBetas(rows);
    assert 0.0 / |rows| as real == 0 as real / 100.0;
    Round2Exact(0);
  }

  /** With no beta missing, the average as written is the corrected one. */
  lemma AverageOfPresentBetas(rows: seq<SummaryRow>)
    requires |rows| > 0
    requires forall i :: 0 <= i < |rows| ==> rows[i].beta.Some?
    ensures AverageBeta(rows) == Success(MeanOfPresent(rows).value)
  {
    AllPresentBetas(rows);
  }

  /** As written, on finite betas: before rounding, the average is the corrected average
      (the mean of the present betas) times the share of rows that have a beta, so it
      differs from the corrected one whenever a beta is missing and the sum is not zero. */
  lemma AverageScaledByPresentShare(rows: seq<SummaryRow>)
    requires |PresentBetas(rows)| > 0
    requires forall i :: 0 <= i < |PresentBetas(rows)| ==> PresentBetas(rows)[i].Finite?
    ensures var bs := PresentBetas(rows);
      MeanOfPresent(rows) == Some(Finite(Round2(Sum(FiniteValues(bs)) / |bs| as real)))
    ensures var bs := PresentBetas(rows);
      Div(SumFloats(bs), Finite(|rows| as real)) ==
      Finite(Times(|bs| as real / |rows| as real, Sum(FiniteValues(bs)) / |bs| as real))
    ensures var bs := PresentBetas(rows);
      |bs| < |rows| && Sum(FiniteValues(bs)) != 0.0 ==>
      Sum(FiniteValues(bs)) / |rows| as real != Sum(FiniteValues(bs)) / |bs| as real
  {
    var bs := PresentBetas(rows);
    var t := Sum(FiniteValues(bs));
    SumOfFiniteBetas(bs);
    ShareOfMean(t, |bs| as real, |rows| as real);
    if |bs| < |rows| && t != 0.0 {
      DifferentDivisors(t, |bs| as real, |rows| as real);
    }
  }

  lemma ShareOfMean(t: real, p: real, n: real)
    requires p > 0.0 && n > 0.0
    ensures t / n == Times(p / n, t / p)
  {
    assert (p / n) * (t / p) == (p * t) / (n * p);
    assert (p * t) / (n * p) == t / n;
  }

  lemma DifferentDivisors(t: real, p: real, n: real)
    requires 0.0 < p < n && t != 0.0
    ensures t / n != t / p
  {
    assert t / p - t / n == t * (n - p) / (n * p);
    assert t * (n - p) != 0.0;
  }

  /** The Excel button calls for the average only when the results dictionary is not
      empty; then neither is the summary, so the division by zero cannot happen from the
      page. */
  lemma AverageReachedOnlyWithRows<N>(symbols: seq<string>, indexSymbol: string, download: Downloader,
                                       split: (seq<Row>, seq<Row>) -> N)
    requires |ResultsOf(symbols, indexSymbol, download, split)| > 0
    ensures |SummaryOf(symbols, indexSymbol, download)| > 0
    ensures AverageBeta(SummaryOf(symbols, indexSymbol, download)).Success?
  {
    var results := ResultsOf(symbols, indexSymbol, download, split);
    ResultsOfSpec(symbols, indexSymbol, download, split);
    var s := results[0].0;
    assert s == KeysOf(results)[0];
    assert Lookup(results, s).Some?;
    SummaryRows(symbols, indexSymbol, download);
    assert s in SymbolsOf(SummaryOf(symbols, indexSymbol, download));
  }

  /** The average as written: one row with beta 1.0 and one without give 0.5, where the
      corrected average gives 1.0. */
  lemma AverageCountsMissingRows()
    ensures AverageBeta([SummaryRow("A", Some(Finite(1.0))), SummaryRow("B", None)]) == Success(Finite(0.5))
    ensures MeanOfPresent([SummaryRow("A", Some(Finite(1.0))), SummaryRow("B", None)]) == Some(Finite(1.0))
  {
    var rows := [SummaryRow("A", Some(Finite(1.0))), SummaryRow("B", None)];
    assert rows[..1] == [SummaryRow("A", Some(Finite(1.0)))];
    assert rows[..1][..0] == [];
    assert PresentBetas(rows) == [Finite(1.0)];
    assert [Finite(1.0)][..0] == [];
    assert SumFloats([Finite(1.0)]) == Finite(1.0);
    Round2Exact(50);
    Round2Exact(100);
  }
}
