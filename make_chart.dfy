/**
 * The rolling maximum-drawdown screener: for each ticker, the deepest fall of
 * the price below its running maximum over the last `lookback_days` rows;
 * tickers whose fall reaches the threshold are ranked deepest first and cut
 * to `top_n`. Also the ticker-code list of the listing and the `tickers.txt`
 * contents.
 */
module MakeChart {
  import opened Wrappers
  import opened Text
  import opened Series
  import opened Frame
  import opened Ranking

  /** The defaults of `search_drawdown`, which `main` relies on. */
  const DefaultTopN: int := 20
  const DefaultLookbackDays: int := 252
  const DefaultThreshold: real := 0.3

  const RowKeys: seq<string> := ["daily_quotes", "data", "results"]
  const PriceAliases: seq<string> := ["Close", "EndPrice", "ClosePrice", "close", "endPrice"]
  const DateAliases: seq<string> := ["Date", "date", "BaseDate"]

  /** Every numeric cell under any price alias is positive. */
  predicate PositivePrices(resp: Response)
  {
    forall i :: 0 <= i < |PriceAliases| ==> PositiveReply(resp, PriceAliases[i])
  }

  /** The row list of a reply: `payload.get("daily_quotes") or payload.get("data") or payload.get("results") or []`. */
  function Rows(resp: Response): Table
    requires resp.Reply?
  {
    FirstNonEmpty(resp.body, RowKeys)
  }

  /**
   * The price series of one reply: the first non-empty row list, its first
   * price alias, sorted by its first date alias when there is one, cut to the
   * last `lookbackDays` rows, reduced to its numeric prices. A series is
   * produced exactly when a 200 reply has a price column with a numeric value
   * among those last rows; when the window covers every row, that is any
   * numeric price at all, and the series holds all of them.
   */
  function PriceSeries(resp: Response, lookbackDays: int): (r: Result<seq<real>, Skip>)
    ensures r == Err(RequestFailed) <==> resp.Raised? || resp.status != 200
    ensures r == Err(NoRows) <==> resp.Reply? && resp.status == 200 && Rows(resp) == []
    ensures r == Err(NoPriceColumn) <==>
      resp.Reply? && resp.status == 200 && Rows(resp) != [] && FirstPresent(Rows(resp), PriceAliases).None?
    ensures r.Ok? <==>
      && resp.Reply? && resp.status == 200 && FirstPresent(Rows(resp), PriceAliases).Some?
      && Numeric(Tail(OrderByDate(Rows(resp), DateAliases), lookbackDays), FirstPresent(Rows(resp), PriceAliases).value) != []
    ensures r.Ok? ==>
      r.value == Numeric(Tail(OrderByDate(Rows(resp), DateAliases), lookbackDays), FirstPresent(Rows(resp), PriceAliases).value)
    ensures resp.Reply? && resp.status == 200 && FirstPresent(Rows(resp), PriceAliases).Some? && lookbackDays >= |Rows(resp)| ==>
      && (r.Ok? <==> Numeric(Rows(resp), FirstPresent(Rows(resp), PriceAliases).value) != [])
      && (r.Ok? ==> multiset(r.value) == multiset(Numeric(Rows(resp), FirstPresent(Rows(resp), PriceAliases).value)))
    ensures r.Ok? ==> |r.value| > 0 && (lookbackDays >= 0 ==> |r.value| <= lookbackDays)
    ensures r.Ok? && PositivePrices(resp) ==> AllPositive(r.value)
  {
    if resp.Raised? || resp.status != 200 then Err(RequestFailed)
    else
      var rows := Rows(resp);
      if rows == [] then Err(NoRows)
      else
        match FirstPresent(rows, PriceAliases)
        case None => Err(NoPriceColumn)
        case Some(priceCol) =>
          var df := OrderByDate(rows, DateAliases);
          var prices := Numeric(Tail(df, lookbackDays), priceCol);
          assert lookbackDays >= |rows| ==> multiset(prices) == multiset(Numeric(rows, priceCol)) by {
            if lookbackDays >= |rows| {
              assert Tail(df, lookbackDays) == df;
              OrderByDateNumeric(rows, DateAliases, priceCol);
            }
          }
          if prices == [] then Err(NoPrices)
          else
            assert PositivePrices(resp) ==> AllPositive(prices) by {
              if PositivePrices(resp) {
                var a :| 0 <= a < |PriceAliases| && PriceAliases[a] == priceCol;
                assert PositiveReply(resp, PriceAliases[a]);
                PickedRowsPositive(resp, RowKeys, priceCol, FirstPresent(rows, DateAliases));
                TailPositive(df, lookbackDays, priceCol);
                NumericPositive(Tail(df, lookbackDays), priceCol);
              }
            }
            Ok(prices)
  }

  /** The larger of two prices. */
  function Larger(a: real, b: real): real
  {
    if b > a then b else a
  }

  /** `prices.cummax()`: at each point, the larger of the price and the previous running maximum. */
  function RunningMax(p: seq<real>): (m: seq<real>)
    ensures |m| == |p|
  {
    if p == [] then []
    else
      var n := |p| - 1;
      var m := RunningMax(p[..n]);
      m + [if n == 0 then p[n] else Larger(m[n - 1], p[n])]
  }

  /** The running maximum is at least the price at each point and never falls. */
  lemma {:induction false} RunningMaxBounds(p: seq<real>)
    ensures forall i :: 0 <= i < |p| ==> p[i] <= RunningMax(p)[i]
    ensures forall i, j :: 0 <= i < j < |p| ==> RunningMax(p)[i] <= RunningMax(p)[j]
  {
    if p != [] {
      var n := |p| - 1;
      RunningMaxBounds(p[..n]);
      var m := RunningMax(p[..n]);
      var r := RunningMax(p);
      assert forall i :: 0 <= i < n ==> r[i] == m[i] && p[..n][i] == p[i];
    }
  }

  /** For prices that never fall, the running maximum is the price itself. */
  lemma {:induction false} RunningMaxOfNonDecreasing(p: seq<real>)
    requires NonDecreasing(p)
    ensures RunningMax(p) == p
  {
    if p != [] {
      var n := |p| - 1;
      var q := p[..n];
      assert NonDecreasing(q) by {
        forall i, j | 0 <= i < j < |q| ensures q[i] <= q[j] {
          assert q[i] == p[i] && q[j] == p[j];
        }
      }
      RunningMaxOfNonDecreasing(q);
      var last := if n == 0 then p[n] else Larger(RunningMax(q)[n - 1], p[n]);
      assert RunningMax(p) == RunningMax(q) + [last];
      if n > 0 {
        assert RunningMax(q)[n - 1] == p[n - 1] <= p[n];
      }
      assert p == q + [p[n]];
    }
  }

  /** Each running maximum is one of the prices up to that point. */
  lemma {:induction false} RunningMaxIsAPrice(p: seq<real>)
    ensures forall i :: 0 <= i < |p| ==> exists k :: 0 <= k <= i && RunningMax(p)[i] == p[k]
  {
    if p != [] {
      var n := |p| - 1;
      var q := p[..n];
      RunningMaxIsAPrice(q);
      var m, mq := RunningMax(p), RunningMax(q);
      assert m == mq + [if n == 0 then p[n] else Larger(mq[n - 1], p[n])];
      forall i | 0 <= i < |p| ensures exists k :: 0 <= k <= i && m[i] == p[k] {
        if i < n {
          var k :| 0 <= k <= i && mq[i] == q[k];
          assert m[i] == mq[i] && q[k] == p[k];
        } else if n == 0 || p[n] > mq[n - 1] {
          assert m[i] == p[n];
        } else {
          var k :| 0 <= k <= n - 1 && mq[n - 1] == q[k];
          assert m[i] == mq[n - 1] && q[k] == p[k];
        }
      }
    }
  }

  /**
   * `cummax` is the largest price so far: at least every earlier price, and
   * equal to one of them.
   */
  lemma RunningMaxAttained(p: seq<real>)
    ensures forall i, k :: 0 <= k <= i < |p| ==> p[k] <= RunningMax(p)[i]
    ensures forall i :: 0 <= i < |p| ==> exists k :: 0 <= k <= i && RunningMax(p)[i] == p[k]
  {
    RunningMaxBounds(p);
    RunningMaxIsAPrice(p);
    var m := RunningMax(p);
    forall i, k | 0 <= k <= i < |p| ensures p[k] <= m[i] {
      assert p[k] <= m[k];
    }
  }

  /** `prices / roll_max - 1.0`: each point's fall below the running maximum, in (-1, 0]. */
  function Drawdowns(p: seq<real>): (d: seq<real>)
    requires AllPositive(p)
    ensures |d| == |p|
    ensures forall i :: 0 <= i < |p| ==> -1.0 < d[i] <= 0.0
    ensures forall i :: 0 <= i < |p| ==> (d[i] == 0.0 <==> p[i] == RunningMax(p)[i])
  {
    var m := RunningMax(p);
    RunningMaxBounds(p);
    var d := seq(|p|, i requires 0 <= i < |p| => p[i] / m[i] - 1.0);
    assert forall i :: 0 <= i < |p| ==> -1.0 < d[i] <= 0.0 && (d[i] == 0.0 <==> p[i] == m[i]) by {
      forall i | 0 <= i < |p| ensures -1.0 < d[i] <= 0.0 && (d[i] == 0.0 <==> p[i] == m[i]) {
        RatioBounds(p[i], m[i]);
      }
    }
    d
  }

  /**
   * `abs(drawdown_series.min())`: the deepest fall, in [0, 1) for positive
   * prices.
   */
  function MaxDrawdown(p: seq<real>): (r: real)
    requires |p| > 0 && AllPositive(p)
    ensures 0.0 <= r < 1.0
  {
    var mdd := Min(Drawdowns(p));
    if mdd < 0.0 then -mdd else mdd
  }

  /** There is no drawdown at all exactly when the prices never fall. */
  lemma MaxDrawdownZeroIff(p: seq<real>)
    requires |p| > 0 && AllPositive(p)
    ensures MaxDrawdown(p) == 0.0 <==> NonDecreasing(p)
  {
    var m := RunningMax(p);
    var d := Drawdowns(p);
    if NonDecreasing(p) {
      RunningMaxOfNonDecreasing(p);
      var k :| 0 <= k < |d| && d[k] == Min(d);
    } else {
      var i, j :| 0 <= i < j < |p| && p[i] > p[j];
      RunningMaxBounds(p);
      assert p[j] < m[j];
      assert d[j] < 0.0;
    }
  }

  /**
   * The maximum drawdown is the largest fall from an earlier price to a later
   * one, `1 - later / earlier`: no fall exceeds it, and some fall equals it.
   */
  lemma MaxDrawdownIsLargestFall(p: seq<real>)
    requires |p| > 0 && AllPositive(p)
    ensures forall i, j :: 0 <= i <= j < |p| ==> 1.0 - p[j] / p[i] <= MaxDrawdown(p)
    ensures exists i, j :: 0 <= i <= j < |p| && MaxDrawdown(p) == 1.0 - p[j] / p[i]
  {
    var m := RunningMax(p);
    var d := Drawdowns(p);
    RunningMaxAttained(p);
    assert forall j :: 0 <= j < |p| ==> d[j] == p[j] / m[j] - 1.0;
    assert MaxDrawdown(p) == -Min(d);
    forall i, j | 0 <= i <= j < |p| ensures 1.0 - p[j] / p[i] <= MaxDrawdown(p) {
      DivAntitone(p[j], p[i], m[j]);
      assert Min(d) <= d[j];
    }
    var j :| 0 <= j < |d| && d[j] == Min(d);
    var k :| 0 <= k <= j && m[j] == p[k];
    assert MaxDrawdown(p) == 1.0 - p[j] / p[k];
  }

  /** Every quotes reply the fetch can give has positive prices. */
  ghost predicate PositiveFetch(fetch: string -> Response)
  {
    forall code :: PositivePrices(fetch(code))
  }

  /** The maximum drawdown of one ticker, or why it was skipped. */
  function Assess(resp: Response, lookbackDays: int): (r: Result<real, Skip>)
    requires PositivePrices(resp)
    ensures r.Ok? <==> PriceSeries(resp, lookbackDays).Ok?
    ensures r.Ok? ==> r.value == MaxDrawdown(PriceSeries(resp, lookbackDays).value) && 0.0 <= r.value < 1.0
  {
    match PriceSeries(resp, lookbackDays)
    case Ok(p) => Ok(MaxDrawdown(p))
    case Err(e) => Err(e)
  }

  /**
   * Whether the loop keeps a ticker, and with which drawdown: its series
   * yields a maximum drawdown of at least `threshold`.
   */
  function Keep(fetch: string -> Response, lookbackDays: int, threshold: real): string -> Option<real>
    requires PositiveFetch(fetch)
  {
    code =>
      var a := Assess(fetch(code), lookbackDays);
      if a.Ok? && a.value >= threshold then Some(a.value) else None
  }

  /**
   * A ticker is kept exactly when its series yields a maximum drawdown of at
   * least `threshold`; it is kept with that drawdown, which lies in
   * [threshold, 1), of a non-empty series of at most `lookbackDays` prices.
   */
  lemma KeepMeans(fetch: string -> Response, lookbackDays: int, threshold: real, code: string)
    requires PositiveFetch(fetch)
    ensures var resp := fetch(code);
      && (Keep(fetch, lookbackDays, threshold)(code).Some? <==>
            PriceSeries(resp, lookbackDays).Ok? && MaxDrawdown(PriceSeries(resp, lookbackDays).value) >= threshold)
      && (Keep(fetch, lookbackDays, threshold)(code).Some? ==>
            && |PriceSeries(resp, lookbackDays).value| > 0
            && (lookbackDays >= 0 ==> |PriceSeries(resp, lookbackDays).value| <= lookbackDays)
            && Keep(fetch, lookbackDays, threshold)(code).value == MaxDrawdown(PriceSeries(resp, lookbackDays).value)
            && threshold <= Keep(fetch, lookbackDays, threshold)(code).value < 1.0)
  {
  }

  /**
   * `search_drawdown`: the loop over the tickers, with the two alias-search
   * loops, skipping each ticker whose request, rows, price column or prices
   * fail, followed by the descending sort and the cut to `top_n`.
   */
  method SearchDrawdown(tickers: seq<string>, fetch: string -> Response, topN: int, lookbackDays: int, threshold: real)
    returns (codes: seq<string>)
    requires PositiveFetch(fetch)
    ensures codes == Codes(Ranked(tickers, Keep(fetch, lookbackDays, threshold), true, topN))
    ensures topN >= 0 ==> |codes| <= topN
  {
    ghost var keep := Keep(fetch, lookbackDays, threshold);
    var results: seq<Scored> := [];
    for i := 0 to |tickers|
      invariant results == Retained(tickers[..i], keep)
    {
      assert tickers[..i + 1][..i] == tickers[..i];
      var code := tickers[i];
      var resp := fetch(code);
      if resp.Raised? || resp.status != 200 {
        assert keep(code).None?;
        continue;
      }
      var rows := FirstNonEmpty(resp.body, RowKeys);
      if rows == [] {
        assert keep(code).None?;
        continue;
      }
      var df := rows;
      var priceCol := ResolveColumn(df, PriceAliases);
      if priceCol.None? {
        assert keep(code).None?;
        continue;
      }
      var dateCol := ResolveColumn(df, DateAliases);
      if dateCol.Some? {
        df := SortByDate(df, dateCol.value);
      }
      assert df == OrderByDate(rows, DateAliases);
      df := Tail(df, lookbackDays);
      var prices := Numeric(df, priceCol.value);
      if prices == [] {
        assert PriceSeries(resp, lookbackDays) == Err(NoPrices);
        assert keep(code).None?;
        continue;
      }
      assert PriceSeries(resp, lookbackDays) == Ok(prices);
      var mddAbs := MaxDrawdown(prices);
      assert Assess(resp, lookbackDays) == Ok(mddAbs);
      if mddAbs >= threshold {
        results := results + [Scored(code, mddAbs)];
      } else {
        assert keep(code).None?;
      }
    }
    assert tickers[..|tickers|] == tickers;
    results := StableSort(results, true);
    codes := Codes(SliceTo(results, topN));
  }

  /**
   * The call in `main`: `search_drawdown` with its default `top_n` (20),
   * `lookback_days` (252) and `threshold` (0.3).
   */
  method SearchDrawdownWithDefaults(tickers: seq<string>, fetch: string -> Response) returns (codes: seq<string>)
    requires PositiveFetch(fetch)
    ensures codes == Codes(Ranked(tickers, Keep(fetch, DefaultLookbackDays, DefaultThreshold), true, DefaultTopN))
    ensures |codes| <= 20
  {
    codes := SearchDrawdown(tickers, fetch, DefaultTopN, DefaultLookbackDays, DefaultThreshold);
  }

  /**
   * The screen's result: deepest drawdown first, at most `top_n` long, and
   * made only of listed tickers that had a non-empty series of at most
   * `lookback_days` prices and a maximum drawdown in [threshold, 1).
   */
  lemma ScreenSound(tickers: seq<string>, fetch: string -> Response, topN: int, lookbackDays: int, threshold: real)
    requires PositiveFetch(fetch)
    ensures var r := Ranked(tickers, Keep(fetch, lookbackDays, threshold), true, topN);
      && Sorted(r, true)
      && (topN >= 0 ==> |r| <= topN)
      && forall i :: 0 <= i < |r| ==>
           && r[i].code in tickers
           && PriceSeries(fetch(r[i].code), lookbackDays).Ok?
           && (lookbackDays >= 0 ==> |PriceSeries(fetch(r[i].code), lookbackDays).value| <= lookbackDays)
           && r[i].score == MaxDrawdown(PriceSeries(fetch(r[i].code), lookbackDays).value)
           && threshold <= r[i].score < 1.0
  {
    var keep := Keep(fetch, lookbackDays, threshold);
    RankedSpec(tickers, keep, true, topN);
  }

  /**
   * With room for every ticker, each listed ticker whose series has a maximum
   * drawdown of at least `threshold` is in the result.
   */
  lemma ScreenComplete(tickers: seq<string>, fetch: string -> Response, topN: int, lookbackDays: int, threshold: real,
                       code: string)
    requires PositiveFetch(fetch)
    requires code in tickers && topN >= |tickers|
    requires PriceSeries(fetch(code), lookbackDays).Ok?
    requires MaxDrawdown(PriceSeries(fetch(code), lookbackDays).value) >= threshold
    ensures code in Codes(Ranked(tickers, Keep(fetch, lookbackDays, threshold), true, topN))
  {
    KeepMeans(fetch, lookbackDays, threshold, code);
    RankedComplete(tickers, Keep(fetch, lookbackDays, threshold), true, topN, code);
  }

  /**
   * `get_all_tickers`: the `Code` of every listing record, in listing order;
   * a record without a `Code` raises, which is `None` here.
   */
  function AllTickers(infos: seq<Info>): (r: Option<seq<string>>)
    ensures r.Some? <==> forall i :: 0 <= i < |infos| ==> "Code" in infos[i]
    ensures r.Some? ==> |r.value| == |infos| && forall i :: 0 <= i < |infos| ==> r.value[i] == infos[i]["Code"]
  {
    if infos == [] then Some([])
    else if "Code" !in infos[0] then None
    else
      var rest := AllTickers(infos[1..]);
      assert forall i :: 1 <= i < |infos| ==> infos[1..][i - 1] == infos[i];
      if rest.None? then None else Some([infos[0]["Code"]] + rest.value)
  }

  /** The contents written to `tickers.txt`: the codes joined by newlines, none trailing. */
  function TickerFile(codes: seq<string>): string
  {
    Join(codes, '\n')
  }

  /** `tickers.txt` reads back as the code list; no codes give an empty file. */
  lemma TickerFileReadsBack(codes: seq<string>)
    requires forall i :: 0 <= i < |codes| ==> '\n' !in codes[i]
    ensures codes == [] ==> TickerFile(codes) == ""
    ensures codes != [] ==> Split(TickerFile(codes), '\n') == codes
  {
    if codes != [] {
      SplitJoin(codes, '\n');
    }
  }
}
