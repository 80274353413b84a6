/**
 * The current-versus-peak drawdown screener: for each ticker, the latest
 * adjusted close divided by the highest adjusted close in the window; tickers
 * at or below the threshold are ranked ascending and cut to `top_n`. Also the
 * request window, the refresh-token check and the `code,name` result file.
 */
module StockSearch {
  import opened Wrappers
  import opened Text
  import opened Series
  import opened Frame
  import opened Ranking
  import Config

  /** The free plan publishes quotes twelve weeks late. */
  const DelayDays: int := 12 * 7
  /** Fewer numeric prices than this and the ticker is skipped. */
  const MinPoints: nat := 30
  const QuoteKeys: seq<string> := ["daily_quotes", "data", "quotes"]
  const DateAliases: seq<string> := ["Date", "date"]
  const PriceColumn: string := "AdjustmentClose"

  /** The `from`/`to` request parameters, as day numbers. */
  datatype Window = Window(from: int, to: int)

  /**
   * The requested window ends `DelayDays` before `today` and spans exactly
   * `lookbackDays` days.
   */
  function RequestWindow(today: int, lookbackDays: int): (w: Window)
    ensures w.to == today - DelayDays
    ensures w.to - w.from == lookbackDays
  {
    Window(today - (lookbackDays + DelayDays), today - DelayDays)
  }

  /** `raise_for_status()` raises for client and server errors only. */
  predicate RaisesForStatus(status: int)
  {
    400 <= status < 600
  }

  /** The row list of a reply: `payload.get("daily_quotes") or payload.get("data") or payload.get("quotes") or []`. */
  function Quotes(resp: Response): Table
    requires resp.Reply?
  {
    FirstNonEmpty(resp.body, QuoteKeys)
  }

  /**
   * The price series of one reply: the first non-empty row list, sorted by
   * `Date` (else `date`) when such a column exists, reduced to its numeric
   * `AdjustmentClose` values, and required to hold at least `MinPoints` of them.
   * A series is produced exactly when the reply succeeded and its rows hold
   * at least `MinPoints` numeric prices, whatever other cells they hold; the
   * series is those prices, in the order of the rows sorted by date, and in
   * received order when the rows have no date column.
   */
  function PriceSeries(resp: Response): (r: Result<seq<real>, Skip>)
    ensures r == Err(RequestFailed) <==> resp.Raised? || RaisesForStatus(resp.status)
    ensures r == Err(NoRows) <==> resp.Reply? && !RaisesForStatus(resp.status) && Quotes(resp) == []
    ensures r == Err(NoPriceColumn) <==>
      resp.Reply? && !RaisesForStatus(resp.status) && Quotes(resp) != [] && !HasColumn(Quotes(resp), PriceColumn)
    ensures r.Ok? <==>
      resp.Reply? && !RaisesForStatus(resp.status) && |Numeric(Quotes(resp), PriceColumn)| >= MinPoints
    ensures r.Ok? ==> multiset(r.value) == multiset(Numeric(Quotes(resp), PriceColumn))
    ensures r.Ok? ==> r.value == Numeric(OrderByDate(Quotes(resp), DateAliases), PriceColumn)
    ensures r.Ok? && FirstPresent(Quotes(resp), DateAliases).None? ==> r.value == Numeric(Quotes(resp), PriceColumn)
    ensures r.Ok? ==> |r.value| >= MinPoints
    ensures r.Ok? && PositiveReply(resp, PriceColumn) ==> AllPositive(r.value)
  {
    if resp.Raised? || RaisesForStatus(resp.status) then Err(RequestFailed)
    else
      var quotes := Quotes(resp);
      if quotes == [] then Err(NoRows)
      else
        var df := OrderByDate(quotes, DateAliases);
        OrderByDateNumeric(quotes, DateAliases, PriceColumn);
        if !HasColumn(df, PriceColumn) then Err(NoPriceColumn)
        else
          var s := Numeric(df, PriceColumn);
          if |s| < MinPoints then Err(TooFewPrices)
          else
            assert PositiveReply(resp, PriceColumn) ==> AllPositive(s) by {
              if PositiveReply(resp, PriceColumn) {
                PickedRowsPositive(resp, QuoteKeys, PriceColumn, FirstPresent(quotes, DateAliases));
                NumericPositive(df, PriceColumn);
              }
            }
            Ok(s)
  }

  /**
   * `current_dd = current_price / peak_price`: in (0, 1] for positive prices,
   * and exactly 1 when the latest price is the peak.
   */
  function Ratio(s: seq<real>): (r: real)
    requires |s| > 0 && AllPositive(s)
    ensures 0.0 < r <= 1.0
    ensures r == 1.0 <==> Last(s) == Max(s)
  {
    var peak, current := Max(s), Last(s);
    RatioBounds(current, peak);
    current / peak
  }

  /** The ratio of one ticker, or why it was skipped. */
  function Assess(resp: Response): (r: Result<real, Skip>)
    requires PositiveReply(resp, PriceColumn)
    ensures r.Ok? <==> PriceSeries(resp).Ok?
    ensures r.Ok? ==> r.value == Ratio(PriceSeries(resp).value) && 0.0 < r.value <= 1.0
  {
    match PriceSeries(resp)
    case Ok(s) => Ok(Ratio(s))
    case Err(e) => Err(e)
  }

  /** Every quotes reply the fetch can give for this window has positive prices. */
  ghost predicate PositiveFetch(fetch: (string, int, int) -> Response, w: Window)
  {
    forall code :: PositiveReply(fetch(code, w.from, w.to), PriceColumn)
  }

  /**
   * Whether the loop keeps a ticker, and with which ratio: its series yields
   * a ratio at or below `threshold`.
   */
  function Keep(fetch: (string, int, int) -> Response, w: Window, threshold: real): string -> Option<real>
    requires PositiveFetch(fetch, w)
  {
    code =>
      var a := Assess(fetch(code, w.from, w.to));
      if a.Ok? && a.value <= threshold then Some(a.value) else None
  }

  /**
   * A kept ticker had at least `MinPoints` numeric prices, and is kept with
   * their last-over-peak ratio, which lies in (0, threshold]. A ticker whose
   * ratio is at or below the threshold is kept.
   */
  lemma KeepMeans(fetch: (string, int, int) -> Response, w: Window, threshold: real, code: string)
    requires PositiveFetch(fetch, w)
    ensures var resp := fetch(code, w.from, w.to);
      && (Keep(fetch, w, threshold)(code).Some? <==>
            PriceSeries(resp).Ok? && Ratio(PriceSeries(resp).value) <= threshold)
      && (Keep(fetch, w, threshold)(code).Some? ==>
            && |PriceSeries(resp).value| >= MinPoints
            && Keep(fetch, w, threshold)(code).value == Ratio(PriceSeries(resp).value)
            && 0.0 < Keep(fetch, w, threshold)(code).value <= threshold)
  {
  }

  /**
   * `search_drawdown`: the loop over the tickers, skipping each one whose
   * request, rows, price column or series length fails, followed by the
   * ascending sort and the cut to `top_n`.
   */
  method SearchDrawdown(tickers: seq<string>, fetch: (string, int, int) -> Response, today: int,
                        lookbackDays: int, threshold: real, topN: int) returns (codes: seq<string>)
    requires PositiveFetch(fetch, RequestWindow(today, lookbackDays))
    ensures codes == Codes(Ranked(tickers, Keep(fetch, RequestWindow(today, lookbackDays), threshold), false, topN))
    ensures topN >= 0 ==> |codes| <= topN
  {
    var w := RequestWindow(today, lookbackDays);
    ghost var keep := Keep(fetch, w, threshold);
    var results: seq<Scored> := [];
    for i := 0 to |tickers|
      invariant results == Retained(tickers[..i], keep)
    {
      assert tickers[..i + 1][..i] == tickers[..i];
      var code := tickers[i];
      var resp := fetch(code, w.from, w.to);
      if resp.Raised? || RaisesForStatus(resp.status) {
        assert keep(code).None?;
        continue;
      }
      var quotes := FirstNonEmpty(resp.body, QuoteKeys);
      if quotes == [] {
        assert keep(code).None?;
        continue;
      }
      var df := quotes;
      var dateCol := FirstPresent(df, DateAliases);
      if dateCol.Some? {
        df := SortByDate(df, dateCol.value);
      }
      assert df == OrderByDate(quotes, DateAliases);
      if !HasColumn(df, PriceColumn) {
        assert PriceSeries(resp) == Err(NoPriceColumn);
        assert keep(code).None?;
        continue;
      }
      var s := Numeric(df, PriceColumn);
      if |s| < MinPoints {
        assert PriceSeries(resp) == Err(TooFewPrices);
        assert keep(code).None?;
        continue;
      }
      assert PriceSeries(resp) == Ok(s);
      var peak := Max(s);
      var current := Last(s);
      var currentDd := current / peak;
      assert Assess(resp) == Ok(currentDd);
      if currentDd <= threshold {
        results := results + [Scored(code, currentDd)];
      } else {
        assert keep(code).None?;
      }
    }
    assert tickers[..|tickers|] == tickers;
    results := StableSort(results, false);
    codes := Codes(SliceTo(results, topN));
  }

  /**
   * The screen's result: ascending by ratio, at most `top_n` long, and made
   * only of listed tickers that had at least `MinPoints` prices and a ratio in
   * (0, threshold].
   */
  lemma ScreenSound(tickers: seq<string>, fetch: (string, int, int) -> Response, w: Window, threshold: real, topN: int)
    requires PositiveFetch(fetch, w)
    ensures var r := Ranked(tickers, Keep(fetch, w, threshold), false, topN);
      && Sorted(r, false)
      && (topN >= 0 ==> |r| <= topN)
      && forall i :: 0 <= i < |r| ==>
           && r[i].code in tickers
           && PriceSeries(fetch(r[i].code, w.from, w.to)).Ok?
           && |PriceSeries(fetch(r[i].code, w.from, w.to)).value| >= MinPoints
           && r[i].score == Ratio(PriceSeries(fetch(r[i].code, w.from, w.to)).value)
           && 0.0 < r[i].score <= threshold
  {
    var keep := Keep(fetch, w, threshold);
    RankedSpec(tickers, keep, false, topN);
    var r := Ranked(tickers, keep, false, topN);
    forall i | 0 <= i < |r|
      ensures && PriceSeries(fetch(r[i].code, w.from, w.to)).Ok?
              && |PriceSeries(fetch(r[i].code, w.from, w.to)).value| >= MinPoints
              && r[i].score == Ratio(PriceSeries(fetch(r[i].code, w.from, w.to)).value)
              && 0.0 < r[i].score <= threshold
    {
      KeepMeans(fetch, w, threshold, r[i].code);
    }
  }

  /**
   * With room for every ticker, each listed ticker with at least `MinPoints`
   * prices and a ratio at or below `threshold` is in the result.
   */
  lemma ScreenComplete(tickers: seq<string>, fetch: (string, int, int) -> Response, w: Window, threshold: real,
                       topN: int, code: string)
    requires PositiveFetch(fetch, w)
    requires code in tickers && topN >= |tickers|
    requires PriceSeries(fetch(code, w.from, w.to)).Ok?
    requires Ratio(PriceSeries(fetch(code, w.from, w.to)).value) <= threshold
    ensures code in Codes(Ranked(tickers, Keep(fetch, w, threshold), false, topN))
  {
    KeepMeans(fetch, w, threshold, code);
    RankedComplete(tickers, Keep(fetch, w, threshold), false, topN, code);
  }

  /**
   * Three tickers whose ratios are 0.9, 0.4 and 0.3, screened with threshold
   * 0.5 and `top_n` 2: the result is the two lowest-ratio tickers, lowest first.
   */
  lemma ThreeTickerExample(fetch: (string, int, int) -> Response, w: Window, a: string, b: string, c: string)
    requires PositiveFetch(fetch, w)
    requires Assess(fetch(a, w.from, w.to)) == Ok(0.9)
    requires Assess(fetch(b, w.from, w.to)) == Ok(0.4)
    requires Assess(fetch(c, w.from, w.to)) == Ok(0.3)
    ensures Codes(Ranked([a, b, c], Keep(fetch, w, 0.5), false, 2)) == [c, b]
  {
    var keep := Keep(fetch, w, 0.5);
    assert keep(a) == None && keep(b) == Some(0.4) && keep(c) == Some(0.3);
    ThreeKept(a, b, c, keep);
  }

  lemma ThreeKept(a: string, b: string, c: string, keep: string -> Option<real>)
    requires keep(a) == None && keep(b) == Some(0.4) && keep(c) == Some(0.3)
    ensures Codes(Ranked([a, b, c], keep, false, 2)) == [c, b]
  {
    assert [a, b, c][..2] == [a, b] && [a, b][..1] == [a] && [a][..0] == [];
    assert Retained([a], keep) == [];
    assert Retained([a, b], keep) == [Scored(b, 0.4)];
    assert Retained([a, b, c], keep) == [Scored(b, 0.4), Scored(c, 0.3)];
    assert StableSort([Scored(c, 0.3)], false) == [Scored(c, 0.3)];
    assert StableSort([Scored(b, 0.4), Scored(c, 0.3)], false) == [Scored(c, 0.3), Scored(b, 0.4)];
  }

  /**
   * The refresh-token check in `main`: the configured value must be a string
   * with something besides whitespace; the token used is that string stripped.
   */
  function RefreshToken(v: Config.Value): (r: Option<string>)
    ensures r.Some? <==> v.Str? && exists i :: 0 <= i < |v.s| && !IsSpace(v.s[i])
    ensures r.Some? ==> r.value == Strip(v.s) && r.value != "" && Strip(r.value) == r.value
  {
    if v.Str? then
      StripEmptyIff(v.s);
      StripIdempotent(v.s);
      if Strip(v.s) != "" then Some(Strip(v.s)) else None
    else None
  }

  /** `info.get("CompanyName") or info.get("CompanyNameEnglish") or ""`. */
  function DisplayName(info: Info): (name: string)
    ensures "CompanyName" in info && info["CompanyName"] != "" ==> name == info["CompanyName"]
    ensures !("CompanyName" in info && info["CompanyName"] != "") ==>
      name == if "CompanyNameEnglish" in info then info["CompanyNameEnglish"] else ""
  {
    if "CompanyName" in info && info["CompanyName"] != "" then info["CompanyName"]
    else if "CompanyNameEnglish" in info then info["CompanyNameEnglish"]
    else ""
  }

  predicate HaveCodes(infos: seq<Info>)
  {
    forall i :: 0 <= i < |infos| ==> "Code" in infos[i]
  }

  /** The `code_to_name` comprehension: one entry per listed code; later records overwrite earlier ones. */
  function CodeToName(infos: seq<Info>): (m: map<string, string>)
    requires HaveCodes(infos)
    ensures forall c :: c in m <==> exists i :: 0 <= i < |infos| && infos[i]["Code"] == c
  {
    if infos == [] then map[]
    else
      var n := |infos| - 1;
      var m := CodeToName(infos[..n]);
      assert forall i :: 0 <= i < n ==> infos[..n][i] == infos[i];
      m[infos[n]["Code"] := DisplayName(infos[n])]
  }

  /** The name a code maps to is that of the LAST record listing the code. */
  lemma {:induction false} CodeToNameLastWins(infos: seq<Info>, j: nat)
    requires HaveCodes(infos)
    requires j < |infos|
    requires forall k :: j < k < |infos| ==> infos[k]["Code"] != infos[j]["Code"]
    ensures CodeToName(infos)[infos[j]["Code"]] == DisplayName(infos[j])
  {
    var n := |infos| - 1;
    if j < n {
      assert infos[..n][j] == infos[j];
      CodeToNameLastWins(infos[..n], j);
    }
  }

  /** `code_to_name.get(code, "")`. */
  function NameOf(infos: seq<Info>, code: string): string
    requires HaveCodes(infos)
  {
    var m := CodeToName(infos);
    if code in m then m[code] else ""
  }

  /** The `lines` comprehension: `code,name` for each result, in result order. */
  function ResultLines(codes: seq<string>, infos: seq<Info>): (lines: seq<string>)
    requires HaveCodes(infos)
    ensures |lines| == |codes|
    ensures forall i :: 0 <= i < |codes| ==> lines[i] == codes[i] + "," + NameOf(infos, codes[i])
  {
    seq(|codes|, i requires 0 <= i < |codes| => codes[i] + "," + NameOf(infos, codes[i]))
  }

  /** The contents written to `search_result.txt`: the lines joined by newlines, none trailing. */
  function ResultText(codes: seq<string>, infos: seq<Info>): string
    requires HaveCodes(infos)
  {
    Join(ResultLines(codes, infos), '\n')
  }

  /**
   * The result file reads back: splitting it on newlines gives one line per
   * result in order, and the text before the first comma of each line is its
   * code. No results give an empty file.
   */
  lemma ResultTextReadsBack(codes: seq<string>, infos: seq<Info>)
    requires HaveCodes(infos)
    requires forall i :: 0 <= i < |codes| ==> '\n' !in codes[i] && ',' !in codes[i] && '\n' !in NameOf(infos, codes[i])
    ensures codes == [] ==> ResultText(codes, infos) == ""
    ensures codes != [] ==> Split(ResultText(codes, infos), '\n') == ResultLines(codes, infos)
    ensures forall i :: 0 <= i < |codes| ==> Split(ResultLines(codes, infos)[i], ',')[0] == codes[i]
  {
    var lines := ResultLines(codes, infos);
    forall i | 0 <= i < |codes|
      ensures '\n' !in lines[i] && Split(lines[i], ',')[0] == codes[i]
    {
      SplitCons(codes[i], NameOf(infos, codes[i]), ',');
      assert lines[i] == codes[i] + [','] + NameOf(infos, codes[i]);
    }
    if codes != [] {
      SplitJoin(lines, '\n');
    }
  }
}
