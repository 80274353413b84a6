/**
 * The shape both screeners share: a loop that visits the tickers in order and
 * appends `(code, metric)` for each one it keeps, then Python's stable
 * `list.sort(key=...)` (ascending or with `reverse=True`) and the slice
 * `results[:top_n]`. What a ticker is kept with is the screener's business and
 * is given here as a function from code to an optional metric.
 */
module Ranking {
  import opened Wrappers

  /** A retained ticker with the metric it is ranked by. */
  datatype Scored = Scored(code: string, score: real)

  /** `a` may stand before `b` in the requested direction. */
  predicate Before(a: real, b: real, descending: bool)
  {
    if descending then a >= b else a <= b
  }

  predicate Sorted(s: seq<Scored>, descending: bool)
  {
    forall i, j :: 0 <= i < j < |s| ==> Before(s[i].score, s[j].score, descending)
  }

  /** The entries whose metric equals `k`, in the order they appear in `s`. */
  function WithScore(s: seq<Scored>, k: real): (r: seq<Scored>)
    ensures |r| <= |s|
  {
    if s == [] then []
    else (if s[0].score == k then [s[0]] else []) + WithScore(s[1..], k)
  }

  lemma {:induction false} WithScoreAppend(a: seq<Scored>, b: seq<Scored>, k: real)
    ensures WithScore(a + b, k) == WithScore(a, k) + WithScore(b, k)
  {
    if a != [] {
      assert (a + b)[1..] == a[1..] + b;
      WithScoreAppend(a[1..], b, k);
    } else {
      assert a + b == b;
    }
  }

  /** Places `x` in front of the first entry it may stand before. */
  function Insert(x: Scored, s: seq<Scored>, descending: bool): (r: seq<Scored>)
    ensures multiset(r) == multiset(s) + multiset{x}
  {
    if s == [] || Before(x.score, s[0].score, descending) then [x] + s
    else
      assert s == [s[0]] + s[1..];
      [s[0]] + Insert(x, s[1..], descending)
  }

  lemma {:induction false} InsertSorted(x: Scored, s: seq<Scored>, descending: bool)
    requires Sorted(s, descending)
    ensures Sorted(Insert(x, s, descending), descending)
  {
    if s != [] && !Before(x.score, s[0].score, descending) {
      InsertSorted(x, s[1..], descending);
      var t := Insert(x, s[1..], descending);
      forall j | 0 <= j < |t|
        ensures Before(s[0].score, t[j].score, descending)
      {
        assert t[j] in multiset(t);
        if t[j] != x {
          assert t[j] in multiset(s[1..]);
          var m :| 0 <= m < |s[1..]| && s[1..][m] == t[j];
          assert s[1..][m] == s[m + 1];
        }
      }
    }
  }

  /**
   * `results.sort(key=score, reverse=descending)`: an insertion sort that puts
   * each entry in front of the later entries with the same metric.
   */
  function StableSort(s: seq<Scored>, descending: bool): (r: seq<Scored>)
    ensures multiset(r) == multiset(s)
    ensures |r| == |s|
    ensures Sorted(r, descending)
  {
    if s == [] then []
    else
      assert s == [s[0]] + s[1..];
      var t := StableSort(s[1..], descending);
      InsertSorted(s[0], t, descending);
      Insert(s[0], t, descending)
  }

  lemma {:induction false} InsertStable(x: Scored, s: seq<Scored>, descending: bool, k: real)
    ensures WithScore(Insert(x, s, descending), k) == WithScore([x], k) + WithScore(s, k)
  {
    if s == [] || Before(x.score, s[0].score, descending) {
      WithScoreAppend([x], s, k);
    } else {
      var t := Insert(x, s[1..], descending);
      InsertStable(x, s[1..], descending, k);
      WithScoreAppend([s[0]], t, k);
      WithScoreAppend([s[0]], s[1..], k);
      assert [s[0]] + s[1..] == s;
    }
  }

  /**
   * Stability: entries with equal metric keep their encounter order, which is
   * what Python's sort promises with and without `reverse=True`.
   */
  lemma {:induction false} StableSortStable(s: seq<Scored>, descending: bool, k: real)
    ensures WithScore(StableSort(s, descending), k) == WithScore(s, k)
  {
    if s != [] {
      StableSortStable(s[1..], descending, k);
      InsertStable(s[0], StableSort(s[1..], descending), descending, k);
      WithScoreAppend([s[0]], s[1..], k);
      assert [s[0]] + s[1..] == s;
    }
  }

  /**
   * `s[:n]`, Python's slice: the first `n` entries for `n >= 0`, all but the
   * last `-n` entries for a negative `n`.
   */
  function SliceTo<T>(s: seq<T>, n: int): (r: seq<T>)
    ensures |r| <= |s| && r == s[..|r|]
    ensures n >= 0 ==> |r| == if n <= |s| then n else |s|
    ensures n < 0 ==> |r| == if -n <= |s| then |s| + n else 0
  {
    if n >= 0 then (if n <= |s| then s[..n] else s)
    else if -n <= |s| then s[..|s| + n]
    else []
  }

  /** The codes of a ranking, in ranking order. */
  function Codes(s: seq<Scored>): (codes: seq<string>)
    ensures |codes| == |s|
    ensures forall i :: 0 <= i < |s| ==> codes[i] == s[i].code
  {
    seq(|s|, i requires 0 <= i < |s| => s[i].code)
  }

  /** What one ticker adds to `results`: its metric when it is kept, nothing otherwise. */
  function Contribution(code: string, keep: string -> Option<real>): (r: seq<Scored>)
    ensures |r| <= 1
    ensures r != [] <==> keep(code).Some?
    ensures r != [] ==> r[0] == Scored(code, keep(code).value)
  {
    if keep(code).Some? then [Scored(code, keep(code).value)] else []
  }

  /** `results` after the loop has visited `tickers`: the kept ones, in encounter order. */
  function Retained(tickers: seq<string>, keep: string -> Option<real>): (r: seq<Scored>)
    ensures |r| <= |tickers|
  {
    if tickers == [] then []
    else
      var n := |tickers| - 1;
      Retained(tickers[..n], keep) + Contribution(tickers[n], keep)
  }

  /** `results` sorted stably in the requested direction and cut to `results[:top_n]`. */
  function Ranked(tickers: seq<string>, keep: string -> Option<real>, descending: bool, topN: int): seq<Scored>
  {
    SliceTo(StableSort(Retained(tickers, keep), descending), topN)
  }

  /** Tickers are processed independently: the retained list of a concatenation is the concatenation. */
  lemma {:induction false} RetainedAppend(a: seq<string>, b: seq<string>, keep: string -> Option<real>)
    ensures Retained(a + b, keep) == Retained(a, keep) + Retained(b, keep)
    decreases |b|
  {
    if b == [] {
      assert a + b == a;
    } else {
      var n := |b| - 1;
      assert (a + b)[..|a + b| - 1] == a + b[..n];
      RetainedAppend(a, b[..n], keep);
    }
  }

  /**
   * Failure isolation: a ticker that is not kept, for whatever reason, drops
   * out and changes nothing about the tickers before or after it.
   */
  lemma FailureIsolated(a: seq<string>, code: string, b: seq<string>, keep: string -> Option<real>)
    requires keep(code).None?
    ensures Retained(a + [code] + b, keep) == Retained(a, keep) + Retained(b, keep)
  {
    assert Retained([code], keep) == [] by {
      assert [code][..0] == [];
    }
    RetainedAppend(a, [code], keep);
    RetainedAppend(a + [code], b, keep);
  }

  /** An entry is retained exactly when its code is among the tickers and is kept with that metric. */
  lemma {:induction false} RetainedMembers(tickers: seq<string>, keep: string -> Option<real>, x: Scored)
    ensures x in Retained(tickers, keep) <==> x.code in tickers && keep(x.code) == Some(x.score)
  {
    if tickers != [] {
      var n := |tickers| - 1;
      RetainedMembers(tickers[..n], keep, x);
      assert tickers == tickers[..n] + [tickers[n]];
    }
  }

  /**
   * The ranking is sorted in the requested direction, at most `top_n` long,
   * a prefix of the whole sorted retained list, made only of kept tickers,
   * and holds every kept ticker when `top_n` leaves room for all of them.
   */
  lemma RankedSpec(tickers: seq<string>, keep: string -> Option<real>, descending: bool, topN: int)
    ensures var r := Ranked(tickers, keep, descending, topN);
      && Sorted(r, descending)
      && (topN >= 0 ==> |r| <= topN)
      && r == StableSort(Retained(tickers, keep), descending)[..|r|]
      && (forall i :: 0 <= i < |r| ==> r[i].code in tickers && keep(r[i].code) == Some(r[i].score))
      && (topN >= |Retained(tickers, keep)| ==> multiset(r) == multiset(Retained(tickers, keep)))
  {
    var all := Retained(tickers, keep);
    var sorted := StableSort(all, descending);
    var r := Ranked(tickers, keep, descending, topN);
    forall i | 0 <= i < |r|
      ensures r[i].code in tickers && keep(r[i].code) == Some(r[i].score)
    {
      assert r[i] == sorted[i];
      assert sorted[i] in multiset(all);
      RetainedMembers(tickers, keep, r[i]);
    }
    if topN >= |all| {
      assert r == sorted;
    }
  }

  /** With room for every ticker, each kept ticker appears in the result. */
  lemma RankedComplete(tickers: seq<string>, keep: string -> Option<real>, descending: bool, topN: int, code: string)
    requires code in tickers && keep(code).Some?
    requires topN >= |tickers|
    ensures code in Codes(Ranked(tickers, keep, descending, topN))
  {
    var x := Scored(code, keep(code).value);
    RetainedMembers(tickers, keep, x);
    RankedSpec(tickers, keep, descending, topN);
    var r := Ranked(tickers, keep, descending, topN);
    assert x in multiset(r);
    var k :| 0 <= k < |r| && r[k] == x;
    assert Codes(r)[k] == code;
  }

  /** Ties keep the order in which the tickers were encountered. */
  lemma RankedTiesInEncounterOrder(tickers: seq<string>, keep: string -> Option<real>, descending: bool, k: real)
    ensures WithScore(StableSort(Retained(tickers, keep), descending), k) == WithScore(Retained(tickers, keep), k)
  {
    StableSortStable(Retained(tickers, keep), descending, k);
  }
}
