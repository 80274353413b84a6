/**
 * The slice of pandas and of the HTTP reply that the two screeners use: a
 * DataFrame is the list of row objects it was built from, a row maps column
 * names to cells, and `pd.to_numeric(errors="coerce").dropna()` keeps the
 * numeric cells of one column.
 */
module Frame {
  import opened Wrappers

  /**
   * One JSON cell. `Day` is a calendar date as a day number (the API's ISO
   * date strings sort in the same order); `Text` and `Null` are what coercion
   * turns into NaN.
   */
  datatype Cell = Num(v: real) | Day(d: int) | Text(s: string) | Null

  type Row = map<string, Cell>

  type Table = seq<Row>

  /**
   * The outcome of one quotes request: it raised (timeout, connection error,
   * undecodable JSON), or it came back with a status and a decoded body whose
   * keys hold row lists.
   */
  datatype Response = Raised | Reply(status: int, body: map<string, Table>)

  /** One record of the `listed/info` listing; null or absent fields are left out of the map. */
  type Info = map<string, string>

  /** Why a ticker was skipped. */
  datatype Skip = RequestFailed | NoRows | NoPriceColumn | TooFewPrices | NoPrices

  /**
   * `payload.get(k1) or payload.get(k2) or ... or []`: the row list under the
   * first key that is present with a non-empty list.
   */
  function FirstNonEmpty(body: map<string, Table>, keys: seq<string>): (t: Table)
    ensures t == [] <==> forall i :: 0 <= i < |keys| ==> keys[i] !in body || body[keys[i]] == []
    ensures t != [] ==>
      exists i :: 0 <= i < |keys| && keys[i] in body && body[keys[i]] == t
        && forall j :: 0 <= j < i ==> keys[j] !in body || body[keys[j]] == []
  {
    if keys == [] then []
    else if keys[0] in body && body[keys[0]] != [] then body[keys[0]]
    else
      var t := FirstNonEmpty(body, keys[1..]);
      assert forall i :: 1 <= i < |keys| ==> keys[1..][i - 1] == keys[i];
      t
  }

  /** `col in df.columns`: the DataFrame's columns are the union of its rows' keys. */
  predicate HasColumn(t: Table, col: string)
  {
    exists i :: 0 <= i < |t| && col in t[i]
  }

  /** The first alias that is a column of `t`, as the alias-search loops find it. */
  function FirstPresent(t: Table, aliases: seq<string>): (r: Option<string>)
    ensures r.None? <==> forall i :: 0 <= i < |aliases| ==> !HasColumn(t, aliases[i])
    ensures r.Some? ==>
      exists i :: 0 <= i < |aliases| && aliases[i] == r.value && HasColumn(t, r.value)
        && forall j :: 0 <= j < i ==> !HasColumn(t, aliases[j])
  {
    if aliases == [] then None
    else if HasColumn(t, aliases[0]) then Some(aliases[0])
    else
      var r := FirstPresent(t, aliases[1..]);
      assert forall i :: 1 <= i < |aliases| ==> aliases[1..][i - 1] == aliases[i];
      r
  }

  /**
   * The alias-search loop: walks the aliases in order and stops at the first
   * one that is a column.
   */
  method ResolveColumn(t: Table, aliases: seq<string>) returns (col: Option<string>)
    ensures col == FirstPresent(t, aliases)
  {
    col := None;
    var k := 0;
    while k < |aliases|
      invariant 0 <= k <= |aliases|
      invariant FirstPresent(t, aliases[k..]) == FirstPresent(t, aliases)
    {
      assert aliases[k..][1..] == aliases[k + 1..];
      if HasColumn(t, aliases[k]) {
        col := Some(aliases[k]);
        return;
      }
      k := k + 1;
    }
  }

  /** The sort key of a row: its date, or none (NaN) when the cell is absent or not a date. */
  function DateKey(r: Row, col: string): Option<int>
  {
    if col in r && r[col].Day? then Some(r[col].d) else None
  }

  /** Ascending date order with missing dates last (`na_position="last"`). */
  predicate KeyLe(a: Option<int>, b: Option<int>)
  {
    b.None? || (a.Some? && a.value <= b.value)
  }

  predicate SortedByDate(t: Table, col: string)
  {
    forall i, j :: 0 <= i < j < |t| ==> KeyLe(DateKey(t[i], col), DateKey(t[j], col))
  }

  function InsertByDate(r: Row, t: Table, col: string): (u: Table)
    ensures multiset(u) == multiset(t) + multiset{r}
  {
    if t == [] || KeyLe(DateKey(r, col), DateKey(t[0], col)) then [r] + t
    else
      assert t == [t[0]] + t[1..];
      [t[0]] + InsertByDate(r, t[1..], col)
  }

  lemma {:induction false} InsertByDateSorted(r: Row, t: Table, col: string)
    requires SortedByDate(t, col)
    ensures SortedByDate(InsertByDate(r, t, col), col)
  {
    if t != [] && !KeyLe(DateKey(r, col), DateKey(t[0], col)) {
      InsertByDateSorted(r, t[1..], col);
      var u := InsertByDate(r, t[1..], col);
      forall j | 0 <= j < |u|
        ensures KeyLe(DateKey(t[0], col), DateKey(u[j], col))
      {
        assert u[j] in multiset(u);
        if u[j] != r {
          assert u[j] in multiset(t[1..]);
          var m :| 0 <= m < |t[1..]| && t[1..][m] == u[j];
          assert t[1..][m] == t[m + 1];
        }
      }
    }
  }

  /**
   * `df.sort_values(col)`: the same rows, ascending by date, undated rows last.
   * (pandas' default sort is not stable, so nothing is promised about the
   * order of rows with equal dates.)
   */
  function SortByDate(t: Table, col: string): (u: Table)
    ensures multiset(u) == multiset(t)
    ensures |u| == |t|
    ensures SortedByDate(u, col)
  {
    if t == [] then []
    else
      assert t == [t[0]] + t[1..];
      var u := SortByDate(t[1..], col);
      InsertByDateSorted(t[0], u, col);
      InsertByDate(t[0], u, col)
  }

  /**
   * `date_col` found among `aliases`, then `df.sort_values(date_col)` when
   * there is one: the same rows, in received order when no alias is a column.
   */
  function OrderByDate(t: Table, aliases: seq<string>): (u: Table)
    ensures multiset(u) == multiset(t) && |u| == |t|
    ensures FirstPresent(t, aliases).None? ==> u == t
    ensures FirstPresent(t, aliases).Some? ==> SortedByDate(u, FirstPresent(t, aliases).value)
  {
    match FirstPresent(t, aliases)
    case None => t
    case Some(col) => SortByDate(t, col)
  }

  /** Two tables holding the same rows have the same columns. */
  lemma SameRowsSameColumns(t: Table, u: Table, col: string)
    requires multiset(t) == multiset(u)
    ensures HasColumn(t, col) <==> HasColumn(u, col)
  {
    if HasColumn(t, col) {
      var i :| 0 <= i < |t| && col in t[i];
      assert t[i] in multiset(u);
      var j :| 0 <= j < |u| && u[j] == t[i];
    }
    if HasColumn(u, col) {
      var i :| 0 <= i < |u| && col in u[i];
      assert u[i] in multiset(t);
      var j :| 0 <= j < |t| && t[j] == u[i];
    }
  }

  /**
   * `df.tail(n)`: the last `n` rows for `n >= 0`, all rows but the first `-n`
   * for a negative `n`.
   */
  function Tail(t: Table, n: int): (u: Table)
    ensures |u| <= |t| && u == t[|t| - |u|..]
    ensures n >= 0 ==> |u| == if n <= |t| then n else |t|
    ensures n < 0 ==> |u| == if -n <= |t| then |t| + n else 0
  {
    if n >= 0 then (if n <= |t| then t[|t| - n..] else t)
    else if -n <= |t| then t[-n..]
    else []
  }

  /** The numeric value of the `col` cell of `r`, if it has one. */
  function NumericCell(r: Row, col: string): Option<real>
  {
    if col in r && r[col].Num? then Some(r[col].v) else None
  }

  /**
   * `pd.to_numeric(df[col], errors="coerce").dropna()`: the numeric cells of
   * the column, in row order; rows without the column or with a non-numeric
   * cell contribute nothing.
   */
  function Numeric(t: Table, col: string): (s: seq<real>)
    ensures |s| <= |t|
    ensures (forall i :: 0 <= i < |t| ==> NumericCell(t[i], col).Some?) ==> |s| == |t|
  {
    if t == [] then []
    else
      (if NumericCell(t[0], col).Some? then [NumericCell(t[0], col).value] else [])
      + Numeric(t[1..], col)
  }

  /** Dropping is row by row, so the kept values of two blocks of rows are kept in block order. */
  lemma {:induction false} NumericAppend(a: Table, b: Table, col: string)
    ensures Numeric(a + b, col) == Numeric(a, col) + Numeric(b, col)
  {
    if a == [] {
      assert a + b == b;
    } else {
      var head := if NumericCell(a[0], col).Some? then [NumericCell(a[0], col).value] else [];
      assert (a + b)[0] == a[0];
      assert (a + b)[1..] == a[1..] + b;
      NumericAppend(a[1..], b, col);
      assert Numeric(a + b, col) == head + Numeric(a[1..] + b, col);
      assert Numeric(a, col) == head + Numeric(a[1..], col);
    }
  }

  /** A table without the column has no numeric values in it. */
  lemma {:induction false} NumericWithoutColumn(t: Table, col: string)
    requires !HasColumn(t, col)
    ensures Numeric(t, col) == []
  {
    if t != [] {
      assert !HasColumn(t[1..], col) by {
        forall i | 0 <= i < |t[1..]| ensures col !in t[1..][i] {
          assert t[1..][i] == t[i + 1];
        }
      }
      NumericWithoutColumn(t[1..], col);
    }
  }

  /** The numeric values of two blocks of rows, as a multiset. */
  lemma NumericAppendMultiset(a: Table, b: Table, col: string)
    ensures multiset(Numeric(a + b, col)) == multiset(Numeric(a, col)) + multiset(Numeric(b, col))
  {
    NumericAppend(a, b, col);
  }

  lemma {:induction false} NumericInsertByDate(r: Row, t: Table, dateCol: string, col: string)
    ensures multiset(Numeric(InsertByDate(r, t, dateCol), col))
         == multiset(Numeric([r], col)) + multiset(Numeric(t, col))
  {
    if t == [] || KeyLe(DateKey(r, dateCol), DateKey(t[0], dateCol)) {
      NumericAppendMultiset([r], t, col);
    } else {
      var rest := InsertByDate(r, t[1..], dateCol);
      var first := [t[0]];
      assert InsertByDate(r, t, dateCol) == first + rest;
      assert t == first + t[1..];
      NumericInsertByDate(r, t[1..], dateCol, col);
      NumericAppendMultiset(first, rest, col);
      NumericAppendMultiset(first, t[1..], col);
    }
  }

  /** Sorting by date reorders the numeric values and neither adds nor drops any. */
  lemma {:induction false} NumericSortByDate(t: Table, dateCol: string, col: string)
    ensures multiset(Numeric(SortByDate(t, dateCol), col)) == multiset(Numeric(t, col))
  {
    if t != [] {
      NumericSortByDate(t[1..], dateCol, col);
      NumericInsertByDate(t[0], SortByDate(t[1..], dateCol), dateCol, col);
      NumericAppend([t[0]], t[1..], col);
      assert t == [t[0]] + t[1..];
    }
  }

  /**
   * Ordering by date keeps the columns and the multiset of numeric values of
   * every column; without the column there are no values at all.
   */
  lemma OrderByDateNumeric(t: Table, aliases: seq<string>, col: string)
    ensures HasColumn(OrderByDate(t, aliases), col) <==> HasColumn(t, col)
    ensures multiset(Numeric(OrderByDate(t, aliases), col)) == multiset(Numeric(t, col))
    ensures |Numeric(OrderByDate(t, aliases), col)| == |Numeric(t, col)|
    ensures !HasColumn(t, col) ==> Numeric(t, col) == []
  {
    var u := OrderByDate(t, aliases);
    SameRowsSameColumns(t, u, col);
    if FirstPresent(t, aliases).Some? {
      NumericSortByDate(t, FirstPresent(t, aliases).value, col);
    }
    assert |multiset(Numeric(u, col))| == |multiset(Numeric(t, col))|;
    if !HasColumn(t, col) {
      NumericWithoutColumn(t, col);
    }
  }

  /** Every numeric `col` cell in the table is positive. */
  predicate PositiveColumn(t: Table, col: string)
  {
    forall i :: 0 <= i < |t| ==> (NumericCell(t[i], col).Some? ==> NumericCell(t[i], col).value > 0.0)
  }

  /** Every numeric `col` cell in every row list of the reply is positive. */
  predicate PositiveReply(resp: Response, col: string)
  {
    resp.Reply? ==> forall k :: k in resp.body ==> PositiveColumn(resp.body[k], col)
  }

  lemma {:induction false} NumericPositive(t: Table, col: string)
    requires PositiveColumn(t, col)
    ensures forall i :: 0 <= i < |Numeric(t, col)| ==> Numeric(t, col)[i] > 0.0
  {
    if t != [] {
      NumericPositive(t[1..], col);
    }
  }

  /** Reordering rows keeps every row, so positivity survives the date sort. */
  lemma SortByDatePositive(t: Table, col: string, price: string)
    requires PositiveColumn(t, price)
    ensures PositiveColumn(SortByDate(t, col), price)
  {
    var u := SortByDate(t, col);
    forall i | 0 <= i < |u|
      ensures NumericCell(u[i], price).Some? ==> NumericCell(u[i], price).value > 0.0
    {
      assert u[i] in multiset(t);
      var m :| 0 <= m < |t| && t[m] == u[i];
    }
  }

  /** The rows picked from a reply with positive prices keep positive prices, sorted or not. */
  lemma PickedRowsPositive(resp: Response, keys: seq<string>, col: string, dateCol: Option<string>)
    requires resp.Reply? && PositiveReply(resp, col)
    ensures var t := FirstNonEmpty(resp.body, keys);
      PositiveColumn(if dateCol.Some? then SortByDate(t, dateCol.value) else t, col)
  {
    var t := FirstNonEmpty(resp.body, keys);
    if t != [] {
      var i :| 0 <= i < |keys| && keys[i] in resp.body && resp.body[keys[i]] == t;
      assert PositiveColumn(t, col);
      if dateCol.Some? {
        SortByDatePositive(t, dateCol.value, col);
      }
    }
  }

  /** Keeping only the last rows keeps positive prices positive. */
  lemma TailPositive(t: Table, n: int, col: string)
    requires PositiveColumn(t, col)
    ensures PositiveColumn(Tail(t, n), col)
  {
    var u := Tail(t, n);
    forall k | 0 <= k < |u| ensures u[k] == t[|t| - |u| + k] { }
  }
}
