/**
 * fetch_data.py: `process_tickers`, which pulls the symbols out of a NASDAQ
 * screener response (`data['data']['table']['rows'][*]['symbol']`) and sorts them.
 */
module FetchData {
  import opened Wrappers
  import opened Builtins

  /** One screener row; only its 'symbol' entry is read (`None` when missing or null). */
  datatype Listing = Listing(symbol: Option<string>)

  /**
   * data['data']['table']: `rows` is `None` when 'rows' is missing (`.get`
   * defaults it to `[]`) or null (iterating it raises, which is caught);
   * both end in an empty result.
   */
  datatype Table = Table(rows: Option<seq<Listing>>)

  /** data['data']: `table` is `None` when 'table' is missing or null. */
  datatype Screener = Screener(table: Option<Table>)

  /** The whole response: `data` is `None` when 'data' is missing or null. */
  datatype Response = Response(data: Option<Screener>)

  /** The rows the loop visits; none when any level of the path is absent. */
  function Rows(response: Response): seq<Listing>
  {
    if response.data.None? || response.data.value.table.None? || response.data.value.table.value.rows.None? then []
    else response.data.value.table.value.rows.value
  }

  /** `row.get('symbol')` for each row, in order. */
  function Symbols(rows: seq<Listing>): (r: seq<Option<string>>)
    ensures |r| == |rows|
    ensures forall i :: 0 <= i < |rows| ==> r[i] == rows[i].symbol
  {
    seq(|rows|, i requires 0 <= i < |rows| => rows[i].symbol)
  }

  /** A symbol is kept exactly when some row carries it and it is not empty. */
  lemma KeptSymbols(rows: seq<Listing>, s: string)
    ensures s in Truthies(Symbols(rows)) <==> s != "" && exists i :: 0 <= i < |rows| && rows[i].symbol == Some(s)
  {
    var symbols := Symbols(rows);
    if s != "" && Some(s) in symbols {
      var i :| 0 <= i < |symbols| && symbols[i] == Some(s);
      assert rows[i].symbol == Some(s);
    }
  }

  lemma SameMembers(a: seq<string>, b: seq<string>)
    requires multiset(a) == multiset(b)
    ensures forall s :: s in a <==> s in b
  {
    forall s
      ensures s in a <==> s in b
    {
      assert s in a <==> s in multiset(a);
      assert s in b <==> s in multiset(b);
    }
  }

  /**
   * `process_tickers`: exactly the truthy symbols, duplicates kept, in ascending
   * order; never more of them than rows. A missing level of the response path
   * (the `AttributeError` of `.get` on `None`, caught at lines 13-15) yields [].
   */
  method ProcessTickers(response: Response) returns (tickers: seq<string>)
    ensures Sorted(tickers)
    ensures multiset(tickers) == multiset(Truthies(Symbols(Rows(response))))
    ensures forall s :: s in tickers <==> exists i :: 0 <= i < |Rows(response)| && Rows(response)[i].symbol == Some(s) && s != ""
    ensures |tickers| <= |Rows(response)|
  {
    if response.data.None? || response.data.value.table.None? {
      return [];
    }
    var rows: seq<Listing> := if response.data.value.table.value.rows.None? then [] else response.data.value.table.value.rows.value;
    var found: seq<string> := [];
    for i := 0 to |rows|
      invariant found == Truthies(Symbols(rows[..i]))
    {
      var symbol := rows[i].symbol;
      assert Symbols(rows[..i + 1]) == Symbols(rows[..i]) + [symbol];
      TruthiesSnoc(Symbols(rows[..i]), symbol);
      if symbol.Some? && symbol.value != "" {
        found := found + [symbol.value];
      }
    }
    assert rows[..|rows|] == rows;
    tickers := Sort(found);
    SameMembers(tickers, found);
    forall s
      ensures s in tickers <==> exists i :: 0 <= i < |rows| && rows[i].symbol == Some(s) && s != ""
    {
      KeptSymbols(rows, s);
    }
  }
}
