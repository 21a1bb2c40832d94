/**
 * track_recommedations.py: the `tracked_stocks` table of open and closed
 * positions, kept in memory as a sequence of rows in insertion order, and the
 * three operations on it: `track_stock` (open a position on a stage-2 signal),
 * `get_open_positions` and `update_close_info` (close a ticker's open rows).
 * The day `track_stock` runs on (`datetime.now()`) is the parameter `today`.
 */
module TrackRecommendations {
  import opened Wrappers
  import opened Builtins

  /** A calendar day, numbered; `today` is formatted with day resolution before it is stored. */
  type Date = nat

  /** One row of `tracked_stocks` (track_recommedations.py:31-40); NULL is `None`. */
  datatype Row = Row(
    ticker: string,
    openDate: Date,
    closeDate: Option<Date>,
    openPrice: real,
    closePrice: Option<real>,
    openCrossoverDate: Option<Date>,
    closeCrossoverDate: Option<Date>,
    openCrossoverPrice: Option<real>,
    closeCrossoverPrice: Option<real>)

  /** `track_stock` treats the latest row as closed when both close columns are set. */
  predicate IsClosed(row: Row)
  {
    row.closeDate.Some? && row.closePrice.Some?
  }

  /** `get_open_positions` counts a row as open when both close columns are NULL. */
  predicate IsOpenPosition(row: Row)
  {
    row.closeDate.None? && row.closePrice.None?
  }

  /** The row both INSERT statements of `track_stock` write: open columns set, close columns NULL. */
  function NewRow(ticker: string, today: Date, price: real, crossoverDate: Option<Date>, crossoverPrice: Option<real>): Row
  {
    Row(ticker, today, None, price, None, crossoverDate, None, crossoverPrice, None)
  }

  /**
   * `SELECT ... WHERE ticker = %s ORDER BY open_date DESC LIMIT 1`: the index of
   * the ticker's row with the greatest open date. PostgreSQL leaves the choice
   * among equal dates open; the model takes the one inserted last.
   */
  function Latest(rows: seq<Row>, ticker: string): (r: Option<nat>)
    ensures r.None? <==> forall j :: 0 <= j < |rows| ==> rows[j].ticker != ticker
    ensures r.Some? ==> r.value < |rows| && rows[r.value].ticker == ticker
    ensures r.Some? ==> forall j :: 0 <= j < |rows| && rows[j].ticker == ticker ==> rows[j].openDate <= rows[r.value].openDate
    ensures r.Some? ==> forall j :: r.value < j < |rows| && rows[j].ticker == ticker ==> rows[j].openDate < rows[r.value].openDate
  {
    if rows == [] then None
    else
      var last := |rows| - 1;
      var earlier := Latest(rows[..last], ticker);
      if rows[last].ticker != ticker then earlier
      else if earlier.None? || rows[earlier.value].openDate <= rows[last].openDate then Some(last)
      else earlier
  }

  /** Whether `ticker TEXT PRIMARY KEY` would refuse a second row for the ticker. */
  predicate HasTicker(rows: seq<Row>, ticker: string)
  {
    exists i :: 0 <= i < |rows| && rows[i].ticker == ticker
  }

  /** No two rows share a ticker: what the primary key keeps true. */
  ghost predicate DistinctTickers(rows: seq<Row>)
  {
    forall i, j :: 0 <= i < j < |rows| ==> rows[i].ticker != rows[j].ticker
  }

  /** `stage.lower() == 'stage2'`. */
  predicate IsStage2(stage: string)
  {
    Lower(stage) == "stage2"
  }

  /** What a `track_stock` call did. */
  datatype Outcome =
    | Opened          // no row for the ticker, stage 2: first INSERT (lines 91-96)
    | Reopened        // latest row closed, stage 2: INSERT of a new episode (lines 104-109)
    | AlreadyOpen     // latest row not closed, stage 2: skipped (lines 110-111)
    | NoPosition      // no row, another stage: skipped with a message (lines 97-98)
    | StageIndexError // no row and stage "": `stage[-1]` in that message raises IndexError, uncaught
    | Unchanged       // a row exists and the stage is not stage 2: nothing at all (line 104)
    | InsertRejected  // the INSERT broke the primary key; the psycopg2.Error is swallowed (lines 113-114)
    | UnpackError     // the literal code's 4-name unpack of a 3-column row raises ValueError (lines 82, 103)

  datatype Step = Step(outcome: Outcome, rows: seq<Row>)

  /** Row `i` is one the SELECT may return: a row of the ticker with the greatest open date. */
  predicate LatestCandidate(rows: seq<Row>, ticker: string, i: nat)
  {
    && i < |rows| && rows[i].ticker == ticker
    && forall j :: 0 <= j < |rows| && rows[j].ticker == ticker ==> rows[j].openDate <= rows[i].openDate
  }

  /** What `cursor.fetchone()` may legally give: nothing exactly when the ticker has no row, else a candidate. */
  predicate LegalAnswer(rows: seq<Row>, ticker: string, latest: Option<nat>)
  {
    && (latest.None? <==> !HasTicker(rows, ticker))
    && (latest.Some? ==> LatestCandidate(rows, ticker, latest.value))
  }

  /**
   * The decision table of `track_stock` after its SELECT (the branches at
   * lines 91-111 and the comments at lines 90 and 101-102), for whichever row
   * the SELECT returned, over a table with or without the ticker primary key.
   */
  function Decide(rows: seq<Row>, latest: Option<nat>, uniqueTicker: bool, ticker: string, stage: string, price: real,
                  crossoverDate: Option<Date>, crossoverPrice: Option<real>, today: Date): (r: Step)
    requires LegalAnswer(rows, ticker, latest)
    ensures r.rows == rows || r.rows == rows + [NewRow(ticker, today, price, crossoverDate, crossoverPrice)]
    ensures r.rows != rows <==> r.outcome == Opened || r.outcome == Reopened
    ensures r.outcome != UnpackError
  {
    var row := NewRow(ticker, today, price, crossoverDate, crossoverPrice);
    match latest
    case None =>
      if IsStage2(stage) then Step(Opened, rows + [row])
      else if stage == "" then Step(StageIndexError, rows)
      else Step(NoPosition, rows)
    case Some(i) =>
      if !IsStage2(stage) then Step(Unchanged, rows)
      else if !IsClosed(rows[i]) then Step(AlreadyOpen, rows)
      else if uniqueTicker then Step(InsertRejected, rows)
      else Step(Reopened, rows + [row])
  }

  /**
   * `track_stock` with the model's answer to the SELECT (`Latest`). The code as
   * written never reaches the branches for an existing row: see `TrackAsWritten`.
   */
  function Track(rows: seq<Row>, uniqueTicker: bool, ticker: string, stage: string, price: real,
                 crossoverDate: Option<Date>, crossoverPrice: Option<real>, today: Date): (r: Step)
    ensures r.rows == rows || r.rows == rows + [NewRow(ticker, today, price, crossoverDate, crossoverPrice)]
    ensures r.rows != rows <==> r.outcome == Opened || r.outcome == Reopened
    ensures r.outcome != UnpackError
  {
    Decide(rows, Latest(rows, ticker), uniqueTicker, ticker, stage, price, crossoverDate, crossoverPrice, today)
  }

  /**
   * `track_stock` exactly as written: the SELECT returns three columns and
   * line 103 unpacks four names, so any existing row raises ValueError, which
   * the `except psycopg2.Error` does not catch; nothing is committed.
   */
  function TrackAsWritten(rows: seq<Row>, uniqueTicker: bool, ticker: string, stage: string, price: real,
                          crossoverDate: Option<Date>, crossoverPrice: Option<real>, today: Date): (r: Step)
    ensures HasTicker(rows, ticker) ==> r == Step(UnpackError, rows)
    ensures !HasTicker(rows, ticker) ==> r == Track(rows, uniqueTicker, ticker, stage, price, crossoverDate, crossoverPrice, today)
  {
    match Latest(rows, ticker)
    case None => Track(rows, uniqueTicker, ticker, stage, price, crossoverDate, crossoverPrice, today)
    case Some(_) => Step(UnpackError, rows)
  }

  // ---- The decision table, case by case ----

  /** No row for the ticker and stage 2 (in any letter case): exactly one new open row is appended. */
  lemma OpensFirstPosition(rows: seq<Row>, uniqueTicker: bool, ticker: string, stage: string, price: real,
                           crossoverDate: Option<Date>, crossoverPrice: Option<real>, today: Date)
    requires !HasTicker(rows, ticker) && IsStage2(stage)
    ensures Track(rows, uniqueTicker, ticker, stage, price, crossoverDate, crossoverPrice, today)
         == Step(Opened, rows + [NewRow(ticker, today, price, crossoverDate, crossoverPrice)])
  {
  }

  /** No row for the ticker and any other stage: the table is unchanged. */
  lemma IgnoresOtherStageWithoutPosition(rows: seq<Row>, uniqueTicker: bool, ticker: string, stage: string, price: real,
                                         crossoverDate: Option<Date>, crossoverPrice: Option<real>, today: Date)
    requires !HasTicker(rows, ticker) && !IsStage2(stage)
    ensures Track(rows, uniqueTicker, ticker, stage, price, crossoverDate, crossoverPrice, today).rows == rows
  {
  }

  /** Latest row closed, stage 2, no primary key: a new row is appended and the closed one kept as it was. */
  lemma ReopensAfterClose(rows: seq<Row>, ticker: string, stage: string, price: real,
                          crossoverDate: Option<Date>, crossoverPrice: Option<real>, today: Date, i: nat)
    requires Latest(rows, ticker) == Some(i) && IsClosed(rows[i]) && IsStage2(stage)
    ensures Track(rows, false, ticker, stage, price, crossoverDate, crossoverPrice, today)
         == Step(Reopened, rows + [NewRow(ticker, today, price, crossoverDate, crossoverPrice)])
  {
  }

  /** Under `ticker TEXT PRIMARY KEY` the same reopening INSERT fails and the table is unchanged. */
  lemma PrimaryKeyBlocksReopen(rows: seq<Row>, ticker: string, stage: string, price: real,
                               crossoverDate: Option<Date>, crossoverPrice: Option<real>, today: Date, i: nat)
    requires Latest(rows, ticker) == Some(i) && IsClosed(rows[i]) && IsStage2(stage)
    ensures Track(rows, true, ticker, stage, price, crossoverDate, crossoverPrice, today) == Step(InsertRejected, rows)
  {
  }

  /** Latest row still open, stage 2: no second open row is created. */
  lemma SkipsDuplicateOpen(rows: seq<Row>, uniqueTicker: bool, ticker: string, stage: string, price: real,
                           crossoverDate: Option<Date>, crossoverPrice: Option<real>, today: Date, i: nat)
    requires Latest(rows, ticker) == Some(i) && !IsClosed(rows[i]) && IsStage2(stage)
    ensures Track(rows, uniqueTicker, ticker, stage, price, crossoverDate, crossoverPrice, today) == Step(AlreadyOpen, rows)
  {
  }

  /** A row exists and the stage is not stage 2: nothing changes, so `track_stock` never closes a position. */
  lemma NeverCloses(rows: seq<Row>, uniqueTicker: bool, ticker: string, stage: string, price: real,
                    crossoverDate: Option<Date>, crossoverPrice: Option<real>, today: Date)
    requires HasTicker(rows, ticker) && !IsStage2(stage)
    ensures Track(rows, uniqueTicker, ticker, stage, price, crossoverDate, crossoverPrice, today) == Step(Unchanged, rows)
  {
  }

  /** The letter case of the stage label does not matter. */
  lemma StageIsCaseInsensitive()
    ensures IsStage2("stage2") && IsStage2("STAGE2") && IsStage2("Stage2")
    ensures !IsStage2("stage3") && !IsStage2("stage2 ") && !IsStage2("")
  {
    assert Lower("STAGE2") == "stage2";
    assert Lower("Stage2") == "stage2";
    assert Lower("stage2") == "stage2";
    assert Lower("stage3")[5] == '3';
  }

  // ---- At most one open row per ticker ----

  /** Every row that is not closed is the latest row of its ticker. */
  ghost predicate OnlyLatestOpen(rows: seq<Row>)
  {
    forall i :: 0 <= i < |rows| && !IsClosed(rows[i]) ==> Latest(rows, rows[i].ticker) == Some(i)
  }

  ghost predicate AtMostOneOpen(rows: seq<Row>)
  {
    forall i, j :: 0 <= i < j < |rows| && rows[i].ticker == rows[j].ticker ==> IsClosed(rows[i]) || IsClosed(rows[j])
  }

  /** `today` is not earlier than any open date already recorded for the ticker. */
  ghost predicate NotBefore(rows: seq<Row>, ticker: string, today: Date)
  {
    forall i :: 0 <= i < |rows| && rows[i].ticker == ticker ==> rows[i].openDate <= today
  }

  lemma OnlyLatestOpenIsAtMostOne(rows: seq<Row>)
    requires OnlyLatestOpen(rows)
    ensures AtMostOneOpen(rows)
  {
  }

  /** Appending a row changes the latest row of its own ticker only, and to it when its date is not earlier. */
  lemma LatestAppend(rows: seq<Row>, row: Row, ticker: string)
    ensures Latest(rows + [row], ticker)
         == if row.ticker != ticker then Latest(rows, ticker)
            else if Latest(rows, ticker).None? || rows[Latest(rows, ticker).value].openDate <= row.openDate then Some(|rows|)
            else Latest(rows, ticker)
  {
    assert (rows + [row])[..|rows|] == rows;
  }

  /**
   * `track_stock` keeps at most one open row per ticker, provided every row of
   * the ticker other than its latest is already closed and the clock has not
   * gone back past a recorded open date.
   */
  lemma {:induction false} TrackKeepsOneOpen(rows: seq<Row>, uniqueTicker: bool, ticker: string, stage: string, price: real,
                                             crossoverDate: Option<Date>, crossoverPrice: Option<real>, today: Date)
    requires OnlyLatestOpen(rows) && NotBefore(rows, ticker, today)
    ensures OnlyLatestOpen(Track(rows, uniqueTicker, ticker, stage, price, crossoverDate, crossoverPrice, today).rows)
    ensures AtMostOneOpen(Track(rows, uniqueTicker, ticker, stage, price, crossoverDate, crossoverPrice, today).rows)
  {
    var after := Track(rows, uniqueTicker, ticker, stage, price, crossoverDate, crossoverPrice, today).rows;
    var row := NewRow(ticker, today, price, crossoverDate, crossoverPrice);
    if after != rows {
      assert after == rows + [row];
      // every old row of the ticker is closed: the latest one because the insert happened, the others by OnlyLatestOpen
      forall i | 0 <= i < |after| && !IsClosed(after[i])
        ensures Latest(after, after[i].ticker) == Some(i)
      {
        LatestAppend(rows, row, after[i].ticker);
        if i < |rows| {
          assert after[i] == rows[i];
          assert Latest(rows, rows[i].ticker) == Some(i);
          assert rows[i].ticker != ticker;
        }
      }
    }
    OnlyLatestOpenIsAtMostOne(after);
  }

  /**
   * Why `NotBefore` is needed: with the clock set back, a reopened row is not
   * the latest one, and the next stage-2 signal opens a second row.
   */
  lemma BackdatedReopenDuplicates()
    ensures var closed := Row("XYZ", 10, Some(12), 1.0, Some(0.8), None, None, None, None);
            var first := Track([closed], false, "XYZ", "stage2", 0.9, None, None, 5).rows;
            var second := Track(first, false, "XYZ", "stage2", 0.95, None, None, 6).rows;
            OnlyLatestOpen([closed]) && !AtMostOneOpen(second)
  {
    var closed := Row("XYZ", 10, Some(12), 1.0, Some(0.8), None, None, None, None);
    assert Lower("stage2") == "stage2";
    LatestAppend([], closed, "XYZ");
    assert [] + [closed] == [closed];
    var first := [closed] + [NewRow("XYZ", 5, 0.9, None, None)];
    LatestAppend([closed], NewRow("XYZ", 5, 0.9, None, None), "XYZ");
    assert Track([closed], false, "XYZ", "stage2", 0.9, None, None, 5).rows == first;
    var second := first + [NewRow("XYZ", 6, 0.95, None, None)];
    assert Track(first, false, "XYZ", "stage2", 0.95, None, None, 6).rows == second;
    assert second[1].ticker == second[2].ticker && !IsClosed(second[1]) && !IsClosed(second[2]);
  }

  /** One call alone never leaves two open rows for a ticker, whatever the date. */
  lemma TrackAtMostOneOpen(rows: seq<Row>, uniqueTicker: bool, ticker: string, stage: string, price: real,
                           crossoverDate: Option<Date>, crossoverPrice: Option<real>, today: Date)
    requires OnlyLatestOpen(rows)
    ensures AtMostOneOpen(Track(rows, uniqueTicker, ticker, stage, price, crossoverDate, crossoverPrice, today).rows)
  {
    var after := Track(rows, uniqueTicker, ticker, stage, price, crossoverDate, crossoverPrice, today).rows;
    OnlyLatestOpenIsAtMostOne(rows);
    if after != rows {
      assert after == rows + [NewRow(ticker, today, price, crossoverDate, crossoverPrice)];
      forall k | 0 <= k < |rows| && rows[k].ticker == ticker
        ensures IsClosed(rows[k])
      {
      }
    }
  }

  /**
   * Why `TrackKeepsOneOpen` depends on the tie choice of `Latest`: open, close
   * and reopen a ticker on the same day. The closed and the reopened row tie on
   * `open_date`, so the SELECT may return the closed one, and the next stage-2
   * call then opens a second row.
   */
  lemma SameDayTieDuplicates()
    ensures var openedRows := Track([], false, "XYZ", "stage2", 1.0, None, None, 10).rows;
            var closed := CloseRows(openedRows, "XYZ", Some(10), Some(0.8), None, None);
            var reopened := Track(closed, false, "XYZ", "stage2", 0.9, None, None, 10).rows;
            && OnlyLatestOpen(closed) && NotBefore(closed, "XYZ", 10)
            && OnlyLatestOpen(reopened) && NotBefore(reopened, "XYZ", 10)
            && LegalAnswer(reopened, "XYZ", Some(0)) && IsClosed(reopened[0])
            && !AtMostOneOpen(Decide(reopened, Some(0), false, "XYZ", "stage2", 0.95, None, None, 10).rows)
  {
    var closedRow := Row("XYZ", 10, Some(10), 1.0, Some(0.8), None, None, None, None);
    var second := NewRow("XYZ", 10, 0.9, None, None);
    SameDayRun();
    var reopened := [closedRow, second];
    LatestAppend([closedRow], second, "XYZ");
    assert [closedRow] + [second] == reopened;
    assert Latest(reopened, "XYZ") == Some(1);
    assert OnlyLatestOpen(reopened);
    assert LegalAnswer(reopened, "XYZ", Some(0));
    var last := Decide(reopened, Some(0), false, "XYZ", "stage2", 0.95, None, None, 10).rows;
    assert last[1] == second && last[2].closeDate.None?;
  }

  /** The three calls of `SameDayTieDuplicates`, evaluated. */
  lemma SameDayRun()
    ensures Track([], false, "XYZ", "stage2", 1.0, None, None, 10).rows == [NewRow("XYZ", 10, 1.0, None, None)]
    ensures CloseRows([NewRow("XYZ", 10, 1.0, None, None)], "XYZ", Some(10), Some(0.8), None, None)
         == [Row("XYZ", 10, Some(10), 1.0, Some(0.8), None, None, None, None)]
    ensures Track([Row("XYZ", 10, Some(10), 1.0, Some(0.8), None, None, None, None)], false, "XYZ", "stage2", 0.9, None, None, 10).rows
         == [Row("XYZ", 10, Some(10), 1.0, Some(0.8), None, None, None, None), NewRow("XYZ", 10, 0.9, None, None)]
  {
    assert Lower("stage2") == "stage2";
    var closedRow := Row("XYZ", 10, Some(10), 1.0, Some(0.8), None, None, None, None);
    LatestAppend([], NewRow("XYZ", 10, 1.0, None, None), "XYZ");
    LatestAppend([], closedRow, "XYZ");
    assert [] + [closedRow] == [closedRow];
    assert [] + [NewRow("XYZ", 10, 1.0, None, None)] == [NewRow("XYZ", 10, 1.0, None, None)];
  }

  /** Every row that is not closed opened strictly after every other row of its ticker. */
  ghost predicate OpenIsStrictLatest(rows: seq<Row>)
  {
    forall i, j :: 0 <= i < |rows| && 0 <= j < |rows| && i != j && rows[i].ticker == rows[j].ticker && !IsClosed(rows[i])
      ==> rows[j].openDate < rows[i].openDate
  }

  /** `today` is strictly after every open date recorded for the ticker. */
  ghost predicate StrictlyAfter(rows: seq<Row>, ticker: string, today: Date)
  {
    forall i :: 0 <= i < |rows| && rows[i].ticker == ticker ==> rows[i].openDate < today
  }

  /**
   * Without relying on any tie choice: if open rows are strictly the newest of
   * their ticker and the clock moves strictly forward, then `track_stock` keeps
   * that so whichever candidate the SELECT returns, and no ticker gets two open rows.
   */
  lemma DecideKeepsStrictLatest(rows: seq<Row>, latest: Option<nat>, uniqueTicker: bool, ticker: string, stage: string, price: real,
                                crossoverDate: Option<Date>, crossoverPrice: Option<real>, today: Date)
    requires LegalAnswer(rows, ticker, latest) && OpenIsStrictLatest(rows) && StrictlyAfter(rows, ticker, today)
    ensures OpenIsStrictLatest(Decide(rows, latest, uniqueTicker, ticker, stage, price, crossoverDate, crossoverPrice, today).rows)
    ensures AtMostOneOpen(Decide(rows, latest, uniqueTicker, ticker, stage, price, crossoverDate, crossoverPrice, today).rows)
  {
    var after := Decide(rows, latest, uniqueTicker, ticker, stage, price, crossoverDate, crossoverPrice, today).rows;
    if after != rows {
      assert after == rows + [NewRow(ticker, today, price, crossoverDate, crossoverPrice)];
      forall k | 0 <= k < |rows| && rows[k].ticker == ticker
        ensures IsClosed(rows[k])
      {
      }
    }
    forall i, j | 0 <= i < j < |after| && after[i].ticker == after[j].ticker
      ensures IsClosed(after[i]) || IsClosed(after[j])
    {
      if !IsClosed(after[i]) {
        assert after[j].openDate < after[i].openDate;
      }
    }
  }

  // ---- The literal code ----

  /** With any row present for the ticker, the code as written raises and never reopens a position. */
  lemma AsWrittenNeverReopens(rows: seq<Row>, uniqueTicker: bool, ticker: string, stage: string, price: real,
                              crossoverDate: Option<Date>, crossoverPrice: Option<real>, today: Date, i: nat)
    requires Latest(rows, ticker) == Some(i) && IsClosed(rows[i]) && IsStage2(stage)
    ensures TrackAsWritten(rows, uniqueTicker, ticker, stage, price, crossoverDate, crossoverPrice, today) == Step(UnpackError, rows)
    ensures !uniqueTicker ==> Track(rows, uniqueTicker, ticker, stage, price, crossoverDate, crossoverPrice, today).outcome == Reopened
  {
  }

  // ---- get_open_positions ----

  /** The four columns `get_open_positions` selects. */
  datatype OpenPosition = OpenPosition(ticker: string, openDate: Date, openCrossoverDate: Option<Date>, openCrossoverPrice: Option<real>)

  function Project(row: Row): OpenPosition
  {
    OpenPosition(row.ticker, row.openDate, row.openCrossoverDate, row.openCrossoverPrice)
  }

  /** The rows with both close columns NULL, projected, in table order. */
  function OpenPositions(rows: seq<Row>): (ps: seq<OpenPosition>)
    ensures |ps| <= |rows|
  {
    if rows == [] then []
    else (if IsOpenPosition(rows[0]) then [Project(rows[0])] else []) + OpenPositions(rows[1..])
  }

  /** A position is listed exactly when some row with both close columns NULL projects to it. */
  lemma {:induction false} OpenPositionsMembers(rows: seq<Row>, p: OpenPosition)
    ensures p in OpenPositions(rows) <==> exists row :: row in rows && IsOpenPosition(row) && Project(row) == p
  {
    if rows != [] {
      OpenPositionsMembers(rows[1..], p);
      assert rows == [rows[0]] + rows[1..];
      assert forall row :: row in rows <==> row == rows[0] || row in rows[1..];
    }
  }

  /** Result order follows table order: the query distributes over a split of the table. */
  lemma {:induction false} OpenPositionsAppend(a: seq<Row>, b: seq<Row>)
    ensures OpenPositions(a + b) == OpenPositions(a) + OpenPositions(b)
  {
    if a == [] {
      assert a + b == b;
    } else {
      var head := if IsOpenPosition(a[0]) then [Project(a[0])] else [];
      assert (a + b)[0] == a[0];
      assert (a + b)[1..] == a[1..] + b;
      OpenPositionsAppend(a[1..], b);
      calc {
        OpenPositions(a + b);
        head + OpenPositions(a[1..] + b);
        head + (OpenPositions(a[1..]) + OpenPositions(b));
        (head + OpenPositions(a[1..])) + OpenPositions(b);
        OpenPositions(a) + OpenPositions(b);
      }
    }
  }

  // ---- update_close_info ----

  /** `update_close_info`'s WHERE clause: the ticker's rows whose `close_date` is NULL. */
  predicate ToClose(row: Row, ticker: string)
  {
    row.ticker == ticker && row.closeDate.None?
  }

  /** The UPDATE of `update_close_info`: set the four close columns on every matching row. */
  function CloseRows(rows: seq<Row>, ticker: string, closeDate: Option<Date>, closePrice: Option<real>,
                     closeCrossoverDate: Option<Date>, closeCrossoverPrice: Option<real>): seq<Row>
  {
    seq(|rows|, i requires 0 <= i < |rows| =>
      if ToClose(rows[i], ticker) then
        rows[i].(closeDate := closeDate, closePrice := closePrice,
                 closeCrossoverDate := closeCrossoverDate, closeCrossoverPrice := closeCrossoverPrice)
      else rows[i])
  }

  /**
   * No row is deleted or added; rows of other tickers and rows with a close
   * date are unchanged; the open columns of the matching rows are kept.
   */
  lemma CloseRowsChangesOnlyMatches(rows: seq<Row>, ticker: string, closeDate: Option<Date>, closePrice: Option<real>,
                                    closeCrossoverDate: Option<Date>, closeCrossoverPrice: Option<real>)
    ensures var after := CloseRows(rows, ticker, closeDate, closePrice, closeCrossoverDate, closeCrossoverPrice);
            && |after| == |rows|
            && (forall i :: 0 <= i < |rows| && !ToClose(rows[i], ticker) ==> after[i] == rows[i])
            && (forall i :: 0 <= i < |rows| && ToClose(rows[i], ticker) ==>
                  && after[i].ticker == rows[i].ticker && after[i].openDate == rows[i].openDate
                  && after[i].openPrice == rows[i].openPrice
                  && after[i].openCrossoverDate == rows[i].openCrossoverDate
                  && after[i].openCrossoverPrice == rows[i].openCrossoverPrice
                  && after[i].closeDate == closeDate && after[i].closePrice == closePrice
                  && after[i].closeCrossoverDate == closeCrossoverDate
                  && after[i].closeCrossoverPrice == closeCrossoverPrice)
  {
  }

  /** The latest-row query depends only on the tickers and open dates of the rows. */
  lemma {:induction false} LatestSameKeys(a: seq<Row>, b: seq<Row>, ticker: string)
    requires |a| == |b|
    requires forall i :: 0 <= i < |a| ==> a[i].ticker == b[i].ticker && a[i].openDate == b[i].openDate
    ensures Latest(a, ticker) == Latest(b, ticker)
  {
    if a != [] {
      LatestSameKeys(a[..|a| - 1], b[..|b| - 1], ticker);
    }
  }

  /** Closing never opens anything, so `update_close_info` also keeps at most one open row per ticker. */
  lemma UpdateKeepsOneOpen(rows: seq<Row>, ticker: string, closeDate: Option<Date>, closePrice: Option<real>,
                           closeCrossoverDate: Option<Date>, closeCrossoverPrice: Option<real>)
    requires OnlyLatestOpen(rows)
    ensures OnlyLatestOpen(CloseRows(rows, ticker, closeDate, closePrice, closeCrossoverDate, closeCrossoverPrice))
  {
    var after := CloseRows(rows, ticker, closeDate, closePrice, closeCrossoverDate, closeCrossoverPrice);
    forall i | 0 <= i < |after| && !IsClosed(after[i])
      ensures Latest(after, after[i].ticker) == Some(i)
    {
      LatestSameKeys(after, rows, after[i].ticker);
    }
  }

  /** With a close date given, the ticker has no open position afterwards. */
  lemma UpdateClosesTicker(rows: seq<Row>, ticker: string, closeDate: Option<Date>, closePrice: Option<real>,
                           closeCrossoverDate: Option<Date>, closeCrossoverPrice: Option<real>)
    requires closeDate.Some?
    ensures forall p :: p in OpenPositions(CloseRows(rows, ticker, closeDate, closePrice, closeCrossoverDate, closeCrossoverPrice))
                        ==> p.ticker != ticker
  {
    var after := CloseRows(rows, ticker, closeDate, closePrice, closeCrossoverDate, closeCrossoverPrice);
    CloseRowsChangesOnlyMatches(rows, ticker, closeDate, closePrice, closeCrossoverDate, closeCrossoverPrice);
    forall p | p in OpenPositions(after)
      ensures p.ticker != ticker
    {
      OpenPositionsMembers(after, p);
      var row :| row in after && IsOpenPosition(row) && Project(row) == p;
      var i :| 0 <= i < |after| && after[i] == row;
    }
  }

  /** The table object: its rows in insertion order, and whether the ticker primary key is enforced. */
  class TrackedStocks {
    var rows: seq<Row>
    const uniqueTicker: bool

    ghost predicate Valid()
      reads this
    {
      uniqueTicker ==> DistinctTickers(rows)
    }

    /** An empty table; `uniqueTicker` says whether `ticker TEXT PRIMARY KEY` is in force. */
    constructor (uniqueTicker: bool)
      ensures Valid() && rows == [] && this.uniqueTicker == uniqueTicker
    {
      rows := [];
      this.uniqueTicker := uniqueTicker;
    }

    /** INSERT INTO tracked_stocks: refused when the primary key is enforced and the ticker is present. */
    method InsertRow(row: Row) returns (ok: bool)
      requires Valid()
      modifies this
      ensures Valid()
      ensures ok <==> !(uniqueTicker && HasTicker(old(rows), row.ticker))
      ensures rows == if ok then old(rows) + [row] else old(rows)
    {
      ok := !(uniqueTicker && HasTicker(rows, row.ticker));
      if ok {
        rows := rows + [row];
      }
    }

    /**
     * `track_stock(ticker, stage, price, open_cross_date, open_cross_price)` run
     * on day `today`, with the decision logic the code's branches and comments
     * describe (see `TrackAsWritten` for the literal code, which raises on every
     * existing row).
     */
    method TrackStock(ticker: string, stage: string, price: real, openCrossDate: Option<Date>,
                      openCrossPrice: Option<real>, today: Date) returns (outcome: Outcome)
      requires Valid()
      modifies this
      ensures Valid()
      ensures Step(outcome, rows) == Track(old(rows), uniqueTicker, ticker, stage, price, openCrossDate, openCrossPrice, today)
    {
      var lowered := Lower(stage);
      var lastEntry := Latest(rows, ticker);
      var row := NewRow(ticker, today, price, openCrossDate, openCrossPrice);
      if lastEntry.None? {
        if lowered == "stage2" {
          var ok := InsertRow(row);
          outcome := if ok then Opened else InsertRejected;
        } else if lowered == "" {
          outcome := StageIndexError;
        } else {
          outcome := NoPosition;
        }
      } else {
        var entry := rows[lastEntry.value];
        if lowered == "stage2" {
          if entry.closeDate.Some? && entry.closePrice.Some? {
            var ok := InsertRow(row);
            outcome := if ok then Reopened else InsertRejected;
          } else {
            outcome := AlreadyOpen;
          }
        } else {
          outcome := Unchanged;
        }
      }
    }

    /** `get_open_positions`: reads the table, changes nothing. */
    method GetOpenPositions() returns (positions: seq<OpenPosition>)
      ensures positions == OpenPositions(rows)
      ensures forall p :: p in positions <==> exists row :: row in rows && IsOpenPosition(row) && Project(row) == p
    {
      positions := OpenPositions(rows);
      forall p
        ensures p in positions <==> exists row :: row in rows && IsOpenPosition(row) && Project(row) == p
      {
        OpenPositionsMembers(rows, p);
      }
    }

    /** `update_close_info`: fill the close columns of the ticker's rows that have no close date. */
    method UpdateCloseInfo(ticker: string, closeDate: Option<Date>, closePrice: Option<real>,
                           closeCrossoverDate: Option<Date>, closeCrossoverPrice: Option<real>)
      requires Valid()
      modifies this
      ensures Valid()
      ensures rows == CloseRows(old(rows), ticker, closeDate, closePrice, closeCrossoverDate, closeCrossoverPrice)
    {
      rows := CloseRows(rows, ticker, closeDate, closePrice, closeCrossoverDate, closeCrossoverPrice);
    }
  }
}
