/**
 * The worksheet calls of the ledger code (src/utils.py) as a class whose
 * state is the cell grid and the formatting requests sent so far, and
 * batch_update_matching_results, _apply_soldout_formatting and
 * update_matching_result as methods over it, each proved to leave the sheet
 * exactly as the value-level Ledger.Commit says.
 */
module Sheet {
  import opened Wrappers
  import opened Text
  import opened Seqs
  import opened Grid
  import opened Ledger
  import opened CommitFacts

  /** The worksheet "시트1": its cells and the repeatCell requests applied to it. */
  class Worksheet {
    var grid: Grid
    var formats: seq<FormatRequest>

    constructor(g: Grid)
      ensures grid == g && formats == []
    {
      grid := g;
      formats := [];
    }

    /** row_values(1). */
    method RowValues1() returns (h: seq<string>)
      ensures h == Header(grid)
    {
      h := Header(grid);
    }

    /** get_all_values(). */
    method GetAllValues() returns (v: Grid)
      ensures v == grid
    {
      v := grid;
    }

    /** update('A1:…1', [h]): rewrite the header row. */
    method UpdateHeaderRow(h: seq<string>)
      modifies this
      ensures grid == WriteHeader(old(grid), h) && formats == old(formats)
    {
      grid := WriteHeader(grid, h);
    }

    /** batch_update(updates): the writes applied in order. */
    method BatchUpdate(writes: seq<CellWrite>)
      requires forall k :: 0 <= k < |writes| ==> writes[k].row >= 1 && writes[k].col >= 1
      modifies this
      ensures grid == ApplyWrites(old(grid), writes) && formats == old(formats)
    {
      grid := ApplyWrites(grid, writes);
    }

    /** spreadsheet.batch_update({'requests': reqs}). */
    method BatchFormat(reqs: seq<FormatRequest>)
      modifies this
      ensures formats == old(formats) + reqs && grid == old(grid)
    {
      formats := formats + reqs;
    }
  }

  /** The loop over the six result columns: look each one up, append it when missing. */
  method LocateResultColumns(headers0: seq<string>) returns (headers: seq<string>, cols: seq<int>)
    ensures (headers, cols) == ExtendHeader(headers0, ResultColumns)
  {
    headers, cols := headers0, [];
    var n := 0;
    while n < |ResultColumns|
      invariant 0 <= n <= |ResultColumns|
      invariant (headers, cols) == ExtendHeader(headers0, ResultColumns[..n])
    {
      var name := ResultColumns[n];
      assert ResultColumns[..n + 1][..n] == ResultColumns[..n];
      match IndexOf(headers, name) {
        case Some(i) =>
          cols := cols + [i + 1];
        case None =>
          cols := cols + [|headers| + 1];
          headers := headers + [name];
      }
      n := n + 1;
    }
    assert ResultColumns[..n] == ResultColumns;
  }

  /** The loop over all_data collecting the rows whose 매칭상품_상품명 cell (column col) is filled. */
  method ReadReconciled(allData: Grid, col: int) returns (existing: set<int>)
    requires col >= 1
    ensures existing == Reconciled(allData, col)
  {
    existing := {};
    var i := 0;
    while i < |allData|
      invariant 0 <= i <= |allData|
      invariant existing == set r | 2 <= r <= i && !IsBlank(Cell(allData, r, col))
    {
      if i > 0 {
        var row := allData[i];
        var idx := col - 1;
        if |row| > idx && !IsBlank(row[idx]) {
          existing := existing + {i + 1};
        }
      }
      i := i + 1;
    }
  }

  /** The body of the loop over matched_results for one result x. */
  method StageResult(x: MatchedResult, existing: set<int>, cols: seq<int>)
    returns (writes: seq<CellWrite>, soldout: seq<SoldOutRow>, committed: bool)
    requires ColsValid(cols)
    ensures writes == StageWrites(existing, cols)(x)
    ensures soldout == StageSoldOut(existing, cols[4])(x)
    ensures committed <==> !Skipped(x, existing)
  {
    if x.row in existing {
      return [], [], false;
    }
    var matchType := match x.matchType case Some(t) => t case None => DefaultMatchType;
    var tabName := Get(x.data, "탭");
    writes := [
      CellWrite(x.row, cols[0], Get(x.data, "상품명")),
      CellWrite(x.row, cols[1], Get(x.data, "매입")),
      CellWrite(x.row, cols[2], Get(x.data, "매출")),
      CellWrite(x.row, cols[3], Get(x.data, "매입(업체)")),
      CellWrite(x.row, cols[4], tabName),
      CellWrite(x.row, cols[5], matchType)];
    assert writes == WritesFor(x, cols);
    soldout := if Contains(tabName, SoldOutMark) then [SoldOutRow(x.row, cols[4])] else [];
    committed := true;
  }

  /** The loop over matched_results: the writes, the sold-out rows and the count of committed results. */
  method StageResults(results: seq<MatchedResult>, existing: set<int>, cols: seq<int>)
    returns (updates: seq<CellWrite>, soldout: seq<SoldOutRow>, count: int)
    requires ColsValid(cols)
    ensures updates == StagedWrites(results, existing, cols)
    ensures soldout == StagedSoldOut(results, existing, cols[4])
    ensures count == |Committed(results, existing)|
  {
    updates, soldout, count := [], [], 0;
    var k := 0;
    while k < |results|
      invariant 0 <= k <= |results|
      invariant updates == StagedWrites(results[..k], existing, cols)
      invariant soldout == StagedSoldOut(results[..k], existing, cols[4])
      invariant count == |Committed(results[..k], existing)|
    {
      ConcatSnoc(results, StageWrites(existing, cols), k);
      ConcatSnoc(results, StageSoldOut(existing, cols[4]), k);
      FilterSnoc(results, (x: MatchedResult) => !Skipped(x, existing), k);
      var writes, marked, committed := StageResult(results[k], existing, cols);
      updates := updates + writes;
      soldout := soldout + marked;
      if committed {
        count := count + 1;
      }
      k := k + 1;
    }
    assert results[..k] == results;
  }

  /**
   * _apply_soldout_formatting: two requests per sold-out row, sent in one
   * call when there are any; a failing call (fails) is swallowed and sends nothing.
   */
  method ApplySoldoutFormatting(ws: Worksheet, rows: seq<SoldOutRow>, total: int, fails: bool)
    modifies ws
    ensures ws.grid == old(ws.grid)
    ensures ws.formats == old(ws.formats) + (if fails then [] else SoldOutRequests(rows, total))
  {
    var requests: seq<FormatRequest> := [];
    var i := 0;
    while i < |rows|
      invariant 0 <= i <= |rows|
      invariant requests == SoldOutRequests(rows[..i], total)
      invariant unchanged(ws)
    {
      var r := rows[i];
      ConcatSnoc(rows, RequestsFor(total), i);
      requests := requests + [
        FormatRequest(SoldOutRowFill, r.row - 1, r.row, 0, total),
        FormatRequest(SoldOutTabCell, r.row - 1, r.row, r.tabCol - 1, r.tabCol)];
      i := i + 1;
    }
    assert rows[..i] == rows;
    if requests != [] && !fails {
      ws.BatchFormat(requests);
    }
  }

  /**
   * batch_update_matching_results on the worksheet ws: the grid becomes the
   * committed grid, the count is the committed count, and the sold-out
   * formatting of the committed rows is sent unless formatting fails.
   */
  method BatchUpdateMatchingResults(ws: Worksheet, results: seq<MatchedResult>, fault: Fault, formatFails: bool)
    returns (count: int)
    requires RowsValid(results)
    modifies ws
    ensures count == Commit(old(ws.grid), results, fault).count
    ensures ws.grid == Commit(old(ws.grid), results, fault).grid
    ensures ws.formats == old(ws.formats) +
      (if formatFails then [] else SoldOutRequests(Commit(old(ws.grid), results, fault).soldout,
                                                   Commit(old(ws.grid), results, fault).total))
  {
    if results == [] || fault == FailOpen {
      return 0;
    }
    var g := ws.grid;
    var h := ws.RowValues1();
    var headers, cols := LocateResultColumns(h);
    ExtendHeaderPositions(h, ResultColumns);
    var current := ws.RowValues1();
    if |headers| > |current| {
      if fault == FailHeaderWrite {
        return 0;
      }
      ws.UpdateHeaderRow(headers);
    }
    assert ws.grid == AfterHeader(g) && cols == ResultCols(g) && headers == NewHeader(g);
    if fault == FailRead {
      return 0;
    }
    var allData := ws.GetAllValues();
    var existing := ReadReconciled(allData, cols[0]);
    var updates, soldout, n := StageResults(results, existing, cols);
    if updates != [] {
      if fault == FailCellWrite {
        return 0;
      }
      StagedWritesValid(results, existing, cols);
      ws.BatchUpdate(updates);
    }
    if soldout != [] {
      ApplySoldoutFormatting(ws, soldout, |headers|, formatFails);
    }
    return n;
  }

  /** update_matching_result: a batch of one; success means the row was written. */
  method UpdateMatchingResult(ws: Worksheet, row: int, data: map<string, string>, matchType: string,
                              fault: Fault, formatFails: bool)
    returns (ok: bool)
    requires row >= 1
    modifies ws
    ensures ok <==> Commit(old(ws.grid), [MatchedResult(row, data, Some(matchType))], fault).count > 0
    ensures ws.grid == Commit(old(ws.grid), [MatchedResult(row, data, Some(matchType))], fault).grid
    ensures ws.formats == old(ws.formats) +
      (if formatFails then []
       else SoldOutRequests(Commit(old(ws.grid), [MatchedResult(row, data, Some(matchType))], fault).soldout,
                            Commit(old(ws.grid), [MatchedResult(row, data, Some(matchType))], fault).total))
  {
    var count := BatchUpdateMatchingResults(ws, [MatchedResult(row, data, Some(matchType))], fault, formatFails);
    ok := count > 0;
  }

  /**
   * A single update succeeds exactly when every sheet call works and its row
   * is not already reconciled; then its six cells hold the new values.
   */
  lemma SingleUpdateOutcome(g: Grid, x: MatchedResult, fault: Fault)
    requires x.row >= 1
    ensures Commit(g, [x], fault).count > 0 <==>
      (fault == NoFault || (fault == FailHeaderWrite && !HeaderGrew(g))) && x.row !in Skip(g)
    ensures Commit(g, [x], fault).count > 0 ==>
      forall k :: 0 <= k < 6 ==> Cell(Commit(g, [x], fault).grid, x.row, ResultCols(g)[k]) == ResultValue(x, k)
  {
    var skip := Skip(g);
    assert Committed([x], skip) == if x.row in skip then [] else [x];
    StagedWritesEmpty([x], skip, ResultCols(g));
    CommitFault(g, [x], fault);
    if Commit(g, [x], fault).count > 0 {
      forall k | 0 <= k < 6
        ensures Cell(Commit(g, [x], fault).grid, x.row, ResultCols(g)[k]) == ResultValue(x, k)
      {
        CommitCellWritten(g, [x], 0, k);
        assert Commit(g, [x], fault) == Commit(g, [x], NoFault);
      }
    }
  }
}
