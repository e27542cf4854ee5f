/**
 * The reconciliation ledger of batch_update_matching_results
 * (src/utils.py:250-388) as values: the result columns and how the header
 * grows to hold them, the set of already-reconciled rows, the cell writes
 * and sold-out rows staged for a batch, and the whole commit as a function
 * of the grid, the batch and the point at which a sheet call fails.
 */
module Ledger {
  import opened Wrappers
  import opened Text
  import opened Seqs
  import opened Grid

  /** The six result columns, in the order they are looked up and appended. */
  const ResultColumns: seq<string> := ["매칭상품_상품명", "매칭_매입", "매칭_매출", "매칭_매입(업체)", "매칭_탭", "매칭방식"]

  /** The payload keys written to the first five result columns. */
  const PayloadKeys: seq<string> := ["상품명", "매입", "매출", "매입(업체)", "탭"]

  const DefaultMatchType := "수동매칭"
  const SoldOutMark := "품절"

  /** One entry of matched_results: a 1-based sheet row, the payload dictionary and the optional match_type. */
  datatype MatchedResult = MatchedResult(row: int, data: map<string, string>, matchType: Option<string>)

  /** data.get(key, ''). */
  function Get(data: map<string, string>, key: string): string {
    if key in data then data[key] else ""
  }

  /** The value written to result column k (0-based) for result x. */
  function ResultValue(x: MatchedResult, k: int): (v: string)
    requires 0 <= k < 6
    ensures k < 5 && PayloadKeys[k] in x.data ==> v == x.data[PayloadKeys[k]]
    ensures k < 5 && PayloadKeys[k] !in x.data ==> v == ""
    ensures k == 5 && x.matchType.Some? ==> v == x.matchType.value
    ensures k == 5 && x.matchType.None? ==> v == DefaultMatchType
  {
    if k < 5 then Get(x.data, PayloadKeys[k])
    else match x.matchType case Some(t) => t case None => DefaultMatchType
  }

  /** The tab label of a result, which decides sold-out formatting. */
  function TabOf(x: MatchedResult): string {
    Get(x.data, "탭")
  }

  // ---------------------------------------------------------------------
  // Header extension (src/utils.py:281-300)
  // ---------------------------------------------------------------------

  /**
   * The header after looking up each name in turn (first occurrence,
   * 1-based) and appending the ones that are missing; also the column
   * found or assigned for each name.
   */
  function ExtendHeader(h: seq<string>, names: seq<string>): (res: (seq<string>, seq<int>))
    ensures |res.1| == |names|
  {
    if names == [] then (h, [])
    else
      var prev := ExtendHeader(h, names[..|names| - 1]);
      var n := names[|names| - 1];
      match IndexOf(prev.0, n)
      case Some(i) => (prev.0, prev.1 + [i + 1])
      case None => (prev.0 + [n], prev.1 + [|prev.0| + 1])
  }

  predicate Distinct(s: seq<string>) {
    forall i, j :: 0 <= i < j < |s| ==> s[i] != s[j]
  }

  lemma ResultColumnsDistinct()
    ensures Distinct(ResultColumns) && |ResultColumns| == 6
  {
  }

  /** Every column found or assigned is a 1-based position. */
  lemma {:induction false} ExtendHeaderColsPositive(h: seq<string>, names: seq<string>)
    ensures forall k :: 0 <= k < |names| ==> ExtendHeader(h, names).1[k] >= 1
  {
    if names != [] {
      ExtendHeaderColsPositive(h, names[..|names| - 1]);
    }
  }

  /** Existing entries never move: the old header is a prefix of the new one. */
  lemma {:induction false} ExtendHeaderPrefix(h: seq<string>, names: seq<string>)
    ensures h <= ExtendHeader(h, names).0
  {
    if names != [] {
      ExtendHeaderPrefix(h, names[..|names| - 1]);
    }
  }

  /** One step of the header loop: the last name is looked up in the header built so far. */
  lemma ExtendHeaderStep(h: seq<string>, names: seq<string>)
    requires names != []
    ensures var prev := ExtendHeader(h, names[..|names| - 1]);
      var n := names[|names| - 1];
      ExtendHeader(h, names) ==
        if IndexOf(prev.0, n).Some? then (prev.0, prev.1 + [IndexOf(prev.0, n).value + 1])
        else (prev.0 + [n], prev.1 + [|prev.0| + 1])
  {
  }

  /** x first occurs in s at position i (headers.index(x) == i). */
  predicate FirstAt(s: seq<string>, x: string, i: int) {
    0 <= i < |s| && s[i] == x && forall j :: 0 <= j < i ==> s[j] != x
  }

  lemma IndexOfFirstAt(s: seq<string>, x: string, i: int)
    ensures IndexOf(s, x) == Some(i) <==> FirstAt(s, x, i)
  {
    if FirstAt(s, x, i) {
      assert IndexOf(s, x).Some?;
    }
  }

  /**
   * Each name gets the 1-based position of its first occurrence in the new
   * header, which is its old position when the old header already had it.
   */
  lemma {:induction false} ExtendHeaderPositions(h: seq<string>, names: seq<string>)
    ensures forall k :: 0 <= k < |names| ==> FirstAt(ExtendHeader(h, names).0, names[k], ExtendHeader(h, names).1[k] - 1)
    ensures forall k :: 0 <= k < |names| && names[k] in h ==> FirstAt(h, names[k], ExtendHeader(h, names).1[k] - 1)
  {
    if names != [] {
      var init := names[..|names| - 1];
      var n := names[|names| - 1];
      ExtendHeaderPositions(h, init);
      ExtendHeaderPrefix(h, init);
      ExtendHeaderStep(h, names);
      var h0 := ExtendHeader(h, init).0;
      var c0 := ExtendHeader(h, init).1;
      var h' := ExtendHeader(h, names).0;
      var cols := ExtendHeader(h, names).1;
      assert h0 <= h';
      forall k | 0 <= k < |names|
        ensures FirstAt(h', names[k], cols[k] - 1)
        ensures names[k] in h ==> FirstAt(h, names[k], cols[k] - 1)
      {
        if k < |init| {
          assert init[k] == names[k] && cols[k] == c0[k];
          FirstAtPrefix(h0, h', names[k], cols[k] - 1);
        } else {
          IndexOfFirstAt(h0, n, cols[k] - 1);
          IndexOfFirstAt(h', n, cols[k] - 1);
          if IndexOf(h0, n).None? {
            assert n !in h0;
            assert FirstAt(h', n, |h0|);
          } else if n in h {
            IndexOfFirstAt(h, n, IndexOf(h, n).value);
            FirstAtPrefix(h, h0, n, IndexOf(h, n).value);
          }
        }
      }
    }
  }

  /** A first occurrence in a prefix is the first occurrence in the whole. */
  lemma FirstAtPrefix(a: seq<string>, b: seq<string>, x: string, i: int)
    requires a <= b && FirstAt(a, x, i)
    ensures FirstAt(b, x, i)
  {
    assert forall j :: 0 <= j <= i ==> b[j] == a[j];
  }

  /** The entries appended are exactly the names the header lacked, in the given order. */
  lemma {:induction false} ExtendHeaderAppends(h: seq<string>, names: seq<string>)
    requires Distinct(names)
    ensures ExtendHeader(h, names).0 == h + Filter(names, (n: string) => n !in h)
  {
    if names != [] {
      var init := names[..|names| - 1];
      var n := names[|names| - 1];
      var missing := (n: string) => n !in h;
      assert Distinct(init);
      ExtendHeaderAppends(h, init);
      ExtendHeaderStep(h, names);
      var h0 := ExtendHeader(h, init).0;
      assert names == init + [n];
      FilterAppend(init, [n], missing);
      if n !in h {
        assert forall k :: 0 <= k < |init| ==> init[k] != n;
        assert n !in Filter(init, missing);
        assert n !in h0;
      }
    }
  }

  /** The header grows exactly when some name is missing from it. */
  lemma HeaderGrows(h: seq<string>, names: seq<string>)
    requires Distinct(names)
    ensures |ExtendHeader(h, names).0| > |h| <==> exists k :: 0 <= k < |names| && names[k] !in h
  {
    ExtendHeaderAppends(h, names);
    var missing := Filter(names, (n: string) => n !in h);
    if missing != [] {
      assert missing[0] in names;
    }
  }

  /** A header that already holds every name is left as it is, each name at its first occurrence. */
  lemma {:induction false} HeaderComplete(h: seq<string>, names: seq<string>)
    requires forall k :: 0 <= k < |names| ==> names[k] in h
    ensures ExtendHeader(h, names).0 == h
    ensures forall k :: 0 <= k < |names| ==> ExtendHeader(h, names).1[k] == IndexOf(h, names[k]).value + 1
  {
    if names != [] {
      var init := names[..|names| - 1];
      assert forall k :: 0 <= k < |init| ==> init[k] == names[k];
      HeaderComplete(h, init);
    }
  }

  /** Extending an already extended header changes nothing: same header, same columns. */
  lemma ExtendHeaderStable(h: seq<string>, names: seq<string>)
    ensures ExtendHeader(ExtendHeader(h, names).0, names) == ExtendHeader(h, names)
  {
    var h' := ExtendHeader(h, names).0;
    var cols := ExtendHeader(h, names).1;
    ExtendHeaderPositions(h, names);
    forall k | 0 <= k < |names| ensures names[k] in h' && IndexOf(h', names[k]).value + 1 == cols[k] {
      assert FirstAt(h', names[k], cols[k] - 1);
      IndexOfFirstAt(h', names[k], cols[k] - 1);
    }
    HeaderComplete(h', names);
    assert ExtendHeader(h', names).1 == cols;
  }

  // ---------------------------------------------------------------------
  // Already-reconciled rows (src/utils.py:303-313)
  // ---------------------------------------------------------------------

  /** Body rows (1-based, from 2) whose 매칭상품_상품명 cell (column col) is not blank. */
  function Reconciled(g: Grid, col: int): (rows: set<int>)
    ensures 1 !in rows
    ensures |g| <= 1 ==> rows == {}
    ensures forall r :: r in rows ==> r <= |g| && !IsBlank(Cell(g, r, col))
  {
    set r | 2 <= r <= |g| && !IsBlank(Cell(g, r, col))
  }

  // ---------------------------------------------------------------------
  // Staging (src/utils.py:315-372)
  // ---------------------------------------------------------------------

  /** A sold-out row to format: its 1-based row and the 1-based 매칭_탭 column. */
  datatype SoldOutRow = SoldOutRow(row: int, tabCol: int)

  /** The six writes of one result, one per result column, in column order. */
  function WritesFor(x: MatchedResult, cols: seq<int>): (ws: seq<CellWrite>)
    requires |cols| == 6
    ensures |ws| == 6
    ensures forall k :: 0 <= k < 6 ==> ws[k] == CellWrite(x.row, cols[k], ResultValue(x, k))
  {
    seq(6, k requires 0 <= k < 6 => CellWrite(x.row, cols[k], ResultValue(x, k)))
  }

  /** Does the batch skip x? */
  predicate Skipped(x: MatchedResult, skip: set<int>) {
    x.row in skip
  }

  function StageWrites(skip: set<int>, cols: seq<int>): MatchedResult -> seq<CellWrite>
    requires |cols| == 6
  {
    (x: MatchedResult) => if Skipped(x, skip) then [] else WritesFor(x, cols)
  }

  function StageSoldOut(skip: set<int>, tabCol: int): MatchedResult -> seq<SoldOutRow> {
    (x: MatchedResult) => if !Skipped(x, skip) && Contains(TabOf(x), SoldOutMark) then [SoldOutRow(x.row, tabCol)] else []
  }

  /** The results the batch commits: those whose row was not reconciled, duplicates kept. */
  function Committed(results: seq<MatchedResult>, skip: set<int>): seq<MatchedResult> {
    Filter(results, (x: MatchedResult) => !Skipped(x, skip))
  }

  /** The `updates` list: six writes for each committed result, in result order. */
  function StagedWrites(results: seq<MatchedResult>, skip: set<int>, cols: seq<int>): seq<CellWrite>
    requires |cols| == 6
  {
    Concat(results, StageWrites(skip, cols))
  }

  /** The `soldout_rows` list: committed results whose tab label contains 품절. */
  function StagedSoldOut(results: seq<MatchedResult>, skip: set<int>, tabCol: int): seq<SoldOutRow> {
    Concat(results, StageSoldOut(skip, tabCol))
  }

  /** Every staged write belongs to a committed result: its row, one of the result columns. */
  lemma StagedWriteOrigin(results: seq<MatchedResult>, skip: set<int>, cols: seq<int>, w: CellWrite)
    requires |cols| == 6
    requires w in StagedWrites(results, skip, cols)
    ensures exists j, k ::
      && 0 <= j < |results| && 0 <= k < 6 && !Skipped(results[j], skip)
      && w == CellWrite(results[j].row, cols[k], ResultValue(results[j], k))
  {
    ConcatMembership(results, StageWrites(skip, cols), w);
    var j :| 0 <= j < |results| && w in StageWrites(skip, cols)(results[j]);
    var ws := WritesFor(results[j], cols);
    var k :| 0 <= k < 6 && ws[k] == w;
  }

  /** The staged sold-out rows are exactly the committed results whose tab contains 품절. */
  lemma StagedSoldOutMembership(results: seq<MatchedResult>, skip: set<int>, tabCol: int, s: SoldOutRow)
    ensures s in StagedSoldOut(results, skip, tabCol) <==>
      exists j :: 0 <= j < |results| && !Skipped(results[j], skip) && Contains(TabOf(results[j]), SoldOutMark) &&
        s == SoldOutRow(results[j].row, tabCol)
  {
    ConcatMembership(results, StageSoldOut(skip, tabCol), s);
  }

  /** The batch stages writes exactly when it commits some result. */
  lemma StagedWritesEmpty(results: seq<MatchedResult>, skip: set<int>, cols: seq<int>)
    requires |cols| == 6
    ensures StagedWrites(results, skip, cols) == [] <==> Committed(results, skip) == []
    ensures StagedWrites(results, skip, cols) == [] <==> forall j :: 0 <= j < |results| ==> Skipped(results[j], skip)
  {
    var ws := StagedWrites(results, skip, cols);
    if ws != [] {
      StagedWriteOrigin(results, skip, cols, ws[0]);
    }
    if exists j :: 0 <= j < |results| && !Skipped(results[j], skip) {
      var j :| 0 <= j < |results| && !Skipped(results[j], skip);
      ConcatMembership(results, StageWrites(skip, cols), WritesFor(results[j], cols)[0]);
      assert results[j] in Committed(results, skip);
    }
    if Committed(results, skip) != [] {
      assert Committed(results, skip)[0] in results;
    }
  }

  /** The last write to (row, cols[k]) is the value of the last committed result at that row. */
  lemma {:induction false} StagedLastWrite(results: seq<MatchedResult>, skip: set<int>, cols: seq<int>, j: int, k: int)
    requires |cols| == 6 && forall a, b :: 0 <= a < b < 6 ==> cols[a] != cols[b]
    requires 0 <= j < |results| && !Skipped(results[j], skip) && 0 <= k < 6
    requires forall j' :: j < j' < |results| ==> results[j'].row != results[j].row
    ensures LastWrite(StagedWrites(results, skip, cols), results[j].row, cols[k]) == Some(ResultValue(results[j], k))
  {
    var n := |results|;
    var init := results[..n - 1];
    var f := StageWrites(skip, cols);
    assert StagedWrites(results, skip, cols) == StagedWrites(init, skip, cols) + f(results[n - 1]);
    LastWriteAppend(StagedWrites(init, skip, cols), f(results[n - 1]), results[j].row, cols[k]);
    var x := results[j];
    if j == n - 1 {
      var ws := WritesFor(x, cols);
      assert ws[5].row == x.row;
      LastWriteOfSix(ws, x, cols, k);
    } else {
      assert init[j] == x;
      forall j' | j < j' < |init| ensures init[j'].row != init[j].row {
        assert init[j'] == results[j'];
      }
      StagedLastWrite(init, skip, cols, j, k);
      assert LastWrite(f(results[n - 1]), x.row, cols[k]).None?;
    }
  }

  /** Within the six writes of one result, the write to cols[k] is the k-th. */
  lemma LastWriteOfSix(ws: seq<CellWrite>, x: MatchedResult, cols: seq<int>, k: int)
    requires |cols| == 6 && forall a, b :: 0 <= a < b < 6 ==> cols[a] != cols[b]
    requires ws == WritesFor(x, cols) && 0 <= k < 6
    ensures LastWrite(ws, x.row, cols[k]) == Some(ResultValue(x, k))
  {
    if k < 5 {
      var tail := ws[k + 1..];
      assert ws == ws[..k + 1] + tail;
      LastWriteAppend(ws[..k + 1], tail, x.row, cols[k]);
      assert forall i :: 0 <= i < |tail| ==> tail[i] == ws[k + 1 + i];
    }
  }

  // ---------------------------------------------------------------------
  // Sold-out formatting (src/utils.py:391-463)
  // ---------------------------------------------------------------------

  /** The two cell styles; the colours themselves are not modelled. */
  datatype Style = SoldOutRowFill | SoldOutTabCell

  /** A repeatCell request over 0-based rows [startRow, endRow) and columns [startCol, endCol). */
  datatype FormatRequest = FormatRequest(style: Style, startRow: int, endRow: int, startCol: int, endCol: int)

  /** The two requests of one sold-out row: the whole row, then the 매칭_탭 cell. */
  function RequestsFor(total: int): SoldOutRow -> seq<FormatRequest> {
    (s: SoldOutRow) => [FormatRequest(SoldOutRowFill, s.row - 1, s.row, 0, total),
                        FormatRequest(SoldOutTabCell, s.row - 1, s.row, s.tabCol - 1, s.tabCol)]
  }

  /** The `requests` list of _apply_soldout_formatting. */
  function SoldOutRequests(rows: seq<SoldOutRow>, total: int): (reqs: seq<FormatRequest>)
    ensures |reqs| == 2 * |rows|
    ensures rows == [] ==> reqs == []
  {
    ConcatLength(rows, RequestsFor(total), 2);
    Concat(rows, RequestsFor(total))
  }

  /**
   * Exactly two requests per sold-out row, in row order: the whole row
   * (columns [0, total)) and its 매칭_탭 cell, both on 0-based row row-1.
   */
  lemma {:induction false} SoldOutRequestsShape(rows: seq<SoldOutRow>, total: int)
    ensures |SoldOutRequests(rows, total)| == 2 * |rows|
    ensures forall i :: 0 <= i < |rows| ==>
      && SoldOutRequests(rows, total)[2 * i] == FormatRequest(SoldOutRowFill, rows[i].row - 1, rows[i].row, 0, total)
      && SoldOutRequests(rows, total)[2 * i + 1] ==
           FormatRequest(SoldOutTabCell, rows[i].row - 1, rows[i].row, rows[i].tabCol - 1, rows[i].tabCol)
  {
    if rows != [] {
      var init := rows[..|rows| - 1];
      SoldOutRequestsShape(init, total);
      assert forall i :: 0 <= i < |init| ==> init[i] == rows[i];
    }
  }

  // ---------------------------------------------------------------------
  // The whole commit
  // ---------------------------------------------------------------------

  /** Which sheet call raises, if any; a call that is not made cannot raise. */
  datatype Fault = NoFault | FailOpen | FailHeaderWrite | FailRead | FailCellWrite

  /** The new grid, the returned count, and the sold-out rows with the header width handed to formatting. */
  datatype Outcome = Outcome(grid: Grid, count: int, soldout: seq<SoldOutRow>, total: int)

  /** All rows a batch names are 1-based, as the callers promise. */
  predicate RowsValid(results: seq<MatchedResult>) {
    forall j :: 0 <= j < |results| ==> results[j].row >= 1
  }

  /** Six 1-based column positions. */
  predicate ColsValid(cols: seq<int>) {
    |cols| == 6 && forall k :: 0 <= k < 6 ==> cols[k] >= 1
  }

  /** The columns assigned to the six result columns on grid g. */
  function ResultCols(g: Grid): (cols: seq<int>)
    ensures ColsValid(cols)
  {
    ExtendHeaderColsPositive(Header(g), ResultColumns);
    ExtendHeader(Header(g), ResultColumns).1
  }

  /** The header after the header step. */
  function NewHeader(g: Grid): seq<string> {
    ExtendHeader(Header(g), ResultColumns).0
  }

  /** Does the header step have to rewrite the header row? */
  predicate HeaderGrew(g: Grid) {
    |NewHeader(g)| > |Header(g)|
  }

  /** The grid after the header step: the header row rewritten only when it grew. */
  function AfterHeader(g: Grid): Grid {
    if HeaderGrew(g) then WriteHeader(g, NewHeader(g)) else g
  }

  /** Staged writes address 1-based cells. */
  lemma StagedWritesValid(results: seq<MatchedResult>, skip: set<int>, cols: seq<int>)
    requires RowsValid(results) && ColsValid(cols)
    ensures forall k :: 0 <= k < |StagedWrites(results, skip, cols)| ==>
      StagedWrites(results, skip, cols)[k].row >= 1 && StagedWrites(results, skip, cols)[k].col >= 1
  {
    forall k | 0 <= k < |StagedWrites(results, skip, cols)|
      ensures StagedWrites(results, skip, cols)[k].row >= 1 && StagedWrites(results, skip, cols)[k].col >= 1
    {
      StagedWriteOrigin(results, skip, cols, StagedWrites(results, skip, cols)[k]);
    }
  }

  /**
   * The read, the staging loop and the batched write, on the grid g1 left by
   * the header step; the write fails when writeFails and there is something to write.
   */
  function WriteBatch(g1: Grid, results: seq<MatchedResult>, cols: seq<int>, total: int, writeFails: bool): (o: Outcome)
    requires RowsValid(results) && ColsValid(cols)
    ensures 0 <= o.count <= |results|
    ensures o.count > 0 ==> !writeFails
    ensures writeFails ==> o.grid == g1
  {
    var skip := Reconciled(g1, cols[0]);
    var writes := StagedWrites(results, skip, cols);
    StagedWritesValid(results, skip, cols);
    StagedWritesEmpty(results, skip, cols);
    if writes != [] && writeFails then Outcome(g1, 0, [], 0)
    else Outcome(ApplyWrites(g1, writes), |Committed(results, skip)|, StagedSoldOut(results, skip, cols[4]), total)
  }

  /** batch_update_matching_results as a function of the grid, the batch and the failing call. */
  function Commit(g: Grid, results: seq<MatchedResult>, fault: Fault): (o: Outcome)
    requires RowsValid(results)
    ensures 0 <= o.count <= |results|
    ensures o.count > 0 ==> fault == NoFault || fault == FailHeaderWrite
    ensures fault != NoFault && fault != FailHeaderWrite ==> o.grid == g || o.grid == AfterHeader(g)
  {
    if results == [] || fault == FailOpen then Outcome(g, 0, [], 0)
    else if HeaderGrew(g) && fault == FailHeaderWrite then Outcome(g, 0, [], 0)
    else if fault == FailRead then Outcome(AfterHeader(g), 0, [], 0)
    else WriteBatch(AfterHeader(g), results, ResultCols(g), |NewHeader(g)|, fault == FailCellWrite)
  }
}
