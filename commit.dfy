/**
 * What a whole batch commit promises (src/utils.py:250-388): an empty batch
 * and a failing sheet call return 0, only the header row and the result
 * cells of committed rows change, each written cell holds the last
 * committed value for its row, rows already reconciled are untouched, and
 * a second identical batch commits nothing.
 */
module CommitFacts {
  import opened Wrappers
  import opened Text
  import opened Seqs
  import opened Grid
  import opened Ledger

  /** The rows the batch skips on grid g. */
  function Skip(g: Grid): set<int> {
    Reconciled(AfterHeader(g), ResultCols(g)[0])
  }

  /** An empty batch returns 0 and touches nothing (src/utils.py:270-271). */
  lemma CommitEmpty(g: Grid, fault: Fault)
    ensures Commit(g, [], fault) == Outcome(g, 0, [], 0)
  {
  }

  /**
   * A failing sheet call makes the batch return 0; a count above 0 means no
   * call failed (a header write that is not needed is not made). A failing
   * open or header write leaves the sheet as it was; a failing read or cell
   * write leaves the header row rewritten and nothing else.
   */
  lemma CommitFault(g: Grid, results: seq<MatchedResult>, fault: Fault)
    requires RowsValid(results)
    ensures var o := Commit(g, results, fault);
      && (o.count > 0 ==> fault == NoFault || (fault == FailHeaderWrite && !HeaderGrew(g)))
      && (fault == FailOpen ==> o == Outcome(g, 0, [], 0))
      && (fault == FailHeaderWrite && HeaderGrew(g) ==> o == Outcome(g, 0, [], 0))
      && (results != [] && fault == FailRead ==> o == Outcome(AfterHeader(g), 0, [], 0))
      && (results != [] && fault == FailCellWrite ==> o.count == 0 && o.grid == AfterHeader(g))
  {
    StagedWritesEmpty(results, Skip(g), ResultCols(g));
  }

  /** The header row after the header step is the extended header; no other row changes. */
  lemma AfterHeaderHeader(g: Grid)
    ensures Header(AfterHeader(g)) == NewHeader(g)
    ensures |AfterHeader(g)| >= 1 && (g != [] ==> |AfterHeader(g)| == |g|)
    ensures forall r, c :: r != 1 ==> Cell(AfterHeader(g), r, c) == Cell(g, r, c)
  {
    ExtendHeaderPrefix(Header(g), ResultColumns);
    HeaderGrows(Header(g), ResultColumns);
    ResultColumnsDistinct();
    if g == [] {
      assert ResultColumns[0] !in Header(g);
    }
    forall r, c | r != 1 ensures Cell(AfterHeader(g), r, c) == Cell(g, r, c) {
      if HeaderGrew(g) {
        WriteHeaderCell(g, NewHeader(g), r, c);
      }
    }
  }

  /** The result columns are distinct positions inside the new header. */
  lemma ResultColsFacts(g: Grid)
    ensures var cols := ResultCols(g);
      && (forall k :: 0 <= k < 6 ==> 1 <= cols[k] <= |NewHeader(g)| && NewHeader(g)[cols[k] - 1] == ResultColumns[k])
      && (forall a, b :: 0 <= a < b < 6 ==> cols[a] != cols[b])
  {
    ExtendHeaderPositions(Header(g), ResultColumns);
    ResultColumnsDistinct();
    var cols := ResultCols(g);
    forall a, b | 0 <= a < b < 6 ensures cols[a] != cols[b] {
      assert FirstAt(NewHeader(g), ResultColumns[a], cols[a] - 1);
      assert FirstAt(NewHeader(g), ResultColumns[b], cols[b] - 1);
    }
  }

  /** Without a fault, the new grid is the staged writes applied after the header step. */
  lemma CommitGrid(g: Grid, results: seq<MatchedResult>)
    requires RowsValid(results) && results != []
    ensures forall k :: 0 <= k < |StagedWrites(results, Skip(g), ResultCols(g))| ==>
      StagedWrites(results, Skip(g), ResultCols(g))[k].row >= 1 && StagedWrites(results, Skip(g), ResultCols(g))[k].col >= 1
    ensures Commit(g, results, NoFault).grid == ApplyWrites(AfterHeader(g), StagedWrites(results, Skip(g), ResultCols(g)))
  {
    var cols := ResultCols(g);
    var writes := StagedWrites(results, Skip(g), cols);
    StagedWritesValid(results, Skip(g), cols);
    assert Commit(g, results, NoFault) == WriteBatch(AfterHeader(g), results, cols, |NewHeader(g)|, false);
    assert WriteBatch(AfterHeader(g), results, cols, |NewHeader(g)|, false).grid == ApplyWrites(AfterHeader(g), writes);
  }

  /**
   * Cells that are not a result cell of a committed result keep the value
   * they had after the header step: nothing else is written.
   */
  lemma CommitCellKept(g: Grid, results: seq<MatchedResult>, r: int, c: int)
    requires RowsValid(results) && results != []
    requires forall j :: 0 <= j < |results| && !Skipped(results[j], Skip(g)) ==>
      results[j].row != r || c !in ResultCols(g)
    ensures Cell(Commit(g, results, NoFault).grid, r, c) == Cell(AfterHeader(g), r, c)
  {
    var cols := ResultCols(g);
    var writes := StagedWrites(results, Skip(g), cols);
    CommitGrid(g, results);
    forall k | 0 <= k < |writes| ensures !(writes[k].row == r && writes[k].col == c) {
      StagedWriteOrigin(results, Skip(g), cols, writes[k]);
    }
    ApplyWritesCell(AfterHeader(g), writes, r, c);
  }

  /** A row the batch found reconciled keeps every cell. */
  lemma CommitReconciledRowKept(g: Grid, results: seq<MatchedResult>, r: int, c: int)
    requires RowsValid(results) && results != []
    requires r in Skip(g)
    ensures Cell(Commit(g, results, NoFault).grid, r, c) == Cell(g, r, c)
  {
    CommitCellKept(g, results, r, c);
    AfterHeaderHeader(g);
  }

  /**
   * A committed result's six cells hold its six values (payload fields, then
   * match_type), unless a later result in the batch writes the same row.
   */
  lemma CommitCellWritten(g: Grid, results: seq<MatchedResult>, j: int, k: int)
    requires RowsValid(results) && 0 <= j < |results| && 0 <= k < 6
    requires !Skipped(results[j], Skip(g))
    requires forall j' :: j < j' < |results| ==> results[j'].row != results[j].row
    ensures Cell(Commit(g, results, NoFault).grid, results[j].row, ResultCols(g)[k]) == ResultValue(results[j], k)
  {
    var cols := ResultCols(g);
    var writes := StagedWrites(results, Skip(g), cols);
    var r := results[j].row;
    var v := ResultValue(results[j], k);
    assert LastWrite(writes, r, cols[k]) == Some(v) by {
      ResultColsFacts(g);
      StagedLastWrite(results, Skip(g), cols, j, k);
    }
    StagedWritesValid(results, Skip(g), cols);
    assert Cell(ApplyWrites(AfterHeader(g), writes), r, cols[k]) == v by {
      ApplyWritesCell(AfterHeader(g), writes, r, cols[k]);
    }
    CommitGrid(g, results);
  }

  /** The last result of the batch on the same row as result j. */
  lemma LastSameRow(results: seq<MatchedResult>, j: int) returns (j': int)
    requires 0 <= j < |results|
    ensures j <= j' < |results| && results[j'].row == results[j].row
    ensures forall i :: j' < i < |results| ==> results[i].row != results[j].row
  {
    j' := |results| - 1;
    while results[j'].row != results[j].row
      invariant j <= j' < |results|
      invariant forall i :: j' < i < |results| ==> results[i].row != results[j].row
      decreases j'
    {
      j' := j' - 1;
    }
  }

  /** Batch rows below the header. */
  predicate BodyRows(results: seq<MatchedResult>) {
    forall j :: 0 <= j < |results| ==> results[j].row >= 2
  }

  /** A commit whose rows are all below the header leaves the extended header in row 1. */
  lemma CommitKeepsHeader(g: Grid, results: seq<MatchedResult>)
    requires BodyRows(results) && results != []
    ensures Header(Commit(g, results, NoFault).grid) == NewHeader(g)
    ensures |Commit(g, results, NoFault).grid| >= |AfterHeader(g)|
  {
    var cols := ResultCols(g);
    var writes := StagedWrites(results, Skip(g), cols);
    CommitGrid(g, results);
    AfterHeaderHeader(g);
    forall k | 0 <= k < |writes| ensures writes[k].row != 1 {
      StagedWriteOrigin(results, Skip(g), cols, writes[k]);
    }
    ApplyWritesRowKept(AfterHeader(g), writes, 1);
    ApplyWritesRows(AfterHeader(g), writes);
  }

  /** The last result of the batch on row r carries a non-blank product name. */
  predicate LastOnRowNamed(results: seq<MatchedResult>, r: int) {
    forall i :: (0 <= i < |results| && results[i].row == r && forall i' :: i < i' < |results| ==> results[i'].row != r) ==>
      !IsBlank(Get(results[i].data, "상품명"))
  }

  /**
   * After a commit, a row of the batch is reconciled when it already was, or
   * when the last result written to it carries a non-blank product name.
   */
  lemma CommitMarksRows(g: Grid, results: seq<MatchedResult>, j: int)
    requires BodyRows(results) && results != [] && 0 <= j < |results|
    requires results[j].row in Skip(g) || LastOnRowNamed(results, results[j].row)
    ensures results[j].row in Reconciled(Commit(g, results, NoFault).grid, ResultCols(g)[0])
  {
    var cols := ResultCols(g);
    var g2 := Commit(g, results, NoFault).grid;
    var r := results[j].row;
    if r in Skip(g) {
      CommitKeepsHeader(g, results);
      CommitCellKept(g, results, r, cols[0]);
    } else {
      var j' := LastSameRow(results, j);
      assert !IsBlank(Get(results[j'].data, "상품명"));
      CommitCellWritten(g, results, j', 0);
      CommittedRowInGrid(g, results, j');
    }
  }

  /**
   * A fresh row whose last result carries a blank product name is written
   * blank, so it is still not reconciled after the commit.
   */
  lemma CommitLeavesBlankRow(g: Grid, results: seq<MatchedResult>, j: int)
    requires BodyRows(results) && 0 <= j < |results|
    requires results[j].row !in Skip(g) && !LastOnRowNamed(results, results[j].row)
    ensures results[j].row !in Reconciled(Commit(g, results, NoFault).grid, ResultCols(g)[0])
  {
    var r := results[j].row;
    var i :| (0 <= i < |results| && results[i].row == r && forall i' :: i < i' < |results| ==> results[i'].row != r) &&
      IsBlank(Get(results[i].data, "상품명"));
    CommitCellWritten(g, results, i, 0);
  }

  /** The row of a committed result exists in the new grid. */
  lemma CommittedRowInGrid(g: Grid, results: seq<MatchedResult>, j: int)
    requires RowsValid(results) && 0 <= j < |results|
    requires !Skipped(results[j], Skip(g))
    ensures results[j].row <= |Commit(g, results, NoFault).grid|
  {
    var cols := ResultCols(g);
    var writes := StagedWrites(results, Skip(g), cols);
    CommitGrid(g, results);
    ApplyWritesRows(AfterHeader(g), writes);
    ConcatMembership(results, StageWrites(Skip(g), cols), WritesFor(results[j], cols)[0]);
    var k :| 0 <= k < |writes| && writes[k] == WritesFor(results[j], cols)[0];
  }

  /**
   * Idempotence: repeating a successful commit of body rows, each of whose
   * rows was already reconciled or received a non-blank product name last,
   * commits nothing and changes nothing.
   */
  lemma CommitTwice(g: Grid, results: seq<MatchedResult>)
    requires BodyRows(results) && results != []
    requires forall j :: 0 <= j < |results| ==> results[j].row in Skip(g) || LastOnRowNamed(results, results[j].row)
    ensures var g2 := Commit(g, results, NoFault).grid;
      Commit(g2, results, NoFault) == Outcome(g2, 0, [], |NewHeader(g)|)
  {
    SecondCommitSkipsAll(g, results);
    CommitAllSkipped(Commit(g, results, NoFault).grid, results);
  }

  /** A commit on a grid whose header is complete and whose batch rows are all reconciled changes nothing. */
  lemma CommitAllSkipped(g: Grid, results: seq<MatchedResult>)
    requires RowsValid(results) && results != [] && AfterHeader(g) == g
    requires forall j :: 0 <= j < |results| ==> Skipped(results[j], Skip(g))
    ensures Commit(g, results, NoFault) == Outcome(g, 0, [], |NewHeader(g)|)
  {
    var cols := ResultCols(g);
    var skip := Skip(g);
    StagedWritesEmpty(results, skip, cols);
    if StagedSoldOut(results, skip, cols[4]) != [] {
      StagedSoldOutMembership(results, skip, cols[4], StagedSoldOut(results, skip, cols[4])[0]);
    }
    assert Commit(g, results, NoFault) == WriteBatch(g, results, cols, |NewHeader(g)|, false);
  }

  /**
   * The second commit sees the header already extended, and skips a row of
   * the batch exactly when the first commit found it reconciled or wrote a
   * non-blank product name to it last.
   */
  lemma SecondCommitSkipsAll(g: Grid, results: seq<MatchedResult>)
    requires BodyRows(results) && results != []
    ensures var g2 := Commit(g, results, NoFault).grid;
      && NewHeader(g2) == NewHeader(g) && ResultCols(g2) == ResultCols(g) && AfterHeader(g2) == g2
      && Skip(g2) == Reconciled(g2, ResultCols(g)[0])
      && forall j :: 0 <= j < |results| ==>
           (Skipped(results[j], Skip(g2)) <==> results[j].row in Skip(g) || LastOnRowNamed(results, results[j].row))
  {
    var g2 := Commit(g, results, NoFault).grid;
    CommitKeepsHeader(g, results);
    ExtendHeaderStable(Header(g), ResultColumns);
    assert NewHeader(g2) == NewHeader(g) && ResultCols(g2) == ResultCols(g);
    assert AfterHeader(g2) == g2;
    forall j | 0 <= j < |results|
      ensures Skipped(results[j], Skip(g2)) <==> results[j].row in Skip(g) || LastOnRowNamed(results, results[j].row)
    {
      if results[j].row in Skip(g) || LastOnRowNamed(results, results[j].row) {
        CommitMarksRows(g, results, j);
      } else {
        CommitLeavesBlankRow(g, results, j);
      }
    }
  }

  /**
   * A repeated batch commits again exactly the results whose row was fresh
   * the first time and received a blank product name last.
   */
  lemma RepeatCommitCount(g: Grid, results: seq<MatchedResult>)
    requires BodyRows(results) && results != []
    ensures var g2 := Commit(g, results, NoFault).grid;
      Commit(g2, results, NoFault).count ==
        |Filter(results, (x: MatchedResult) => x.row !in Skip(g) && !LastOnRowNamed(results, x.row))|
  {
    var g2 := Commit(g, results, NoFault).grid;
    SecondCommitSkipsAll(g, results);
    FilterCongruent(results, (x: MatchedResult) => !Skipped(x, Skip(g2)),
      (x: MatchedResult) => x.row !in Skip(g) && !LastOnRowNamed(results, x.row));
    assert Commit(g2, results, NoFault) == WriteBatch(g2, results, ResultCols(g2), |NewHeader(g2)|, false);
  }

  /** A batch of one commits its row exactly when the row is not already reconciled. */
  lemma CommitOne(g: Grid, x: MatchedResult)
    requires x.row >= 1
    ensures Commit(g, [x], NoFault).count == if x.row in Skip(g) then 0 else 1
  {
    assert Committed([x], Skip(g)) == if x.row in Skip(g) then [] else [x];
  }

  /**
   * The skip set is read once before the loop, so two results for the same
   * fresh row in one batch are both committed and both counted, and the
   * row's result cells end up holding the second one's values.
   */
  lemma CommitCountsDuplicates(g: Grid, x: MatchedResult, y: MatchedResult)
    requires x.row >= 1 && y.row == x.row
    ensures Commit(g, [x, y], NoFault).count == if x.row in Skip(g) then 0 else 2
    ensures x.row !in Skip(g) ==>
      forall k :: 0 <= k < 6 ==> Cell(Commit(g, [x, y], NoFault).grid, x.row, ResultCols(g)[k]) == ResultValue(y, k)
  {
    assert Committed([x, y], Skip(g)) == if x.row in Skip(g) then [] else [x, y] by {
      assert [x, y] == [x] + [y];
      FilterAppend([x], [y], (z: MatchedResult) => !Skipped(z, Skip(g)));
    }
    if x.row !in Skip(g) {
      forall k | 0 <= k < 6
        ensures Cell(Commit(g, [x, y], NoFault).grid, x.row, ResultCols(g)[k]) == ResultValue(y, k)
      {
        CommitCellWritten(g, [x, y], 1, k);
      }
    }
  }
}
