/**
 * The pending-order filter of load_matching_sheet_orders
 * (src/utils.py:95-116): the body rows of the sheet whose
 * 매칭상품_상품명 cell is blank, and how it relates to the ledger: a pending
 * row is exactly a row the next batch would not skip, and a successful
 * update takes a row off the pending list.
 */
module Pending {
  import opened Wrappers
  import opened Text
  import opened Seqs
  import opened Grid
  import opened Ledger
  import opened CommitFacts

  /** The column every order sheet must have. */
  const ProductName := "상품명"

  /** A body row of the sheet: its 1-based sheet row and its cells. */
  datatype PendingRow = PendingRow(row: int, cells: seq<string>)

  /** Why loading fails. */
  datatype LoadError =
    | MissingProductName      // no 상품명 column: the ValueError of the source
    | RepeatedMatchedColumn   // 매칭상품_상품명 twice: selecting it yields a frame with no .str accessor

  /** How often a name occurs in the header. */
  datatype Column = Absent | Once(index: nat) | Repeated

  function ColumnOf(h: seq<string>, x: string): (c: Column)
    ensures c.Absent? <==> x !in h
    ensures c.Once? ==> c.index < |h| && h[c.index] == x
    ensures c.Once? ==> forall j :: 0 <= j < |h| && j != c.index ==> h[j] != x
    ensures c.Repeated? ==> exists i, j :: 0 <= i < j < |h| && h[i] == x && h[j] == x
  {
    match IndexOf(h, x)
    case None => Absent
    case Some(i) =>
      if x in h[i + 1..] then
        var k :| 0 <= k < |h[i + 1..]| && h[i + 1..][k] == x;
        assert h[i + 1 + k] == x;
        Repeated
      else
        assert forall j :: i < j < |h| ==> h[j] == h[i + 1..][j - i - 1];
        Once(i)
  }

  /** A name found at c and nowhere else occurs once, at c. */
  lemma ColumnOfOnce(h: seq<string>, x: string, c: int)
    requires 0 <= c < |h| && h[c] == x
    requires forall j :: 0 <= j < |h| && j != c ==> h[j] != x
    ensures ColumnOf(h, x) == Once(c)
  {
    IndexOfFirstAt(h, x, c);
    assert x !in h[c + 1..];
  }

  /** The DataFrame's rows: every row below the header, numbered from 2. */
  function SheetRows(g: Grid): (rows: seq<PendingRow>)
    requires g != []
    ensures |rows| == |g| - 1
    ensures forall i :: 0 <= i < |rows| ==> rows[i] == PendingRow(i + 2, g[i + 1])
  {
    seq(|g| - 1, i requires 0 <= i < |g| - 1 => PendingRow(i + 2, g[i + 1]))
  }

  /** The unmatched orders: rows whose 매칭상품_상품명 cell is blank, or every row when the sheet has no such column. */
  function PendingOrders(g: Grid): (r: Result<seq<PendingRow>, LoadError>)
    ensures g == [] ==> r == Ok([])
    ensures r.Ok? ==> |r.value| <= if g == [] then 0 else |g| - 1
  {
    if g == [] then Ok([])
    else if ProductName !in g[0] then Err(MissingProductName)
    else match ColumnOf(g[0], ResultColumns[0])
      case Absent => Ok(SheetRows(g))
      case Repeated => Err(RepeatedMatchedColumn)
      case Once(c) => Ok(Filter(SheetRows(g), (p: PendingRow) => IsBlank(CellAt(p.cells, c))))
  }

  /** Rows listed in strictly increasing sheet order. */
  predicate Increasing(rows: seq<PendingRow>) {
    forall i, j :: 0 <= i < j < |rows| ==> rows[i].row < rows[j].row
  }

  /** Sheet row r is among the listed rows. */
  predicate Listed(rows: seq<PendingRow>, r: int) {
    exists k :: 0 <= k < |rows| && rows[k].row == r
  }

  /** A lower bound on every row of a list bounds every row kept by a filter. */
  lemma {:induction false} FilterAbove(rows: seq<PendingRow>, p: PendingRow -> bool, b: int)
    requires forall k :: 0 <= k < |rows| ==> rows[k].row > b
    ensures forall k :: 0 <= k < |Filter(rows, p)| ==> Filter(rows, p)[k].row > b
  {
    if rows != [] {
      FilterAbove(rows[1..], p, b);
    }
  }

  lemma {:induction false} FilterIncreasing(rows: seq<PendingRow>, p: PendingRow -> bool)
    requires Increasing(rows)
    ensures Increasing(Filter(rows, p))
  {
    if rows != [] {
      var tail := rows[1..];
      FilterIncreasing(tail, p);
      if p(rows[0]) {
        FilterAbove(tail, p, rows[0].row);
        ConsIncreasing(rows[0], Filter(tail, p));
      }
    }
  }

  lemma ConsIncreasing(a: PendingRow, rest: seq<PendingRow>)
    requires Increasing(rest) && forall k :: 0 <= k < |rest| ==> rest[k].row > a.row
    ensures Increasing([a] + rest)
  {
    var r := [a] + rest;
    forall i, j | 0 <= i < j < |r| ensures r[i].row < r[j].row {
      assert r[j] == rest[j - 1];
      if i > 0 {
        assert r[i] == rest[i - 1];
      }
    }
  }

  /** Loading fails exactly when the header lacks 상품명 or repeats 매칭상품_상품명; an empty sheet has no orders. */
  lemma PendingOrdersErrors(g: Grid)
    ensures g == [] ==> PendingOrders(g) == Ok([])
    ensures PendingOrders(g) == Err(MissingProductName) <==> g != [] && ProductName !in g[0]
    ensures PendingOrders(g) == Err(RepeatedMatchedColumn) <==>
      g != [] && ProductName in g[0] &&
      exists i, j :: 0 <= i < j < |g[0]| && g[0][i] == ResultColumns[0] && g[0][j] == ResultColumns[0]
  {
    if g != [] && ProductName in g[0] {
      var h := g[0];
      var x := ResultColumns[0];
      if exists i, j :: 0 <= i < j < |h| && h[i] == x && h[j] == x {
        var i, j :| 0 <= i < j < |h| && h[i] == x && h[j] == x;
        assert ColumnOf(h, x).Repeated?;
      }
    }
  }

  /** Filtering the body rows keeps them in sheet order. */
  lemma FilteredRowsIncreasing(g: Grid, p: PendingRow -> bool)
    requires g != []
    ensures Increasing(Filter(SheetRows(g), p))
  {
    FilterIncreasing(SheetRows(g), p);
  }

  /** Filtering the body rows keeps each with its own sheet row and cells. */
  lemma FilteredRowsCells(g: Grid, p: PendingRow -> bool)
    requires g != []
    ensures forall k :: 0 <= k < |Filter(SheetRows(g), p)| ==>
      2 <= Filter(SheetRows(g), p)[k].row <= |g| && Filter(SheetRows(g), p)[k].cells == g[Filter(SheetRows(g), p)[k].row - 1]
  {
    var all := SheetRows(g);
    var rows := Filter(all, p);
    forall k | 0 <= k < |rows| ensures 2 <= rows[k].row <= |g| && rows[k].cells == g[rows[k].row - 1] {
      assert rows[k] in all;
      var m :| 0 <= m < |all| && all[m] == rows[k];
    }
  }

  /** The orders a successful load returns are body rows with their own cells, in sheet order. */
  lemma PendingOrdersShape(g: Grid)
    requires PendingOrders(g).Ok?
    ensures Increasing(PendingOrders(g).value)
    ensures forall k :: 0 <= k < |PendingOrders(g).value| ==>
      2 <= PendingOrders(g).value[k].row <= |g| && PendingOrders(g).value[k].cells == g[PendingOrders(g).value[k].row - 1]
  {
    if g != [] && ColumnOf(g[0], ResultColumns[0]).Once? {
      var c := ColumnOf(g[0], ResultColumns[0]).index;
      FilteredRowsIncreasing(g, (p: PendingRow) => IsBlank(CellAt(p.cells, c)));
      FilteredRowsCells(g, (p: PendingRow) => IsBlank(CellAt(p.cells, c)));
    }
  }

  /** Without a 매칭상품_상품명 column every body row is an order. */
  lemma PendingOrdersAll(g: Grid, r: int)
    requires g != [] && ProductName in g[0] && ColumnOf(g[0], ResultColumns[0]).Absent?
    requires 2 <= r <= |g|
    ensures PendingOrders(g).Ok? && Listed(PendingOrders(g).value, r)
  {
    assert PendingOrders(g).value[r - 2].row == r;
  }

  /** A body row survives a filter of the body rows exactly when it passes the test. */
  lemma FilteredRowsListed(g: Grid, p: PendingRow -> bool, r: int)
    requires g != [] && 2 <= r <= |g|
    ensures Listed(Filter(SheetRows(g), p), r) <==> p(PendingRow(r, g[r - 1]))
  {
    var all := SheetRows(g);
    var rows := Filter(all, p);
    assert all[r - 2] == PendingRow(r, g[r - 1]);
    if p(all[r - 2]) {
      var k :| 0 <= k < |rows| && rows[k] == all[r - 2];
    }
    if Listed(rows, r) {
      var k :| 0 <= k < |rows| && rows[k].row == r;
      var m :| 0 <= m < |all| && all[m] == rows[k];
    }
  }

  /** With a 매칭상품_상품명 column at index c, a body row is an order exactly when its cell there is blank. */
  lemma PendingOrdersMembership(g: Grid, r: int)
    requires PendingOrders(g).Ok? && g != [] && ColumnOf(g[0], ResultColumns[0]).Once?
    requires 2 <= r <= |g|
    ensures Listed(PendingOrders(g).value, r) <==> IsBlank(Cell(g, r, ColumnOf(g[0], ResultColumns[0]).index + 1))
  {
    var c := ColumnOf(g[0], ResultColumns[0]).index;
    var p := (p: PendingRow) => IsBlank(CellAt(p.cells, c));
    assert PendingOrders(g).value == Filter(SheetRows(g), p);
    FilteredRowsListed(g, p, r);
  }

  /** With 매칭상품_상품명 once in the header, the batch's result column is that column. */
  lemma MatchedColumnLocated(g: Grid)
    requires g != [] && ColumnOf(g[0], ResultColumns[0]).Once?
    ensures ResultCols(g)[0] == ColumnOf(g[0], ResultColumns[0]).index + 1
  {
    ExtendHeaderPositions(Header(g), ResultColumns);
    var c := ColumnOf(g[0], ResultColumns[0]).index;
    IndexOfFirstAt(g[0], ResultColumns[0], c);
    IndexOfFirstAt(g[0], ResultColumns[0], ResultCols(g)[0] - 1);
  }

  /**
   * The two halves of the workflow agree: with a 매칭상품_상품명 column, a
   * body row is pending exactly when the next batch would not skip it.
   */
  lemma PendingIffNotSkipped(g: Grid, r: int)
    requires PendingOrders(g).Ok? && g != [] && ColumnOf(g[0], ResultColumns[0]).Once?
    requires 2 <= r <= |g|
    ensures Listed(PendingOrders(g).value, r) <==> r !in Skip(g)
  {
    PendingOrdersMembership(g, r);
    MatchedColumnLocated(g);
    AfterHeaderHeader(g);
  }

  /** Appending names other than x keeps x's single occurrence where it was. */
  lemma AppendKeepsOnce(h: seq<string>, added: seq<string>, x: string, c: nat)
    requires ColumnOf(h, x) == Once(c) && x !in added
    ensures ColumnOf(h + added, x) == Once(c)
  {
    var h2 := h + added;
    forall j | 0 <= j < |h2| && j != c ensures h2[j] != x {
      if j >= |h| {
        assert h2[j] == added[j - |h|];
      }
    }
    ColumnOfOnce(h2, x, c);
  }

  /** The header step keeps 상품명 and leaves a single 매칭상품_상품명 where it was. */
  lemma NewHeaderKeepsColumns(g: Grid)
    requires g != [] && ProductName in g[0] && ColumnOf(g[0], ResultColumns[0]).Once?
    ensures ProductName in NewHeader(g)
    ensures ColumnOf(NewHeader(g), ResultColumns[0]) == ColumnOf(g[0], ResultColumns[0])
  {
    var h := g[0];
    var added := Filter(ResultColumns, (n: string) => n !in h);
    assert NewHeader(g) == h + added by {
      ResultColumnsDistinct();
      ExtendHeaderAppends(h, ResultColumns);
    }
    AppendKeepsOnce(h, added, ResultColumns[0], ColumnOf(h, ResultColumns[0]).index);
    assert ProductName in h + added by {
      var i :| 0 <= i < |h| && h[i] == ProductName;
      assert (h + added)[i] == ProductName;
    }
  }

  /** Updating a pending row commits it. */
  lemma UpdatePendingCommits(g: Grid, k: int, data: map<string, string>, matchType: string)
    requires PendingOrders(g).Ok? && g != [] && ColumnOf(g[0], ResultColumns[0]).Once?
    requires 0 <= k < |PendingOrders(g).value|
    ensures var x := MatchedResult(PendingOrders(g).value[k].row, data, Some(matchType));
      2 <= x.row <= |g| && x.row !in Skip(g) && Commit(g, [x], NoFault).count == 1
  {
    var r := PendingOrders(g).value[k].row;
    var x := MatchedResult(r, data, Some(matchType));
    assert 2 <= r <= |g| && Listed(PendingOrders(g).value, r) by {
      PendingOrdersShape(g);
    }
    assert r !in Skip(g) by {
      PendingIffNotSkipped(g, r);
    }
    CommitOne(g, x);
  }

  /** Committing a body row keeps 상품명 and the single 매칭상품_상품명 column of the header. */
  lemma CommitKeepsColumns(g: Grid, x: MatchedResult)
    requires g != [] && ProductName in g[0] && ColumnOf(g[0], ResultColumns[0]).Once?
    requires x.row >= 2
    ensures var g2 := Commit(g, [x], NoFault).grid;
      g2 != [] && ProductName in g2[0] && ColumnOf(g2[0], ResultColumns[0]) == ColumnOf(g[0], ResultColumns[0])
  {
    assert Commit(g, [x], NoFault).grid != [] && Commit(g, [x], NoFault).grid[0] == NewHeader(g) by {
      CommitKeepsHeader(g, [x]);
      AfterHeaderHeader(g);
    }
    NewHeaderKeepsColumns(g);
  }

  /** Committing a body row with a non-blank product name reconciles it in the 매칭상품_상품명 column. */
  lemma CommitReconcilesRow(g: Grid, x: MatchedResult)
    requires g != [] && ColumnOf(g[0], ResultColumns[0]).Once?
    requires x.row >= 2 && !IsBlank(Get(x.data, "상품명"))
    ensures x.row in Reconciled(Commit(g, [x], NoFault).grid, ColumnOf(g[0], ResultColumns[0]).index + 1)
  {
    var col := ResultCols(g)[0];
    assert col == ColumnOf(g[0], ResultColumns[0]).index + 1 by {
      MatchedColumnLocated(g);
    }
    assert x.row in Reconciled(Commit(g, [x], NoFault).grid, col) by {
      assert [x][0] == x;
      assert LastOnRowNamed([x], x.row);
      CommitMarksRows(g, [x], 0);
    }
  }

  /** After committing a body row with a non-blank product name, the row is no longer pending. */
  lemma CommitLeavesPending(g: Grid, x: MatchedResult)
    requires PendingOrders(g).Ok? && g != [] && ColumnOf(g[0], ResultColumns[0]).Once?
    requires x.row >= 2 && !IsBlank(Get(x.data, "상품명"))
    ensures PendingOrders(Commit(g, [x], NoFault).grid).Ok?
    ensures !Listed(PendingOrders(Commit(g, [x], NoFault).grid).value, x.row)
  {
    CommitKeepsColumns(g, x);
    CommitReconcilesRow(g, x);
    PendingOrdersMembership(Commit(g, [x], NoFault).grid, x.row);
  }

  /**
   * Closing the loop: updating a pending row succeeds, and when the product
   * name written is not blank the row is no longer pending afterwards.
   */
  lemma UpdateClearsPending(g: Grid, k: int, data: map<string, string>, matchType: string)
    requires PendingOrders(g).Ok? && g != [] && ColumnOf(g[0], ResultColumns[0]).Once?
    requires 0 <= k < |PendingOrders(g).value|
    ensures var x := MatchedResult(PendingOrders(g).value[k].row, data, Some(matchType));
      Commit(g, [x], NoFault).count == 1
    ensures var x := MatchedResult(PendingOrders(g).value[k].row, data, Some(matchType));
      var g2 := Commit(g, [x], NoFault).grid;
      !IsBlank(Get(data, "상품명")) ==> PendingOrders(g2).Ok? && !Listed(PendingOrders(g2).value, x.row)
  {
    var x := MatchedResult(PendingOrders(g).value[k].row, data, Some(matchType));
    UpdatePendingCommits(g, k, data, matchType);
    if !IsBlank(Get(data, "상품명")) {
      CommitLeavesPending(g, x);
    }
  }
}
