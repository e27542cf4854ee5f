/**
 * The worksheet as an in-memory grid of cells: rows of strings, addressed
 * with the 1-based (row, column) pairs of the ledger code (src/utils.py).
 * Reading outside the grid gives "", and writing outside it grows the grid
 * with empty cells.
 */
module Grid {
  import opened Wrappers
  import opened Seqs

  type Grid = seq<seq<string>>

  /** One cell write of a batched update: a 1-based address and the value. */
  datatype CellWrite = CellWrite(row: int, col: int, value: string)

  /** The value at 1-based row r, column c; "" outside the grid. */
  function Cell(g: Grid, r: int, c: int): string {
    if 1 <= r <= |g| then CellAt(g[r - 1], c - 1) else ""
  }

  /** row_values(1): the header row, empty for an empty sheet. */
  function Header(g: Grid): seq<string> {
    if g == [] then [] else g[0]
  }

  /** row padded with "" up to length n. */
  function PadTo(row: seq<string>, n: int): (r: seq<string>)
    ensures |r| == if n > |row| then n else |row|
    ensures forall k :: 0 <= k < |r| ==> r[k] == CellAt(row, k)
  {
    if n > |row| then row + seq(n - |row|, _ => "") else row
  }

  /** The grid after writing value v at row r, column c (both at least 1). */
  function SetCell(g: Grid, r: int, c: int, v: string): (g': Grid)
    requires r >= 1 && c >= 1
    ensures |g'| == if r > |g| then r else |g|
  {
    var grown := if r > |g| then g + seq(r - |g|, _ => []) else g;
    grown[r - 1 := PadTo(grown[r - 1], c)[c - 1 := v]]
  }

  /** A write changes its own cell and no other. */
  lemma SetCellCell(g: Grid, r: int, c: int, v: string, r': int, c': int)
    requires r >= 1 && c >= 1
    ensures Cell(SetCell(g, r, c, v), r', c') == if r' == r && c' == c then v else Cell(g, r', c')
  {
    var grown := if r > |g| then g + seq(r - |g|, _ => []) else g;
    assert forall k :: 0 <= k < |g| ==> grown[k] == g[k];
    if r' == r && c' != c && 1 <= c' {
      assert CellAt(PadTo(grown[r - 1], c), c' - 1) == CellAt(grown[r - 1], c' - 1);
    }
  }

  /** A batched update: the writes applied in order, so a later write to a cell wins. */
  function ApplyWrites(g: Grid, ws: seq<CellWrite>): Grid
    requires forall k :: 0 <= k < |ws| ==> ws[k].row >= 1 && ws[k].col >= 1
  {
    if ws == [] then g
    else
      var last := ws[|ws| - 1];
      SetCell(ApplyWrites(g, ws[..|ws| - 1]), last.row, last.col, last.value)
  }

  /** The value of the last write to (r, c) among ws, if any. */
  function LastWrite(ws: seq<CellWrite>, r: int, c: int): (v: Option<string>)
    ensures v.None? <==> forall k :: 0 <= k < |ws| ==> !(ws[k].row == r && ws[k].col == c)
  {
    if ws == [] then None
    else if ws[|ws| - 1].row == r && ws[|ws| - 1].col == c then Some(ws[|ws| - 1].value)
    else
      var v := LastWrite(ws[..|ws| - 1], r, c);
      assert forall k :: 0 <= k < |ws| - 1 ==> ws[..|ws| - 1][k] == ws[k];
      v
  }

  /** After a batched update each cell holds its last write, and cells nobody wrote keep their value. */
  lemma {:induction false} ApplyWritesCell(g: Grid, ws: seq<CellWrite>, r: int, c: int)
    requires forall k :: 0 <= k < |ws| ==> ws[k].row >= 1 && ws[k].col >= 1
    ensures Cell(ApplyWrites(g, ws), r, c) == match LastWrite(ws, r, c) case Some(v) => v case None => Cell(g, r, c)
  {
    if ws != [] {
      var init := ws[..|ws| - 1];
      var last := ws[|ws| - 1];
      ApplyWritesCell(g, init, r, c);
      SetCellCell(ApplyWrites(g, init), last.row, last.col, last.value, r, c);
    }
  }

  /** A batched update never shrinks the grid. */
  lemma {:induction false} ApplyWritesGrows(g: Grid, ws: seq<CellWrite>)
    requires forall k :: 0 <= k < |ws| ==> ws[k].row >= 1 && ws[k].col >= 1
    ensures |ApplyWrites(g, ws)| >= |g|
  {
    if ws != [] {
      ApplyWritesGrows(g, ws[..|ws| - 1]);
    }
  }

  /** The row of write k exists after the batched update. */
  lemma {:induction false} ApplyWritesRowExists(g: Grid, ws: seq<CellWrite>, k: int)
    requires forall k :: 0 <= k < |ws| ==> ws[k].row >= 1 && ws[k].col >= 1
    requires 0 <= k < |ws|
    ensures ws[k].row <= |ApplyWrites(g, ws)|
  {
    var init := ws[..|ws| - 1];
    if k < |init| {
      assert init[k] == ws[k];
      ApplyWritesRowExists(g, init, k);
    }
  }

  /** A batched update never shrinks the grid, and every written row exists afterwards. */
  lemma ApplyWritesRows(g: Grid, ws: seq<CellWrite>)
    requires forall k :: 0 <= k < |ws| ==> ws[k].row >= 1 && ws[k].col >= 1
    ensures |ApplyWrites(g, ws)| >= |g|
    ensures forall k :: 0 <= k < |ws| ==> ws[k].row <= |ApplyWrites(g, ws)|
  {
    ApplyWritesGrows(g, ws);
    forall k | 0 <= k < |ws| ensures ws[k].row <= |ApplyWrites(g, ws)| {
      ApplyWritesRowExists(g, ws, k);
    }
  }

  /** A row no write touches is left exactly as it was. */
  lemma {:induction false} ApplyWritesRowKept(g: Grid, ws: seq<CellWrite>, r: int)
    requires forall k :: 0 <= k < |ws| ==> ws[k].row >= 1 && ws[k].col >= 1
    requires 1 <= r <= |g| && forall k :: 0 <= k < |ws| ==> ws[k].row != r
    ensures |ApplyWrites(g, ws)| >= r && ApplyWrites(g, ws)[r - 1] == g[r - 1]
  {
    if ws != [] {
      var init := ws[..|ws| - 1];
      assert forall k :: 0 <= k < |init| ==> init[k] == ws[k];
      ApplyWritesRowKept(g, init, r);
    }
  }

  /** The last write to a cell in a + b is b's when b writes it, else a's. */
  lemma {:induction false} LastWriteAppend(a: seq<CellWrite>, b: seq<CellWrite>, r: int, c: int)
    ensures LastWrite(a + b, r, c) == if LastWrite(b, r, c).Some? then LastWrite(b, r, c) else LastWrite(a, r, c)
  {
    if b != [] {
      var init := b[..|b| - 1];
      assert (a + b)[..|a + b| - 1] == a + init;
      LastWriteAppend(a, init, r, c);
    } else {
      assert a + b == a;
    }
  }

  /** update('A1:…1', [h]): the header row's first |h| cells become h; every other row is unchanged. */
  function WriteHeader(g: Grid, h: seq<string>): (g': Grid)
    ensures |g'| == if g == [] then 1 else |g|
  {
    if g == [] then [h]
    else g[0 := h + (if |g[0]| > |h| then g[0][|h|..] else [])]
  }

  lemma WriteHeaderCell(g: Grid, h: seq<string>, r: int, c: int)
    ensures r == 1 && 1 <= c <= |h| ==> Cell(WriteHeader(g, h), r, c) == h[c - 1]
    ensures r == 1 && c > |h| ==> Cell(WriteHeader(g, h), r, c) == Cell(g, r, c)
    ensures r != 1 ==> Cell(WriteHeader(g, h), r, c) == Cell(g, r, c)
  {
  }
}
