/**
 * The product catalog: one table per spreadsheet tab, in the tab order of the
 * workbook, and the column searches the matcher performs on it
 * (src/matcher.py:72-81, 190-206).
 */
module Catalog {
  import opened Wrappers
  import opened Text
  import opened Seqs

  /** A similarity score as returned by the scoring library: 0 to 100. */
  type Score = s: int | 0 <= s <= 100

  /** A similarity function of two strings; the scoring library itself is not part of this model. */
  type Scorer = (string, string) -> Score

  /** One tab: its name, its column names in order, and its rows of cells. */
  datatype Table = Table(name: string, columns: seq<string>, rows: seq<seq<string>>)

  /** The product-name column test: contains 상품명 or 제품명, or "product" ignoring case. */
  predicate IsProductColumnName(c: string) {
    Contains(c, "상품명") || Contains(c, "제품명") || Contains(LowerAscii(c), "product")
  }

  /** The model-name column test: contains 모델명, or "model" ignoring case. */
  predicate IsModelColumnName(c: string) {
    Contains(c, "모델명") || Contains(LowerAscii(c), "model")
  }

  /** The first column that passes the product-name test. */
  function ProductColumn(columns: seq<string>): (r: Option<nat>)
    ensures r.Some? ==> r.value < |columns|
  {
    FirstWhere(columns, IsProductColumnName)
  }

  /** The first column that passes the model-name test. */
  function ModelColumn(columns: seq<string>): (r: Option<nat>)
    ensures r.Some? ==> r.value < |columns|
  {
    FirstWhere(columns, IsModelColumnName)
  }

  /** The product column is the first column whose name contains 상품명, 제품명 or product; None when no name does. */
  lemma ProductColumnIsFirst(columns: seq<string>)
    ensures var r := ProductColumn(columns);
      && (r.Some? ==> IsProductColumnName(columns[r.value]))
      && (r.Some? ==> forall j :: 0 <= j < r.value ==> !IsProductColumnName(columns[j]))
      && (r.None? ==> forall j :: 0 <= j < |columns| ==> !IsProductColumnName(columns[j]))
  {
  }

  /** The model column is the first column whose name contains 모델명 or model; None when no name does. */
  lemma ModelColumnIsFirst(columns: seq<string>)
    ensures var r := ModelColumn(columns);
      && (r.Some? ==> IsModelColumnName(columns[r.value]))
      && (r.Some? ==> forall j :: 0 <= j < r.value ==> !IsModelColumnName(columns[j]))
      && (r.None? ==> forall j :: 0 <= j < |columns| ==> !IsModelColumnName(columns[j]))
  {
  }

  /** The `for col in df.columns: if test(col): found = col; break` loop. */
  method FirstColumn(columns: seq<string>, test: string -> bool) returns (found: Option<nat>)
    ensures found == FirstWhere(columns, test)
  {
    found := None;
    var c := 0;
    while c < |columns| && found.None?
      invariant 0 <= c <= |columns|
      invariant found.None? ==> forall j :: 0 <= j < c ==> !test(columns[j])
      invariant found.Some? ==> found.value < c && test(columns[found.value]) &&
                                forall j :: 0 <= j < found.value ==> !test(columns[j])
    {
      if test(columns[c]) {
        found := Some(c);
      }
      c := c + 1;
    }
  }

  /** row.get(name, ''): the cell under the first column literally named name, else "". */
  function CellByName(columns: seq<string>, row: seq<string>, name: string): (r: string)
    ensures name !in columns ==> r == ""
    ensures forall i :: 0 <= i < |columns| && columns[i] == name && (forall j :: 0 <= j < i ==> columns[j] != name) ==>
      r == CellAt(row, i)
  {
    match IndexOf(columns, name)
    case None => ""
    case Some(i) => CellAt(row, i)
  }
}
