/**
 * A1-notation column letters in the ledger code's cell ranges
 * (src/utils.py:300, 333-363). The code writes column c as the single
 * character chr(64 + c), which names the right column only up to Z (26).
 * The model addresses cells by (row, column) numbers, which is what the
 * bijective base-26 column names below denote for every column.
 */
module A1 {

  predicate IsLetter(ch: char) {
    'A' <= ch <= 'Z'
  }

  /** A column name: one or more letters A-Z. */
  predicate IsColumnName(s: string) {
    |s| > 0 && forall k :: 0 <= k < |s| ==> IsLetter(s[k])
  }

  /** The column letter as the source computes it: chr(64 + c). */
  function LetterAsWritten(c: int): (r: string)
    requires 1 <= c <= 0xD7FF - 64
    ensures |r| == 1
    ensures IsColumnName(r) <==> c <= 26
  {
    var ch := (64 + c) as char;
    assert ch as int == 64 + c;
    assert IsColumnName([ch]) <==> IsLetter([ch][0]);
    [ch]
  }

  /** The A1 name of 1-based column c: A..Z, then AA, AB, ... (bijective base 26). */
  function ColumnName(c: int): (r: string)
    requires c >= 1
    ensures IsColumnName(r)
    decreases c
  {
    var last := ('A' as int + (c - 1) % 26) as char;
    if c <= 26 then [last] else ColumnName((c - 1) / 26) + [last]
  }

  /** The column number an A1 name denotes; a letter is its position in the alphabet. */
  function ColumnNumber(s: string): int {
    if s == [] then 0 else ColumnNumber(s[..|s| - 1]) * 26 + (s[|s| - 1] as int - 'A' as int + 1)
  }

  /** Up to Z the source's letter is the A1 name. */
  lemma LetterAsWrittenUpToZ(c: int)
    requires 1 <= c <= 26
    ensures LetterAsWritten(c) == ColumnName(c)
  {
  }

  /**
   * A sheet with 27 header columns: the header range ends in "[", which is
   * not a column name, where A1 notation says "AA".
   */
  lemma LetterAsWrittenPast26()
    ensures LetterAsWritten(27) == "["
    ensures !IsColumnName(LetterAsWritten(27))
    ensures ColumnName(27) == "AA"
  {
    assert ColumnName(1) == "A";
  }

  /**
   * Columns 33 to 58 are written as the lower-case letters a to z, which a
   * sheet reading column letters without regard to case takes for A to Z.
   */
  lemma LetterAsWrittenLowerCase(c: int)
    requires 33 <= c <= 58
    ensures LetterAsWritten(c) == [('a' as int + (c - 33)) as char]
    ensures 'a' <= LetterAsWritten(c)[0] <= 'z'
    ensures LetterAsWritten(c)[0] as int - 32 == ColumnName(c - 32)[0] as int
  {
    LetterAsWrittenUpToZ(c - 32);
  }

  /** The A1 name denotes its column: decoding the name gives the number back. */
  lemma {:induction false} ColumnNumberOfName(c: int)
    requires c >= 1
    ensures ColumnNumber(ColumnName(c)) == c
    decreases c
  {
    var s := ColumnName(c);
    if c > 26 {
      var q := (c - 1) / 26;
      ColumnNumberOfName(q);
      assert s[..|s| - 1] == ColumnName(q);
    } else {
      assert s[..|s| - 1] == [];
    }
  }

  /** Every column name is the A1 name of the column it denotes, so names and columns correspond one to one. */
  lemma {:induction false} ColumnNameOfNumber(s: string)
    requires IsColumnName(s)
    ensures ColumnNumber(s) >= 1
    ensures ColumnName(ColumnNumber(s)) == s
  {
    var p := s[..|s| - 1];
    var d := s[|s| - 1] as int - 'A' as int + 1;
    assert 1 <= d <= 26;
    if p == [] {
      assert s == [s[0]];
    } else {
      assert IsColumnName(p) by {
        assert forall k :: 0 <= k < |p| ==> p[k] == s[k];
      }
      ColumnNameOfNumber(p);
      var m := ColumnNumber(p);
      var n := m * 26 + d;
      assert (n - 1) / 26 == m && (n - 1) % 26 == d - 1;
      assert s == p + [s[|s| - 1]];
    }
  }
}
