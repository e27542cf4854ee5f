/**
 * The ranked search find_matching_products and its two wrappers,
 * get_best_match and batch_match_products (src/matcher.py:37-162).
 */
module Search {
  import opened Wrappers
  import opened Text
  import opened Seqs
  import opened Catalog
  import opened Ranking

  /** The option columns tried in order (src/matcher.py:99). */
  const OptionColumns: seq<string> := ["옵션", "Option", "규격"]

  /** The option value: the cell of the first option column the tab has, else "". */
  function OptionValue(columns: seq<string>, row: seq<string>): (r: string)
    ensures (forall k :: 0 <= k < |OptionColumns| ==> OptionColumns[k] !in columns) ==> r == ""
    ensures forall k :: 0 <= k < |OptionColumns| && OptionColumns[k] in columns &&
                        (forall j :: 0 <= j < k ==> OptionColumns[j] !in columns) ==>
                          r == CellByName(columns, row, OptionColumns[k])
  {
    match FirstWhere(OptionColumns, (n: string) => n in columns)
    case None => ""
    case Some(k) => CellByName(columns, row, OptionColumns[k])
  }

  /** The candidate record built for a row whose stripped product name is name. */
  function MatchOf(query: string, t: Table, row: seq<string>, name: string, score: Scorer): (m: RankedMatch)
    ensures m.tab == t.name && m.name == name && m.similarity == score(query, name)
    ensures 0 <= m.similarity <= 100
    ensures m.purchasePrice == CellByName(t.columns, row, "입고가계")
    ensures m.supplyPrice == CellByName(t.columns, row, "공급가(V+) 배송비 포함")
    ensures m.vendor == CellByName(t.columns, row, "운영사")
    ensures m.image == CellByName(t.columns, row, "대표 1")
    ensures m.option == OptionValue(t.columns, row)
  {
    RankedMatch(
      t.name, name, score(query, name),
      CellByName(t.columns, row, "입고가계"),
      CellByName(t.columns, row, "공급가(V+) 배송비 포함"),
      CellByName(t.columns, row, "운영사"),
      CellByName(t.columns, row, "대표 1"),
      OptionValue(t.columns, row))
  }

  /** What one row contributes: nothing for a blank name or a score below the threshold. */
  function RowCandidates(query: string, t: Table, col: nat, row: seq<string>, threshold: int, score: Scorer): (r: seq<RankedMatch>)
    ensures |r| <= 1
  {
    var cell := CellAt(row, col);
    if IsBlank(cell) then []
    else
      var m := MatchOf(query, t, row, Strip(cell), score);
      if m.similarity >= threshold then [m] else []
  }

  /**
   * A row contributes exactly when its product cell is not blank and its
   * stripped name scores at or above the threshold; the record then carries
   * that name (never empty), the tab's name and the score.
   */
  lemma RowCandidateShape(query: string, t: Table, col: nat, row: seq<string>, threshold: int, score: Scorer)
    ensures var r := RowCandidates(query, t, col, row, threshold, score);
      && (r != [] <==> !IsBlank(CellAt(row, col)) && score(query, Strip(CellAt(row, col))) >= threshold)
      && (r != [] ==> r[0] == MatchOf(query, t, row, Strip(CellAt(row, col)), score))
      && (r != [] ==> r[0].name != "" && r[0].similarity >= threshold && r[0].tab == t.name)
  {
  }

  function RowStep(query: string, t: Table, col: nat, threshold: int, score: Scorer): seq<string> -> seq<RankedMatch> {
    row => RowCandidates(query, t, col, row, threshold, score)
  }

  /** What one tab contributes: its rows in order, nothing when it has no product column. */
  function TableCandidates(query: string, t: Table, threshold: int, score: Scorer): seq<RankedMatch> {
    match ProductColumn(t.columns)
    case None => []
    case Some(col) => Concat(t.rows, RowStep(query, t, col, threshold, score))
  }

  function TableStep(query: string, threshold: int, score: Scorer): Table -> seq<RankedMatch> {
    t => TableCandidates(query, t, threshold, score)
  }

  /** The `matches` list after the tab and row loops: tabs in order, rows in order. */
  function Candidates(query: string, tables: seq<Table>, threshold: int, score: Scorer): seq<RankedMatch> {
    Concat(tables, TableStep(query, threshold, score))
  }

  /** find_matching_products as a value: sort the candidates by score (stably) and keep the first top_n. */
  function RankedSearch(query: string, tables: seq<Table>, topN: int, threshold: int, score: Scorer): (r: seq<RankedMatch>)
    ensures IsBlank(query) ==> r == []
    ensures topN >= 0 ==> |r| <= topN
  {
    if IsBlank(query) then []
    else PyPrefix(SortByScore(Candidates(Strip(query), tables, threshold, score)), topN)
  }

  /** The row loop of find_matching_products over one tab whose product column is col. */
  method CollectRows(q: string, tab: Table, col: nat, threshold: int, score: Scorer) returns (found: seq<RankedMatch>)
    ensures found == Concat(tab.rows, RowStep(q, tab, col, threshold, score))
  {
    found := [];
    var i := 0;
    while i < |tab.rows|
      invariant 0 <= i <= |tab.rows|
      invariant found == Concat(tab.rows[..i], RowStep(q, tab, col, threshold, score))
    {
      var cell := CellAt(tab.rows[i], col);
      if !IsBlank(cell) {
        var name := Strip(cell);
        var similarity := score(q, name);
        if similarity >= threshold {
          found := found + [MatchOf(q, tab, tab.rows[i], name, score)];
        }
      }
      ConcatSnoc(tab.rows, RowStep(q, tab, col, threshold, score), i);
      i := i + 1;
    }
    assert tab.rows[..i] == tab.rows;
  }

  /** One pass of the tab loop: find the product column, then run the row loop. */
  method CollectTable(q: string, tab: Table, threshold: int, score: Scorer) returns (found: seq<RankedMatch>)
    ensures found == TableCandidates(q, tab, threshold, score)
  {
    var productCol := FirstColumn(tab.columns, IsProductColumnName);
    found := [];
    if productCol.Some? {
      found := CollectRows(q, tab, productCol.value, threshold, score);
    }
  }

  /** The tab loop of find_matching_products: every tab's candidates, tabs in order. */
  method CollectTables(q: string, tables: seq<Table>, threshold: int, score: Scorer) returns (matches: seq<RankedMatch>)
    ensures matches == Candidates(q, tables, threshold, score)
  {
    matches := [];
    var t := 0;
    while t < |tables|
      invariant 0 <= t <= |tables|
      invariant matches == Concat(tables[..t], TableStep(q, threshold, score))
    {
      var found := CollectTable(q, tables[t], threshold, score);
      ConcatSnoc(tables, TableStep(q, threshold, score), t);
      matches := matches + found;
      t := t + 1;
    }
    assert tables[..t] == tables;
  }

  /** find_matching_products (src/matcher.py:37-120). */
  method FindMatchingProducts(query: string, tables: seq<Table>, topN: int, threshold: int, score: Scorer)
    returns (r: seq<RankedMatch>)
    ensures r == RankedSearch(query, tables, topN, threshold, score)
  {
    if IsBlank(query) {
      return [];
    }
    var matches := CollectTables(Strip(query), tables, threshold, score);
    r := PyPrefix(SortByScore(matches), topN);
  }

  /** A candidate found at row i of tab tab (a tab with a product column). */
  predicate FoundInTable(query: string, tab: Table, threshold: int, score: Scorer, m: RankedMatch, i: int) {
    ProductColumn(tab.columns).Some? && 0 <= i < |tab.rows| &&
    m in RowCandidates(query, tab, ProductColumn(tab.columns).value, tab.rows[i], threshold, score)
  }

  /** A candidate found at row i of the tab at position t. */
  predicate FoundAt(query: string, tables: seq<Table>, threshold: int, score: Scorer, m: RankedMatch, t: int, i: int) {
    0 <= t < |tables| && FoundInTable(query, tables[t], threshold, score, m, i)
  }

  lemma TableMembership(query: string, tab: Table, threshold: int, score: Scorer, m: RankedMatch)
    ensures m in TableCandidates(query, tab, threshold, score) <==>
            exists i :: FoundInTable(query, tab, threshold, score, m, i)
  {
    var pc := ProductColumn(tab.columns);
    if pc.Some? {
      ConcatMembership(tab.rows, RowStep(query, tab, pc.value, threshold, score), m);
      if m in TableCandidates(query, tab, threshold, score) {
        var i :| 0 <= i < |tab.rows| && m in RowCandidates(query, tab, pc.value, tab.rows[i], threshold, score);
        assert FoundInTable(query, tab, threshold, score, m, i);
      }
    }
  }

  lemma CandidatesMembership(query: string, tables: seq<Table>, threshold: int, score: Scorer, m: RankedMatch)
    ensures m in Candidates(query, tables, threshold, score) <==>
            exists t, i :: FoundAt(query, tables, threshold, score, m, t, i)
  {
    ConcatMembership(tables, TableStep(query, threshold, score), m);
    if m in Candidates(query, tables, threshold, score) {
      var t :| 0 <= t < |tables| && m in TableCandidates(query, tables[t], threshold, score);
      TableMembership(query, tables[t], threshold, score, m);
      var i :| FoundInTable(query, tables[t], threshold, score, m, i);
      assert FoundAt(query, tables, threshold, score, m, t, i);
    } else {
      forall t, i | FoundAt(query, tables, threshold, score, m, t, i) ensures false {
        TableMembership(query, tables[t], threshold, score, m);
      }
    }
  }

  /**
   * Every returned candidate comes from a row of a tab that has a product
   * column, carries that row's non-empty stripped name, its tab's name and a
   * score at or above the threshold.
   */
  lemma RankedSearchMembership(query: string, tables: seq<Table>, topN: int, threshold: int, score: Scorer, m: RankedMatch)
    requires m in RankedSearch(query, tables, topN, threshold, score)
    ensures !IsBlank(query)
    ensures exists t, i :: FoundAt(Strip(query), tables, threshold, score, m, t, i)
    ensures m.name != "" && m.similarity >= threshold && m.similarity == score(Strip(query), m.name)
  {
    var q := Strip(query);
    var c := Candidates(q, tables, threshold, score);
    assert !IsBlank(query) && m in c by {
      assert m in SortByScore(c);
      assert m in multiset(SortByScore(c));
    }
    assert exists t, i :: FoundAt(q, tables, threshold, score, m, t, i) by {
      CandidatesMembership(q, tables, threshold, score, m);
    }
    var t, i :| FoundAt(q, tables, threshold, score, m, t, i);
    RowCandidateShape(q, tables[t], ProductColumn(tables[t].columns).value, tables[t].rows[i], threshold, score);
  }

  /** Every row at or above the threshold is a candidate; the ranked result is the first top_n of them. */
  lemma RankedSearchIsPrefixOfSortedCandidates(query: string, tables: seq<Table>, topN: int, threshold: int, score: Scorer)
    requires !IsBlank(query)
    ensures RankedSearch(query, tables, topN, threshold, score) <= SortByScore(Candidates(Strip(query), tables, threshold, score))
    ensures topN >= |Candidates(Strip(query), tables, threshold, score)| ==>
      multiset(RankedSearch(query, tables, topN, threshold, score)) == multiset(Candidates(Strip(query), tables, threshold, score))
  {
  }

  lemma FilterOfPrefix<T>(a: seq<T>, b: seq<T>, p: T -> bool)
    requires a <= b
    ensures Filter(a, p) <= Filter(b, p)
  {
    assert b == a + b[|a|..];
    FilterAppend(a, b[|a|..], p);
  }

  /**
   * Order: highest score first, and the candidates of one score appear in tab-then-row
   * encounter order (a prefix of that score's candidates, in order).
   */
  lemma RankedSearchOrder(query: string, tables: seq<Table>, topN: int, threshold: int, score: Scorer, v: int)
    requires !IsBlank(query)
    ensures SortedDesc(RankedSearch(query, tables, topN, threshold, score))
    ensures Filter(RankedSearch(query, tables, topN, threshold, score), HasScore(v))
            <= Filter(Candidates(Strip(query), tables, threshold, score), HasScore(v))
  {
    var c := Candidates(Strip(query), tables, threshold, score);
    FilterOfPrefix(RankedSearch(query, tables, topN, threshold, score), SortByScore(c), HasScore(v));
    SortIsStable(c, v);
  }

  lemma TableRaiseThreshold(query: string, tab: Table, lo: int, hi: int, score: Scorer)
    requires lo <= hi
    ensures TableCandidates(query, tab, hi, score) == Filter(TableCandidates(query, tab, lo, score), AtLeast(hi))
  {
    if ProductColumn(tab.columns).Some? {
      var col := ProductColumn(tab.columns).value;
      forall k | 0 <= k < |tab.rows|
        ensures RowStep(query, tab, col, hi, score)(tab.rows[k]) == Filter(RowStep(query, tab, col, lo, score)(tab.rows[k]), AtLeast(hi))
      {
        var r := RowCandidates(query, tab, col, tab.rows[k], lo, score);
        if r != [] {
          assert Filter(r, AtLeast(hi)) == (if r[0].similarity >= hi then [r[0]] else []);
        }
      }
      ConcatFilter(tab.rows, RowStep(query, tab, col, lo, score), RowStep(query, tab, col, hi, score), AtLeast(hi));
    }
  }

  /** Raising the threshold keeps exactly the candidates scoring at or above the new one. */
  lemma CandidatesRaiseThreshold(query: string, tables: seq<Table>, lo: int, hi: int, score: Scorer)
    requires lo <= hi
    ensures Candidates(query, tables, hi, score) == Filter(Candidates(query, tables, lo, score), AtLeast(hi))
  {
    forall k | 0 <= k < |tables|
      ensures TableStep(query, hi, score)(tables[k]) == Filter(TableStep(query, lo, score)(tables[k]), AtLeast(hi))
    {
      TableRaiseThreshold(query, tables[k], lo, hi, score);
    }
    ConcatFilter(tables, TableStep(query, lo, score), TableStep(query, hi, score), AtLeast(hi));
  }

  /** Raising the threshold only removes candidates: the stricter result is a prefix of the looser one. */
  lemma ThresholdMonotone(query: string, tables: seq<Table>, topN: int, lo: int, hi: int, score: Scorer)
    requires lo <= hi
    ensures RankedSearch(query, tables, topN, hi, score) <= RankedSearch(query, tables, topN, lo, score)
  {
    if !IsBlank(query) {
      var q := Strip(query);
      CandidatesRaiseThreshold(q, tables, lo, hi, score);
      SortedAtLeastIsPrefix(Candidates(q, tables, lo, score), hi);
      PyPrefixMonotone(SortByScore(Candidates(q, tables, hi, score)), SortByScore(Candidates(q, tables, lo, score)), topN);
    }
  }

  /** get_best_match (src/matcher.py:146-162). */
  method GetBestMatch(query: string, tables: seq<Table>, threshold: int, score: Scorer) returns (best: Option<RankedMatch>)
    ensures best.None? <==> IsBlank(query) || Candidates(Strip(query), tables, threshold, score) == []
    ensures best.Some? ==>
      var c := Candidates(Strip(query), tables, threshold, score);
      exists k :: IsFirstBest(c, k) && c[k] == best.value
  {
    var matches := FindMatchingProducts(query, tables, 1, threshold, score);
    if |matches| > 0 {
      best := Some(matches[0]);
      SortedHeadIsFirstBest(Candidates(Strip(query), tables, threshold, score));
    } else {
      best := None;
    }
  }

  /** An order line of the ledger: its frame index and its 상품명 value. */
  datatype OrderLine = OrderLine(index: nat, productName: string)

  function OrderKey(o: OrderLine): nat { o.index }

  function OrderSearch(tables: seq<Table>, topN: int, threshold: int, score: Scorer): OrderLine -> seq<RankedMatch> {
    (o: OrderLine) => RankedSearch(o.productName, tables, topN, threshold, score)
  }

  /** The result dictionary after the order loop: one entry per order index, later lines overwriting earlier ones. */
  function BatchResults(orders: seq<OrderLine>, tables: seq<Table>, topN: int, threshold: int, score: Scorer): map<nat, seq<RankedMatch>> {
    Tabulate(orders, OrderKey, OrderSearch(tables, topN, threshold, score))
  }

  /**
   * The keys are exactly the order indices, and each index maps to the
   * ranked search of the last order line carrying it.
   */
  lemma BatchResultsSpec(orders: seq<OrderLine>, tables: seq<Table>, topN: int, threshold: int, score: Scorer, k: int)
    requires 0 <= k < |orders|
    requires forall j :: k < j < |orders| ==> orders[j].index != orders[k].index
    ensures BatchResults(orders, tables, topN, threshold, score).Keys == set j | 0 <= j < |orders| :: orders[j].index
    ensures BatchResults(orders, tables, topN, threshold, score)[orders[k].index]
         == RankedSearch(orders[k].productName, tables, topN, threshold, score)
  {
    TabulateKeys(orders, OrderKey, OrderSearch(tables, topN, threshold, score));
    TabulateLastWins(orders, OrderKey, OrderSearch(tables, topN, threshold, score), k);
  }

  /** batch_match_products (src/matcher.py:123-143): each order index maps to its ranked matches. */
  method BatchMatchProducts(orders: seq<OrderLine>, tables: seq<Table>, topN: int, threshold: int, score: Scorer)
    returns (results: map<nat, seq<RankedMatch>>)
    ensures results == BatchResults(orders, tables, topN, threshold, score)
  {
    results := map[];
    var n := 0;
    while n < |orders|
      invariant 0 <= n <= |orders|
      invariant results == BatchResults(orders[..n], tables, topN, threshold, score)
    {
      var matches := FindMatchingProducts(orders[n].productName, tables, topN, threshold, score);
      assert orders[..n + 1][..n] == orders[..n];
      results := results[orders[n].index := matches];
      n := n + 1;
    }
    assert orders[..n] == orders;
  }
}
