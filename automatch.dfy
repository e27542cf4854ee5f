/**
 * auto_match_products (src/matcher.py:165-301): a first-hit pipeline over the
 * tabs in order and, within a tab, the rows in order. A row hits when its
 * stripped product name equals the stripped query ("100%일치") or, failing
 * that, when its normalised, non-empty model name occurs in the normalised
 * query ("모델명100%일치").
 */
module AutoMatch {
  import opened Wrappers
  import opened Text
  import opened Seqs
  import opened Catalog
  import opened Resolver

  datatype MatchMethod = ExactName | ModelContained

  /** The method string returned beside the match. */
  function MethodLabel(m: MatchMethod): (r: string)
    ensures r != ""
    ensures m.ExactName? <==> r == "100%일치"
  {
    match m
    case ExactName => "100%일치"
    case ModelContained => "모델명100%일치"
  }

  /** The match_info dictionary; similarity is the literal 100.0 of the source. */
  datatype AutoMatchInfo = AutoMatchInfo(
    tab: string,
    name: string,
    similarity: int,
    purchasePrice: string,
    supplyPrice: string,
    vendor: string,
    image: string,
    model: string,
    option: string,
    log: map<string, string>)

  /** The logical fields and the column names tried for each, in order (src/matcher.py:264-268). */
  const SupplyTargets: seq<string> := ["공급가(V+) 배송비 포함", "공급가", "매출"]
  const PurchaseTargets: seq<string> := ["입고가계", "매입"]
  const VendorTargets: seq<string> := ["운영사", "공급사", "업체"]
  const ImageTargets: seq<string> := ["대표 1", "이미지", "Image"]
  const OptionTargets: seq<string> := ["옵션", "Option", "규격"]

  /** The only key the matching log can hold. */
  const SupplyLogKey := "매출(공급가)"

  /** get_col_value without similarity: the resolved cell, or "" when nothing resolves. */
  function FieldValue(columns: seq<string>, row: seq<string>, targets: seq<string>, ratio: Scorer): string {
    ResolvedValue(row, Resolve(columns, targets, false, ratio))
  }

  /** The match_info built for a row whose stripped product name is name. */
  function InfoAt(tab: Table, modelCol: Option<nat>, row: seq<string>, name: string, ratio: Scorer): (info: AutoMatchInfo)
    ensures info.tab == tab.name && info.name == name && info.similarity == 100
    ensures info.log.Keys <= {SupplyLogKey}
    ensures SupplyLogKey in info.log <==> Resolve(tab.columns, SupplyTargets, true, ratio).Resolved?
    ensures SupplyLogKey in info.log ==>
      info.log[SupplyLogKey] == TierLabel(Resolve(tab.columns, SupplyTargets, true, ratio).tier)
    ensures !Resolve(tab.columns, SupplyTargets, true, ratio).Resolved? ==> info.supplyPrice == ""
    ensures modelCol.None? ==> info.model == ""
  {
    var supply := Resolve(tab.columns, SupplyTargets, true, ratio);
    AutoMatchInfo(
      tab.name, name, 100,
      FieldValue(tab.columns, row, PurchaseTargets, ratio),
      ResolvedValue(row, supply),
      FieldValue(tab.columns, row, VendorTargets, ratio),
      FieldValue(tab.columns, row, ImageTargets, ratio),
      if modelCol.Some? then CellAt(row, modelCol.value) else "",
      FieldValue(tab.columns, row, OptionTargets, ratio),
      if supply.Resolved? then map[SupplyLogKey := TierLabel(supply.tier)] else map[])
  }

  /**
   * Every payload field of the match info is the row's cell in the column
   * get_col_value resolves for it ("" when none resolves), and the model
   * field is the row's model cell.
   */
  lemma InfoAtFields(tab: Table, modelCol: Option<nat>, row: seq<string>, name: string, ratio: Scorer)
    ensures Resolve(tab.columns, SupplyTargets, true, ratio).Resolved? ==>
      InfoAt(tab, modelCol, row, name, ratio).supplyPrice ==
        CellAt(row, Resolve(tab.columns, SupplyTargets, true, ratio).column)
    ensures InfoAt(tab, modelCol, row, name, ratio).purchasePrice ==
      ResolvedValue(row, Resolve(tab.columns, PurchaseTargets, false, ratio))
    ensures InfoAt(tab, modelCol, row, name, ratio).vendor ==
      ResolvedValue(row, Resolve(tab.columns, VendorTargets, false, ratio))
    ensures InfoAt(tab, modelCol, row, name, ratio).image ==
      ResolvedValue(row, Resolve(tab.columns, ImageTargets, false, ratio))
    ensures InfoAt(tab, modelCol, row, name, ratio).option ==
      ResolvedValue(row, Resolve(tab.columns, OptionTargets, false, ratio))
    ensures modelCol.Some? ==> InfoAt(tab, modelCol, row, name, ratio).model == CellAt(row, modelCol.value)
  {
  }

  /** The second test: a model column, a non-empty normalised model name, contained in the normalised query. */
  predicate ModelHit(normQuery: string, modelCol: Option<nat>, row: seq<string>) {
    modelCol.Some? &&
    var model := CellAt(row, modelCol.value);
    !IsBlank(model) &&
    var nm := Normalize(Strip(model));
    nm != "" && Contains(normQuery, nm)
  }

  /** The verdict on one row of a tab whose product column is productCol; q is the stripped query. */
  function RowVerdict(q: string, productCol: nat, modelCol: Option<nat>, row: seq<string>): (r: Option<MatchMethod>)
    ensures r.Some? ==> !IsBlank(CellAt(row, productCol))
    ensures r == Some(ModelContained) ==> modelCol.Some? && Normalize(Strip(CellAt(row, modelCol.value))) != ""
  {
    var cell := CellAt(row, productCol);
    if IsBlank(cell) then None
    else if q == Strip(cell) then Some(ExactName)
    else if ModelHit(Normalize(q), modelCol, row) then Some(ModelContained)
    else None
  }

  /** Row i of tab t hits for the stripped query q. */
  predicate HitAt(q: string, tables: seq<Table>, t: int, i: int) {
    0 <= t < |tables| && ProductColumn(tables[t].columns).Some? && 0 <= i < |tables[t].rows| &&
    RowVerdict(q, ProductColumn(tables[t].columns).value, ModelColumn(tables[t].columns), tables[t].rows[i]).Some?
  }

  /** The outcome reported for the hit at row i of tab t. */
  function OutcomeAt(q: string, tables: seq<Table>, t: int, i: int, ratio: Scorer): (AutoMatchInfo, MatchMethod)
    requires HitAt(q, tables, t, i)
  {
    var tab := tables[t];
    var pc := ProductColumn(tab.columns).value;
    var mc := ModelColumn(tab.columns);
    (InfoAt(tab, mc, tab.rows[i], Strip(CellAt(tab.rows[i], pc)), ratio), RowVerdict(q, pc, mc, tab.rows[i]).value)
  }

  /** The two tests on one row, in the source's order; nq is the normalised query. */
  method TestRow(q: string, nq: string, productCol: nat, modelCol: Option<nat>, row: seq<string>)
    returns (verdict: Option<MatchMethod>)
    requires nq == Normalize(q)
    ensures verdict == RowVerdict(q, productCol, modelCol, row)
  {
    var cell := CellAt(row, productCol);
    if IsBlank(cell) {
      return None;
    }
    var name := Strip(cell);
    if q == name {
      return Some(ExactName);
    }
    if modelCol.Some? {
      var model := CellAt(row, modelCol.value);
      if !IsBlank(model) {
        var nm := Normalize(Strip(model));
        if nm != "" && Contains(nq, nm) {
          return Some(ModelContained);
        }
      }
    }
    return None;
  }

  /** The row loop over one tab: the first row that hits, if any. */
  method ScanTab(q: string, tables: seq<Table>, t: nat) returns (hit: Option<nat>)
    requires t < |tables|
    ensures hit.Some? ==> HitAt(q, tables, t, hit.value)
    ensures hit.Some? ==> forall i :: 0 <= i < hit.value ==> !HitAt(q, tables, t, i)
    ensures hit.None? ==> forall i :: !HitAt(q, tables, t, i)
  {
    var tab := tables[t];
    var productCol := FirstColumn(tab.columns, IsProductColumnName);
    if productCol.None? {
      return None;
    }
    var modelCol := FirstColumn(tab.columns, IsModelColumnName);
    assert productCol == ProductColumn(tables[t].columns) && modelCol == ModelColumn(tables[t].columns);
    var nq := Normalize(q);
    var i := 0;
    while i < |tab.rows|
      invariant 0 <= i <= |tab.rows|
      invariant forall i' :: 0 <= i' < i ==> !HitAt(q, tables, t, i')
    {
      var verdict := TestRow(q, nq, productCol.value, modelCol, tab.rows[i]);
      if verdict.Some? {
        return Some(i);
      }
      assert !HitAt(q, tables, t, i);
      i := i + 1;
    }
    return None;
  }

  /** auto_match_products: the first hit in tab-then-row order, with its match info and method. */
  method AutoMatchProducts(query: string, tables: seq<Table>, ratio: Scorer)
    returns (r: Option<(AutoMatchInfo, MatchMethod)>)
    ensures IsBlank(query) ==> r.None?
    ensures r.None? ==> IsBlank(query) || forall t, i :: !HitAt(Strip(query), tables, t, i)
    ensures r.Some? ==> !IsBlank(query)
    ensures r.Some? ==> exists t, i ::
      && HitAt(Strip(query), tables, t, i)
      && r.value == OutcomeAt(Strip(query), tables, t, i, ratio)
      && forall t', i' :: (t' < t || (t' == t && i' < i)) ==> !HitAt(Strip(query), tables, t', i')
  {
    if IsBlank(query) {
      return None;
    }
    var q := Strip(query);
    var t := 0;
    while t < |tables|
      invariant 0 <= t <= |tables|
      invariant forall t', i' :: t' < t ==> !HitAt(q, tables, t', i')
    {
      var hit := ScanTab(q, tables, t);
      if hit.Some? {
        var i := hit.value;
        r := Some(OutcomeAt(q, tables, t, i, ratio));
        assert forall t', i' :: (t' < t || (t' == t && i' < i)) ==> !HitAt(q, tables, t', i');
        assert HitAt(q, tables, t, i) && r.value == OutcomeAt(q, tables, t, i, ratio);
        return r;
      }
      t := t + 1;
    }
    return None;
  }

  /** Within a row the exact-name test wins: the verdict is 100%일치 exactly when the names are equal. */
  lemma ExactNameFirst(q: string, productCol: nat, modelCol: Option<nat>, row: seq<string>)
    ensures RowVerdict(q, productCol, modelCol, row) == Some(ExactName) <==>
      !IsBlank(CellAt(row, productCol)) && q == Strip(CellAt(row, productCol))
  {
  }

  /** A model name that normalises to "" (or no model column) never produces 모델명100%일치. */
  lemma EmptyModelNeverMatches(q: string, productCol: nat, modelCol: Option<nat>, row: seq<string>)
    requires modelCol.None? || Normalize(Strip(CellAt(row, modelCol.value))) == ""
    ensures RowVerdict(q, productCol, modelCol, row) != Some(ModelContained)
  {
  }

  /**
   * A model cell that pandas read as missing reaches the test as str(NaN),
   * the text "nan", which is neither missing nor blank: every query whose
   * normalised form contains "nan" then matches the row by model name.
   */
  lemma NanModelMatchesAsWritten(q: string, productCol: nat, modelCol: Option<nat>, row: seq<string>)
    requires modelCol.Some? && CellAt(row, modelCol.value) == "nan"
    requires !IsBlank(CellAt(row, productCol)) && q != Strip(CellAt(row, productCol))
    requires Contains(Normalize(q), "nan")
    ensures RowVerdict(q, productCol, modelCol, row) == Some(ModelContained)
  {
    assert IsKept('n') && IsKept('a');
    StripNoSpace("nan");
    NormalizeFixesKept("nan");
  }

  /** The query "banana" contains "nan" once normalised, so it meets the row above. */
  lemma BananaContainsNan()
    ensures Contains(Normalize("banana"), "nan")
  {
    assert forall k :: 0 <= k < |"banana"| ==> IsKept("banana"[k]);
    NormalizeFixesKept("banana");
    assert OccursAt("banana", "nan", 2);
  }

  /** A blank or missing model cell (read as "") never produces 모델명100%일치, as the isna test intends. */
  lemma BlankModelNeverMatches(q: string, productCol: nat, modelCol: Option<nat>, row: seq<string>)
    requires modelCol.Some? && IsBlank(CellAt(row, modelCol.value))
    ensures RowVerdict(q, productCol, modelCol, row) != Some(ModelContained)
  {
  }

  /**
   * The verdict is 모델명100%일치 exactly when the product cell is not blank,
   * its stripped name differs from the query, the tab has a model column,
   * the row's model cell is not blank, and its normalised model name is a
   * non-empty substring of the normalised query.
   */
  lemma ModelVerdictMeaning(q: string, productCol: nat, modelCol: Option<nat>, row: seq<string>)
    ensures RowVerdict(q, productCol, modelCol, row) == Some(ModelContained) <==>
      && !IsBlank(CellAt(row, productCol))
      && q != Strip(CellAt(row, productCol))
      && modelCol.Some?
      && !IsBlank(CellAt(row, modelCol.value))
      && Normalize(Strip(CellAt(row, modelCol.value))) != ""
      && Contains(Normalize(q), Normalize(Strip(CellAt(row, modelCol.value))))
  {
  }

  /**
   * A successful auto-match reports similarity 100, and a 100%일치 result
   * carries a product name identical to the stripped query.
   */
  lemma OutcomeShape(q: string, tables: seq<Table>, t: int, i: int, ratio: Scorer)
    requires HitAt(q, tables, t, i)
    ensures OutcomeAt(q, tables, t, i, ratio).0.similarity == 100
    ensures OutcomeAt(q, tables, t, i, ratio).0.tab == tables[t].name
    ensures OutcomeAt(q, tables, t, i, ratio).1 == ExactName ==> OutcomeAt(q, tables, t, i, ratio).0.name == q
    ensures OutcomeAt(q, tables, t, i, ratio).0.name != ""
  {
    var pc := ProductColumn(tables[t].columns).value;
    var cell := CellAt(tables[t].rows[i], pc);
    assert !IsBlank(cell);
    ExactNameFirst(q, pc, ModelColumn(tables[t].columns), tables[t].rows[i]);
  }
}
