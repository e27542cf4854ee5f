/**
 * get_col_value (src/matcher.py:209-250): resolve a logical field to a column
 * of a tab in three tiers — the literal column name, then the normalised
 * name, then (only when similarity is enabled) a fuzzy ratio of at least 95.
 */
module Resolver {
  import opened Wrappers
  import opened Text
  import opened Seqs
  import opened Catalog

  /** The tier that resolved a field; Fuzzy carries the ratio that was accepted. */
  datatype Tier = Exact | Normalized | Fuzzy(ratio: int)

  datatype Resolution = Unresolved | Resolved(column: nat, tier: Tier)

  /** The smallest fuzzy ratio the third tier accepts. */
  const FuzzyCutoff := 95

  function NormalizedTargets(targets: seq<string>): (r: seq<string>)
    ensures |r| == |targets|
    ensures forall k :: 0 <= k < |targets| ==> r[k] == Normalize(targets[k])
  {
    seq(|targets|, k requires 0 <= k < |targets| => Normalize(targets[k]))
  }

  /** Does the normalised column name nc pass the third tier against normalised target nt? */
  predicate FuzzyAccepts(nc: string, nt: string, ratio: Scorer) {
    nt != "" && nc != "" && ratio(nc, nt) >= FuzzyCutoff
  }

  /** The inner loop of the third tier: the ratio against the first target that passes. */
  function FuzzyRatio(nc: string, nts: seq<string>, ratio: Scorer): (r: Option<int>)
    ensures r.Some? <==> exists k :: 0 <= k < |nts| && FuzzyAccepts(nc, nts[k], ratio)
    ensures r.Some? ==> nc != "" && r.value >= FuzzyCutoff
  {
    match FirstWhere(nts, nt => FuzzyAccepts(nc, nt, ratio))
    case None => None
    case Some(k) => Some(ratio(nc, nts[k]))
  }

  predicate ExactHit(c: string, targets: seq<string>) {
    c in targets
  }

  predicate NormalizedHit(c: string, targets: seq<string>) {
    Normalize(c) in NormalizedTargets(targets)
  }

  predicate FuzzyHit(c: string, targets: seq<string>, ratio: Scorer) {
    FuzzyRatio(Normalize(c), NormalizedTargets(targets), ratio).Some?
  }

  /** The three-tier resolution, first column in column order within each tier. */
  function Resolve(columns: seq<string>, targets: seq<string>, useSimilarity: bool, ratio: Scorer): (r: Resolution)
    ensures r.Resolved? ==> r.column < |columns|
  {
    match FirstWhere(columns, c => ExactHit(c, targets))
    case Some(i) => Resolved(i, Exact)
    case None =>
      match FirstWhere(columns, c => NormalizedHit(c, targets))
      case Some(i) => Resolved(i, Normalized)
      case None =>
        if !useSimilarity then Unresolved
        else
          match FirstWhere(columns, c => FuzzyHit(c, targets, ratio))
          case None => Unresolved
          case Some(i) =>
            var nts := NormalizedTargets(targets);
            var nc := Normalize(columns[i]);
            var k := FirstWhere(nts, nt => FuzzyAccepts(nc, nt, ratio)).value;
            Resolved(i, Fuzzy(ratio(nc, nts[k])))
  }

  /** Tier 1 applies whenever some column's literal name is a target, and picks the first such column. */
  lemma ResolveExactTier(columns: seq<string>, targets: seq<string>, useSimilarity: bool, ratio: Scorer)
    ensures var r := Resolve(columns, targets, useSimilarity, ratio);
      ((r.Resolved? && r.tier == Exact) <==> exists j :: 0 <= j < |columns| && ExactHit(columns[j], targets)) &&
      (r.Resolved? && r.tier == Exact ==>
        ExactHit(columns[r.column], targets) && forall j :: 0 <= j < r.column ==> !ExactHit(columns[j], targets))
  {
  }

  /** Tier 2 applies only when tier 1 found nothing, and picks the first column whose normalised name matches. */
  lemma ResolveNormalizedTier(columns: seq<string>, targets: seq<string>, useSimilarity: bool, ratio: Scorer)
    ensures var r := Resolve(columns, targets, useSimilarity, ratio);
      r.Resolved? && r.tier == Normalized ==>
        (forall j :: 0 <= j < |columns| ==> !ExactHit(columns[j], targets)) &&
        NormalizedHit(columns[r.column], targets) &&
        forall j :: 0 <= j < r.column ==> !NormalizedHit(columns[j], targets)
  {
  }

  /**
   * Tier 3 applies only with similarity enabled and when tiers 1 and 2 found
   * nothing; the column's normalised name is non-empty, and the reported ratio
   * is that of the first target accepted at 95 or more.
   */
  lemma ResolveFuzzyTier(columns: seq<string>, targets: seq<string>, useSimilarity: bool, ratio: Scorer)
    ensures var r := Resolve(columns, targets, useSimilarity, ratio);
      r.Resolved? && r.tier.Fuzzy? ==>
        useSimilarity &&
        (forall j :: 0 <= j < |columns| ==> !ExactHit(columns[j], targets) && !NormalizedHit(columns[j], targets)) &&
        Normalize(columns[r.column]) != "" && r.tier.ratio >= FuzzyCutoff &&
        (exists k :: 0 <= k < |targets| && FuzzyAccepts(Normalize(columns[r.column]), Normalize(targets[k]), ratio) &&
          ratio(Normalize(columns[r.column]), Normalize(targets[k])) == r.tier.ratio &&
          forall k' :: 0 <= k' < k ==> !FuzzyAccepts(Normalize(columns[r.column]), Normalize(targets[k']), ratio)) &&
        forall j :: 0 <= j < r.column ==> !FuzzyHit(columns[j], targets, ratio)
  {
  }

  /** Nothing resolves exactly when no column passes any tier that was tried. */
  lemma ResolveUnresolved(columns: seq<string>, targets: seq<string>, useSimilarity: bool, ratio: Scorer)
    ensures var r := Resolve(columns, targets, useSimilarity, ratio);
      r.Unresolved? <==>
        (forall j :: 0 <= j < |columns| ==> !ExactHit(columns[j], targets) && !NormalizedHit(columns[j], targets)) &&
        (useSimilarity ==> forall j :: 0 <= j < |columns| ==> !FuzzyHit(columns[j], targets, ratio))
  {
  }

  /** str(row.get(col, '')) for the resolved column, and '' when nothing resolved. */
  function ResolvedValue(row: seq<string>, r: Resolution): (v: string)
    ensures r.Unresolved? ==> v == ""
    ensures r.Resolved? && r.column < |row| ==> v == row[r.column]
  {
    if r.Resolved? then CellAt(row, r.column) else ""
  }

  /** The start of the tier-3 log text, before the rounded-down ratio and "%". */
  const FuzzyPrefix := "3단계:유사도"

  /** The log text get_col_value returns beside the value when similarity is enabled. */
  function TierLabel(t: Tier): (r: string)
    ensures r != ""
  {
    match t
    case Exact => "1단계:정확"
    case Normalized => "2단계:정규화"
    case Fuzzy(ratio) => FuzzyPrefix + DecimalString(if ratio < 0 then 0 else ratio) + "%"
  }

  /**
   * The three log texts: "1단계:정확" for an exact hit, "2단계:정규화" for a
   * normalised one, and for a fuzzy one "3단계:유사도", the ratio rounded down
   * to an integer in decimal without a leading zero, then "%".
   */
  lemma TierLabelText(t: Tier)
    ensures t.Exact? ==> TierLabel(t) == "1단계:정확"
    ensures t.Normalized? ==> TierLabel(t) == "2단계:정규화"
    ensures t.Fuzzy? ==>
      var r := TierLabel(t);
      |r| > |FuzzyPrefix| + 1 && r[..|FuzzyPrefix|] == FuzzyPrefix && r[|r| - 1] == '%' &&
      DigitsValue(r[|FuzzyPrefix|..|r| - 1]) == (if t.ratio < 0 then 0 else t.ratio) &&
      (r[|FuzzyPrefix|] != '0' || r[|FuzzyPrefix|..|r| - 1] == "0")
  {
    if t.Fuzzy? {
      var n: nat := if t.ratio < 0 then 0 else t.ratio;
      var d := DecimalString(n);
      DecimalStringValue(n);
      var r := TierLabel(t);
      assert r == FuzzyPrefix + d + "%";
      assert r[..|FuzzyPrefix|] == FuzzyPrefix;
      assert r[|FuzzyPrefix|..|r| - 1] == d;
    }
  }
}
