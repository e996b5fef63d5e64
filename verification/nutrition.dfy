/**
 * The nutrition lookup: a food name resolved against the reference table in three
 * tiers (exact name match, substring match, then the external USDA fallback), the
 * first record in table order winning within a tier.
 */
module Nutrition {
  import opened Wrappers
  import opened Text

  /**
   * One row of the reference table. The three name columns may be missing cells
   * (`None`); a missing cell never matches.
   */
  datatype Record = Record(
    name: Option<string>,      // food name column
    altName: Option<string>,   // representative food name column
    category: Option<string>,  // mid-level food category column
    serving: string,           // reference serving, e.g. "100g"
    energy: real)              // kcal per reference serving

  /** The `(serving, energy)` pair every tier answers with; `None` plays Python's `None`. */
  datatype CalorieInfo = CalorieInfo(serving: Option<string>, energy: Option<real>)

  /**
   * Python's `if s_val and energy`: a non-empty serving text and a non-zero energy.
   * Callers print a food without calories when this fails.
   */
  predicate Resolved(info: CalorieInfo) {
    info.serving.Some? && info.serving.value != "" && info.energy.Some? && info.energy.value != 0.0
  }

  /** The external fallback: translation plus the USDA query, opaque to this model. */
  type Fallback = string -> CalorieInfo

  predicate FieldEquals(field: Option<string>, query: string) {
    field.Some? && Lower(field.value) == Lower(query)
  }

  predicate FieldContains(field: Option<string>, query: string) {
    field.Some? && Contains(Lower(field.value), Lower(query))
  }

  /** The exact tier's row test: some name column equals the query, ignoring case. */
  predicate ExactMatch(r: Record, query: string) {
    FieldEquals(r.name, query) || FieldEquals(r.altName, query) || FieldEquals(r.category, query)
  }

  /** The partial tier's row test: some name column contains the query, ignoring case. */
  predicate PartialMatch(r: Record, query: string) {
    FieldContains(r.name, query) || FieldContains(r.altName, query) || FieldContains(r.category, query)
  }

  /** Every row that matches exactly also matches partially: a string contains itself. */
  lemma ExactImpliesPartial(r: Record, query: string)
    requires ExactMatch(r, query)
    ensures PartialMatch(r, query)
  {
    ContainsSelf(Lower(query));
  }

  /** The index of the first row satisfying `p`, searching from `from` (`df[mask].iloc[0]`). */
  function FirstWhere(table: seq<Record>, p: Record -> bool, from: nat): (r: Option<nat>)
    requires from <= |table|
    ensures r.Some? ==> from <= r.value < |table| && p(table[r.value])
    ensures r.Some? ==> forall i :: from <= i < r.value ==> !p(table[i])
    ensures r.None? ==> forall i :: from <= i < |table| ==> !p(table[i])
    decreases |table| - from
  {
    if from == |table| then None
    else if p(table[from]) then Some(from)
    else FirstWhere(table, p, from + 1)
  }

  /** What a matched row answers: its serving and energy columns. */
  function InfoOf(r: Record): (info: CalorieInfo)
    ensures info.serving == Some(r.serving) && info.energy == Some(r.energy)
  {
    CalorieInfo(Some(r.serving), Some(r.energy))
  }

  /** `get_calorie_info(ingredient, table)`, with `get_usda_calorie_info` passed in as `usda`. */
  function Lookup(ingredient: string, table: seq<Record>, usda: Fallback): (info: CalorieInfo)
    ensures info == usda(ingredient) || exists j :: 0 <= j < |table| && info == InfoOf(table[j])
  {
    match FirstWhere(table, r => ExactMatch(r, ingredient), 0)
    case Some(i) => InfoOf(table[i])
    case None =>
      match FirstWhere(table, r => PartialMatch(r, ingredient), 0)
      case Some(i) => InfoOf(table[i])
      case None => usda(ingredient)
  }

  /**
   * Exact tier: the first exactly-matching row decides, whatever partially-matching
   * rows come before it.
   */
  lemma ExactTierWins(ingredient: string, table: seq<Record>, usda: Fallback, i: nat)
    requires i < |table| && ExactMatch(table[i], ingredient)
    requires forall j :: 0 <= j < i ==> !ExactMatch(table[j], ingredient)
    ensures Lookup(ingredient, table, usda) == InfoOf(table[i])
  {
    var e := FirstWhere(table, r => ExactMatch(r, ingredient), 0);
    assert e.Some?;
  }

  /** Partial tier: with no exact match anywhere, the first row containing the query decides. */
  lemma PartialTierWins(ingredient: string, table: seq<Record>, usda: Fallback, i: nat)
    requires forall j :: 0 <= j < |table| ==> !ExactMatch(table[j], ingredient)
    requires i < |table| && PartialMatch(table[i], ingredient)
    requires forall j :: 0 <= j < i ==> !PartialMatch(table[j], ingredient)
    ensures Lookup(ingredient, table, usda) == InfoOf(table[i])
  {
    var e := FirstWhere(table, r => ExactMatch(r, ingredient), 0);
    var q := FirstWhere(table, r => PartialMatch(r, ingredient), 0);
    assert q.Some?;
  }

  /** Fallback tier: the external source is asked exactly when no row contains the query. */
  lemma FallbackOnlyOnMiss(ingredient: string, table: seq<Record>, usda: Fallback)
    ensures (forall j :: 0 <= j < |table| ==> !PartialMatch(table[j], ingredient))
      ==> Lookup(ingredient, table, usda) == usda(ingredient)
    ensures (exists j :: 0 <= j < |table| && PartialMatch(table[j], ingredient))
      ==> forall other: Fallback :: Lookup(ingredient, table, usda) == Lookup(ingredient, table, other)
  {
    forall j | 0 <= j < |table| && ExactMatch(table[j], ingredient)
      ensures PartialMatch(table[j], ingredient)
    {
      ExactImpliesPartial(table[j], ingredient);
    }
  }

  /** A local hit always reports the serving and energy of some row of the table. */
  lemma LocalHitComesFromTable(ingredient: string, table: seq<Record>, usda: Fallback)
    requires exists j :: 0 <= j < |table| && PartialMatch(table[j], ingredient)
    ensures exists j :: 0 <= j < |table| && PartialMatch(table[j], ingredient) && Lookup(ingredient, table, usda) == InfoOf(table[j])
  {
    var e := FirstWhere(table, r => ExactMatch(r, ingredient), 0);
    if e.Some? {
      ExactImpliesPartial(table[e.value], ingredient);
    }
  }

  /** A table whose one row names the food exactly answers with that row's serving and energy. */
  lemma OneRowExample(usda: Fallback)
    ensures Lookup("닭가슴살", [Record(Some("닭가슴살"), None, None, "100g", 109.0)], usda)
      == CalorieInfo(Some("100g"), Some(109.0))
  {
    var table := [Record(Some("닭가슴살"), None, None, "100g", 109.0)];
    assert ExactMatch(table[0], "닭가슴살");
    ExactTierWins("닭가슴살", table, usda, 0);
  }
}
