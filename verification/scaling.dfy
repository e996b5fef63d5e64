/**
 * The per-ingredient calorie display of a recipe: the text shown for an ingredient
 * and the calorie note after it, the reference energy scaled to the recipe's metric
 * amount when both are in the same unit.
 */
module Scaling {
  import opened Wrappers
  import opened Text
  import opened Measurement
  import opened Nutrition
  import opened Ingredients

  /** What follows an ingredient's text (` - <note>`), before it is formatted. */
  datatype CalorieNote =
    | NoNote              // no usable serving or energy: the text is shown alone
    | Scaled(kcal: real)  // energy scaled by actual / reference quantity, shown rounded
    | Unscaled(kcal: real) // the reference energy as it stands
    | ZeroBase            // the reference quantity is 0: the division raises ZeroDivisionError

  /**
   * The metric as the scaler reads it: an empty metric is not parsed. The guard
   * changes nothing, since the parser finds no quantity or unit in `""` either.
   */
  function ActualMeasurement(metric: string): (m: Measurement)
    ensures m == ParseMeasurement(metric)
  {
    if metric != "" then ParseMeasurement(metric) else Measurement(None, None)
  }

  /** Both quantities parsed and the units are the same (`base_unit == actual_unit`). */
  predicate Comparable(base: Measurement, actual: Measurement) {
    base.qty.Some? && actual.qty.Some? && base.unit == actual.unit
  }

  /** `(actual / base) * energy`: the reference energy of `base` units prorated to `actual` units. */
  function Prorate(energy: real, base: real, actual: real): real
    requires base != 0.0
  {
    actual / base * energy
  }

  /** The prorated energy is to the reference energy as the actual quantity is to the reference quantity. */
  lemma ProrateProportion(energy: real, base: real, actual: real)
    requires base != 0.0
    ensures Prorate(energy, base, actual) * base == actual * energy
  {
    calc {
      Prorate(energy, base, actual) * base;
      actual / base * base * energy;
      actual * energy;
    }
  }

  /**
   * The decision on two parsed measurements: scale when both quantities are there
   * and the units agree, fail on a zero reference quantity, keep the energy otherwise.
   */
  function ScaleEnergy(base: Measurement, actual: Measurement, energy: real): (note: CalorieNote)
    ensures !note.NoNote?
    ensures note.Scaled? <==> Comparable(base, actual) && base.qty.value != 0.0
    ensures note.ZeroBase? <==> Comparable(base, actual) && base.qty == Some(0.0)
    ensures note.Unscaled? <==> !Comparable(base, actual)
    ensures note.Unscaled? ==> note.kcal == energy
  {
    if Comparable(base, actual) then
      if base.qty.value == 0.0 then ZeroBase
      else Scaled(Prorate(energy, base.qty.value, actual.qty.value))
    else Unscaled(energy)
  }

  /** A scaled energy is to the reference energy as the actual quantity is to the reference quantity. */
  lemma ScaledProportion(base: Measurement, actual: Measurement, energy: real)
    ensures var note := ScaleEnergy(base, actual, energy);
      note.Scaled? ==> note.kcal * base.qty.value == actual.qty.value * energy
  {
    if Comparable(base, actual) && base.qty.value != 0.0 {
      ProrateProportion(energy, base.qty.value, actual.qty.value);
    }
  }

  /**
   * The calorie note for a looked-up `(serving, energy)` pair and an ingredient's metric:
   * nothing without a usable serving and energy; the energy times actual over reference
   * quantity when both parse in the same unit (an error if the reference quantity is 0);
   * the bare energy for an empty or unparseable metric or a different unit.
   */
  function ScaleCalories(info: CalorieInfo, metric: string): (note: CalorieNote)
    ensures note.NoNote? <==> !Resolved(info)
    ensures Resolved(info) ==>
      var base := ParseMeasurement(info.serving.value);
      var actual := ParseMeasurement(metric);
      && (note.Scaled? <==> Comparable(base, actual) && base.qty.value != 0.0)
      && (note.Scaled? ==> note.kcal == Prorate(info.energy.value, base.qty.value, actual.qty.value))
      && (note.ZeroBase? <==> Comparable(base, actual) && base.qty == Some(0.0))
      && (note.Unscaled? <==> !Comparable(base, actual))
      && (note.Unscaled? ==> note.kcal == info.energy.value)
  {
    if !Resolved(info) then NoNote
    else
      var base := ParseMeasurement(info.serving.value);
      var actual := ActualMeasurement(metric);
      assert actual == ParseMeasurement(metric);
      ScaleEnergy(base, actual, info.energy.value)
  }

  /** A product with a non-zero factor determines the other factor. */
  lemma CancelFactor(k: real, q: real, e: real)
    requires q != 0.0 && k * q == q * e
    ensures k == e
  {
    assert (k - e) * q == 0.0;
  }

  /** Same quantity and unit as the reference serving: the reference energy comes back unchanged. */
  lemma SameMeasurementKeepsEnergy(m: Measurement, energy: real)
    requires m.qty.Some? && m.qty.value != 0.0
    ensures ScaleEnergy(m, m, energy) == Scaled(energy)
  {
    ScaledProportion(m, m, energy);
    CancelFactor(ScaleEnergy(m, m, energy).kcal, m.qty.value, energy);
  }

  /** Scaling is proportional: twice the recipe amount, twice the calories. */
  lemma ScalingProportional(base: Measurement, a1: Measurement, a2: Measurement, energy: real)
    requires ScaleEnergy(base, a1, energy).Scaled? && a2.unit == a1.unit
    requires a2.qty == Some(2.0 * a1.qty.value)
    ensures ScaleEnergy(base, a2, energy) == Scaled(2.0 * ScaleEnergy(base, a1, energy).kcal)
  {
    var k1, k2 := ScaleEnergy(base, a1, energy).kcal, ScaleEnergy(base, a2, energy).kcal;
    var b := base.qty.value;
    ScaledProportion(base, a1, energy);
    ScaledProportion(base, a2, energy);
    assert k2 * b == 2.0 * (k1 * b);
    CancelFactor(k2, b, 2.0 * k1);
  }

  /** Whole numbers in the same unit on both sides scale by their ratio, e.g. 100g at 100 kcal is 200 kcal at 200g. */
  lemma WholeQuantitiesScale(base: nat, actual: nat, unit: string, energy: real)
    requires |unit| > 0 && forall i :: 0 <= i < |unit| ==> IsAsciiLetter(unit[i])
    requires base != 0 && energy != 0.0
    ensures ScaleCalories(CalorieInfo(Some(NatToDigits(base) + unit), Some(energy)), NatToDigits(actual) + unit)
      == Scaled(Prorate(energy, base as real, actual as real))
  {
    WholeQuantitiesParse(base, actual, unit, energy);
    SameUnitScales(base as real, actual as real, Lower(unit), energy);
  }

  /** The scaler reads whole quantities written in decimal as those numbers. */
  lemma {:induction false} WholeQuantitiesParse(base: nat, actual: nat, unit: string, energy: real)
    requires |unit| > 0 && forall i :: 0 <= i < |unit| ==> IsAsciiLetter(unit[i])
    requires energy != 0.0
    ensures ScaleCalories(CalorieInfo(Some(NatToDigits(base) + unit), Some(energy)), NatToDigits(actual) + unit)
      == ScaleEnergy(Measurement(Some(base as real), Some(Lower(unit))), Measurement(Some(actual as real), Some(Lower(unit))), energy)
  {
    WholeQuantityRoundTrip(base, unit);
    WholeQuantityRoundTrip(actual, unit);
  }

  /** Quantities in one unit scale the energy by their ratio. */
  lemma SameUnitScales(base: real, actual: real, unit: string, energy: real)
    requires base != 0.0
    ensures ScaleEnergy(Measurement(Some(base), Some(unit)), Measurement(Some(actual), Some(unit)), energy)
      == Scaled(Prorate(energy, base, actual))
  {
  }

  /** A metric in a different unit falls back to the unscaled energy, e.g. 200ml against 100g. */
  lemma {:induction false} UnitMismatchUnscaled(base: nat, actual: nat, u1: string, u2: string, energy: real)
    requires |u1| > 0 && forall i :: 0 <= i < |u1| ==> IsAsciiLetter(u1[i])
    requires |u2| > 0 && forall i :: 0 <= i < |u2| ==> IsAsciiLetter(u2[i])
    requires Lower(u1) != Lower(u2) && energy != 0.0
    ensures ScaleCalories(CalorieInfo(Some(NatToDigits(base) + u1), Some(energy)), NatToDigits(actual) + u2)
      == Unscaled(energy)
  {
    WholeQuantityRoundTrip(base, u1);
    WholeQuantityRoundTrip(actual, u2);
  }

  /** An empty metric is never parsed, so the energy is shown unscaled. */
  lemma EmptyMetricUnscaled(info: CalorieInfo)
    requires Resolved(info)
    ensures ScaleCalories(info, "") == Unscaled(info.energy.value)
  {
  }

  /** The metric is shown in brackets when, lower-cased, it contains `g` or `ml`. */
  predicate ShowsMetric(metric: string) {
    metric != "" && (Contains(Lower(metric), "g") || Contains(Lower(metric), "ml"))
  }

  /** The text shown for an ingredient, before any calorie note. */
  function DisplayText(name: string, quantity: string, metric: string): (text: string)
    ensures StartsWith(text, name)
    ensures |Join(name, quantity)| <= |text| && text[..|Join(name, quantity)|] == Join(name, quantity)
    ensures ShowsMetric(metric) ==> text[|Join(name, quantity)|..] == " (" + metric + ")"
    ensures !ShowsMetric(metric) ==> text == Join(name, quantity)
  {
    var shown := Join(name, quantity);
    if ShowsMetric(metric) then shown + " (" + metric + ")" else shown
  }

  /**
   * Shown with its metric, an ingredient's text splits back into the ingredient, as long
   * as the pieces are shapes the split can tell apart.
   */
  lemma DisplayTextSplitsBack(ing: Ingredient)
    requires ShowsMetric(ing.metric)
    requires '(' !in Join(ing.name, ing.quantity)
    requires var left := Join(ing.name, ing.quantity);
      left == [] || (!IsSpace(left[0]) && !IsSpace(left[|left| - 1]))
    requires ' ' !in ing.quantity
    requires ing.quantity == "" ==> ' ' !in ing.name
    requires ing.metric[|ing.metric| - 1] != ')'
    ensures SplitIngredient(DisplayText(ing.name, ing.quantity, ing.metric)) == ing
  {
    var left := Join(ing.name, ing.quantity);
    var padded := left + " ";
    var right := ing.metric + ")";
    assert DisplayText(ing.name, ing.quantity, ing.metric) == padded + "(" + right;
    assert '(' !in padded;
    assert right[|right| - 1] == ')';
    SplitAtParen(padded, right);
    StripTrailingSpace(left);
    PiecesRoundTrip(ing);
  }

  /** One ingredient as the recipe view shows it: its text and its calorie note. */
  datatype IngredientLine = IngredientLine(text: string, note: CalorieNote)

  /** The recipe view's handling of one ingredient: strip the fields, look the name up, scale. */
  function ShowIngredient(ing: Ingredient, table: seq<Record>, usda: Fallback): (line: IngredientLine)
    ensures StartsWith(line.text, Strip(ing.name))
    ensures line.text == DisplayText(Strip(ing.name), Strip(ing.quantity), Strip(ing.metric))
    ensures line.note.NoNote? <==> !Resolved(Lookup(Strip(ing.name), table, usda))
    ensures var info := Lookup(Strip(ing.name), table, usda);
      var actual := ParseMeasurement(Strip(ing.metric));
      Resolved(info) ==>
        var base := ParseMeasurement(info.serving.value);
        && (line.note.Scaled? <==> Comparable(base, actual) && base.qty.value != 0.0)
        && (line.note.Scaled? ==> line.note.kcal == Prorate(info.energy.value, base.qty.value, actual.qty.value))
        && (line.note.ZeroBase? <==> Comparable(base, actual) && base.qty == Some(0.0))
        && (line.note.Unscaled? <==> !Comparable(base, actual))
        && (line.note.Unscaled? ==> line.note.kcal == info.energy.value)
  {
    var name := Strip(ing.name);
    var quantity := Strip(ing.quantity);
    var metric := Strip(ing.metric);
    IngredientLine(DisplayText(name, quantity, metric), ScaleCalories(Lookup(name, table, usda), metric))
  }

  /** The free-text quantity (`1/2개`) never affects the calories; only the name and the metric do. */
  lemma QuantityIgnoredByCalories(ing: Ingredient, quantity: string, table: seq<Record>, usda: Fallback)
    ensures ShowIngredient(ing, table, usda).note == ShowIngredient(ing.(quantity := quantity), table, usda).note
  {
  }

  /** Whitespace around the name, quantity or metric of an ingredient changes nothing shown. */
  lemma SurroundingWhitespaceIgnored(ing: Ingredient, pre: string, post: string, table: seq<Record>, usda: Fallback)
    requires forall n :: 0 <= n < |pre| ==> IsSpace(pre[n])
    requires forall n :: 0 <= n < |post| ==> IsSpace(post[n])
    ensures var padded := Ingredient(pre + ing.name + post, pre + ing.quantity + post, pre + ing.metric + post);
      ShowIngredient(padded, table, usda) == ShowIngredient(ing, table, usda)
  {
    StripPadded(pre, ing.name, post);
    StripPadded(pre, ing.quantity, post);
    StripPadded(pre, ing.metric, post);
  }
}
