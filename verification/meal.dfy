/**
 * The meal calculator: the foods picked for one meal looked up in turn, the energy
 * of the resolved ones summed, and one detail line kept per food; plus the daily
 * recommendation the totals are compared with.
 */
module Meal {
  import opened Wrappers
  import opened Nutrition

  /** One detail line: `"<food>: <energy> kcal"` for a resolved food, the bare name otherwise. */
  datatype Detail = WithCalories(food: string, kcal: real) | BareName(food: string)

  /** The energy a lookup contributes to a meal: its value when resolved, nothing otherwise. */
  function EnergyOf(info: CalorieInfo): (e: real)
    ensures Resolved(info) ==> e == info.energy.value && e != 0.0
    ensures !Resolved(info) ==> e == 0.0
  {
    if Resolved(info) then info.energy.value else 0.0
  }

  /** The detail line for one food and what its lookup answered. */
  function DetailOf(food: string, info: CalorieInfo): (d: Detail)
    ensures d.food == food
    ensures d.WithCalories? <==> Resolved(info)
    ensures d.WithCalories? ==> d.kcal == info.energy.value
  {
    if Resolved(info) then WithCalories(food, info.energy.value) else BareName(food)
  }

  /** The sum of the calories the detail lines show. */
  function ShownTotal(details: seq<Detail>): real
  {
    if details == [] then 0.0
    else (if details[0].WithCalories? then details[0].kcal else 0.0) + ShownTotal(details[1..])
  }

  /** Reference total: the energy of every food that resolves, summed from the front. */
  function MealEnergy(meal: seq<string>, table: seq<Record>, usda: Fallback): real
  {
    if meal == [] then 0.0
    else EnergyOf(Lookup(meal[0], table, usda)) + MealEnergy(meal[1..], table, usda)
  }

  /** The energy of two meals eaten one after the other is the sum of their energies. */
  lemma {:induction false} MealEnergyAppend(a: seq<string>, b: seq<string>, table: seq<Record>, usda: Fallback)
    ensures MealEnergy(a + b, table, usda) == MealEnergy(a, table, usda) + MealEnergy(b, table, usda)
    decreases |a|
  {
    if a != [] {
      assert (a + b)[1..] == a[1..] + b;
      MealEnergyAppend(a[1..], b, table, usda);
    } else {
      assert a + b == b;
    }
  }

  /** The calories shown by two lists of detail lines add up. */
  lemma {:induction false} ShownTotalAppend(a: seq<Detail>, b: seq<Detail>)
    ensures ShownTotal(a + b) == ShownTotal(a) + ShownTotal(b)
    decreases |a|
  {
    if a != [] {
      assert (a + b)[1..] == a[1..] + b;
      ShownTotalAppend(a[1..], b);
    } else {
      assert a + b == b;
    }
  }

  /** `calculate_meal_calories(meal_list, df)`. */
  method CalculateMealCalories(meal: seq<string>, table: seq<Record>, usda: Fallback)
    returns (total: real, details: seq<Detail>)
    ensures |details| == |meal|
    ensures forall i :: 0 <= i < |meal| ==> details[i] == DetailOf(meal[i], Lookup(meal[i], table, usda))
    ensures total == MealEnergy(meal, table, usda)
    ensures total == ShownTotal(details)
  {
    total := 0.0;
    details := [];
    var i := 0;
    while i < |meal|
      invariant 0 <= i <= |meal|
      invariant |details| == i
      invariant forall k :: 0 <= k < i ==> details[k] == DetailOf(meal[k], Lookup(meal[k], table, usda))
      invariant total == MealEnergy(meal[..i], table, usda)
      invariant total == ShownTotal(details)
    {
      var food := meal[i];
      var info := Lookup(food, table, usda);
      var line: Detail;
      if Resolved(info) {
        total := total + info.energy.value;
        line := WithCalories(food, info.energy.value);
      } else {
        line := BareName(food);
      }
      MealEnergyAppend(meal[..i], [food], table, usda);
      ShownTotalAppend(details, [line]);
      assert meal[..i + 1] == meal[..i] + [food];
      details := details + [line];
      i := i + 1;
    }
    assert meal[..i] == meal;
  }

  /** The day's recommendation: 35 kcal per kg for `"남"` (male), 30 kcal per kg otherwise. */
  function RecommendedIntake(weight: int, gender: string): (r: int)
    ensures 0 <= weight ==> 30 * weight <= r <= 35 * weight
  {
    if gender == "남" then weight * 35 else weight * 30
  }

  /**
   * Over the weights the form accepts (30 to 200 kg) the recommendation lies between
   * 900 and 7000 kcal, and for the same weight it is higher for men.
   */
  lemma IntakeBounds(weight: int, gender: string)
    requires 30 <= weight <= 200
    ensures 900 <= RecommendedIntake(weight, gender) <= 7000
    ensures RecommendedIntake(weight, "남") > RecommendedIntake(weight, "여")
  {
  }
}
