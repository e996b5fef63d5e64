# calorieeat: the calorie-resolution core in Dafny

`calorieeat` is a Streamlit app that searches recipes on a cooking site and estimates
the calories of recipe ingredients and of self-reported meals. This project models the
app's pure calorie pipeline as immutable data and total functions, and proves its
properties:

- **measurement parsing** (`parse_measurement`): the first match of
  `([\d.]+)\s*([a-zA-Z]+)`, read as an optional `float` quantity and a lower-cased unit;
- **nutrition lookup** (`get_calorie_info`): exact name match, then substring match,
  then the external USDA fallback, the first table row winning within a tier;
- **calorie scaling** (the block of `display_recipes` that annotates each ingredient):
  reference energy times actual over reference quantity when the units agree,
  the bare energy otherwise;
- **meal totals** (`calculate_meal_calories`): a fold over the chosen foods giving a
  total and one detail line per food;
- **image URLs** (`fix_image_url`) and the **ingredient-line split** of
  `fetch_recipe_details`.

Modules: `Wrappers` (Option), `Text` (ASCII lower-casing, Python's whitespace set,
`strip`/`lstrip`/`rstrip`, substring and index search), `Measurement`, `Nutrition`,
`Scaling`, `Meal`, `ImageUrl`, `Ingredients`.

Modelling choices:

- The regex is modelled as written, including `\s*`: `"200 g"` matches as well as
  `"200g"`. A match at a start index uses the longest number, whitespace and letter runs.
  `PatternFixesGreedyGroups` proves backtracking could not choose other groups.
- `float()` on a run of digits and dots succeeds exactly when the run has a digit and at
  most one dot. Otherwise the quantity is `None` and the unit is still returned.
- Quantities and energies are `real`. Python's binary floating point is not modelled.
- A reference quantity of 0 makes the source divide by zero (`ZeroDivisionError`).
  The model returns the explicit result `ZeroBase` rather than guarding it away.
- The external USDA lookup (translation, HTTP, JSON scan) is a function-valued
  parameter `usda` of type `string -> CalorieInfo`.

## Model

| member | source | states |
|---|---|---|
| Text.Lower | calorieeat.py:23 | lower-casing keeps the length and folds each character on its own |
| Text.LStrip | calorieeat.py:118 | `lstrip` removes exactly the leading run of the given characters: the rest is a suffix not starting with one |
| Text.RStrip | calorieeat.py:252 | `rstrip` removes exactly the trailing run of the given characters: the rest is a prefix not ending with one |
| Text.Strip | calorieeat.py:115 | `strip()` leaves a slice of the input with no whitespace at either end (the full behaviour is `StripSpec`) |
| Text.StripSpec | calorieeat.py:115 | `strip()` leaves a slice of the input with no whitespace at either end, and everything cut off before and after it is whitespace |
| Text.EmptyStripIffAllSpace | calorieeat.py:115 | `strip()` leaves nothing exactly when the input is all whitespace |
| Text.StripOfUnique | calorieeat.py:115 | only one string is a slice with whitespace alone cut off and none left at its ends, so that characterisation pins `strip()` down |
| Text.StripPadded | calorieeat.py:295-297 | whitespace added around a string does not change what `strip()` gives |
| Text.StripIdempotent | calorieeat.py:115 | stripping twice is stripping once |
| Text.StripFixed | calorieeat.py:115 | a string with no whitespace at either end is its own strip |
| Text.IndexOf | calorieeat.py:251 | the position of the first occurrence of a character, `None` exactly when it does not occur |
| Text.LastIndexOf | calorieeat.py:255 | the position of the last occurrence of a character, `None` exactly when it does not occur |
| Measurement.RunEndSpec | calorieeat.py:17 | a greedy group is the longest run: every character in it is of the group's class and the one after it is not |
| Measurement.RunEndCovers | calorieeat.py:17 | a greedy group reaches at least as far as any run of its class from the same start |
| Measurement.RunEndExact | calorieeat.py:17 | a run of the class that stops where the class stops is the greedy group |
| Measurement.MatchAt | calorieeat.py:17 | an attempt of the pattern at `i`: a non-empty number group starts at `i`, and a non-empty unit group follows it inside the string (the full behaviour is `MatchAtSpec`) |
| Measurement.MatchAtSpec | calorieeat.py:17 | an attempt at index `i` succeeds exactly when some instance of the pattern starts at `i`, and then reports maximal groups |
| Measurement.PatternFixesGreedyGroups | calorieeat.py:17 | in every instance of the pattern starting at `i`, the number and whitespace runs are the maximal ones, so backtracking cannot change the groups |
| Measurement.FirstMatch | calorieeat.py:17 | `re.search` reports the successful attempt at its own start, at or after where the search began |
| Measurement.FirstMatchLeftmost | calorieeat.py:17 | every attempt before the reported start fails |
| Measurement.FirstMatchNone | calorieeat.py:17-18 | the search finds nothing exactly when every attempt fails |
| Measurement.FirstAttemptWins | calorieeat.py:17 | the first successful attempt is the one reported |
| Measurement.MatchGroups | calorieeat.py:17 | a match's first group is digits and dots, its second group ASCII letters |
| Measurement.ParseFloat | calorieeat.py:20 | `float()` of a digit/dot run gives no negative value and rejects the empty run (the full behaviour is `ParseFloatSpec`) |
| Measurement.NoDotLiteral | calorieeat.py:19-22 | a digit/dot run without a dot is all digits, and `float()` accepts it exactly when it is non-empty |
| Measurement.DotLiteral | calorieeat.py:19-22 | a digit/dot run with a dot is accepted exactly when no second dot follows and the run is more than the dot; then both sides of the dot are digits |
| Measurement.ParseFloatSpec | calorieeat.py:19-22 | `float()` of a digit/dot run succeeds exactly when the run has a digit and at most one dot; an all-digit run gives its decimal value |
| Measurement.DecimalExamples | calorieeat.py:20 | `"1.5"` reads as 1.5 and `".25"` as 0.25 |
| Measurement.ParseMeasurement | calorieeat.py:16-25 | a quantity never comes without a unit; a unit is non-empty and all lower-case |
| Measurement.NoMatchIffNone | calorieeat.py:16-25 | the answer is `(None, None)` exactly when the pattern occurs nowhere in the string |
| Measurement.LeftmostMatchDecides | calorieeat.py:17-24 | the leftmost instance decides: quantity is `float` of its number run, unit its whole letter run lower-cased; later instances play no part |
| Measurement.ConcatPattern | calorieeat.py:17 | a digit/dot run, whitespace and letters laid end to end are an instance of the pattern at index 0 |
| Measurement.NumberRunThenUnit | calorieeat.py:17-24 | a digit/dot run, optional whitespace and letters parse to `float` of the run and the lower-cased letters |
| Measurement.NumberThenUnit | calorieeat.py:17-24 | digits, optional whitespace and a unit (`"250g"`, `"200 g"`) give the number and the lower-cased unit |
| Measurement.DotsThenUnit | calorieeat.py:19-23 | a run `float()` rejects (`"..g"`) gives quantity `None` but still returns the unit: parsing never fails |
| Measurement.DigitsRoundTrip | calorieeat.py:20 | writing a natural number in decimal and reading the digits back gives the number |
| Measurement.WholeQuantityRoundTrip | calorieeat.py:16-25 | a whole quantity written before a unit parses back to that quantity and the lower-cased unit |
| Nutrition.FirstWhere | calorieeat.py:98 | `df[mask].iloc[0]`: the reported row satisfies the mask and no earlier row does; `None` when no row does |
| Nutrition.Lookup | calorieeat.py:92-110 | the answer is the serving and energy of some table row, or the fallback's answer |
| Nutrition.ExactImpliesPartial | calorieeat.py:94-104 | a row that matches exactly also matches as a substring |
| Nutrition.ExactTierWins | calorieeat.py:93-101 | the first exactly matching row decides, even when rows before it match as substrings |
| Nutrition.PartialTierWins | calorieeat.py:102-109 | with no exact match anywhere, the first row whose name fields contain the query (ignoring case) decides |
| Nutrition.FallbackOnlyOnMiss | calorieeat.py:102-110 | the fallback's answer is returned when no row contains the query; when some row does, the fallback has no influence |
| Nutrition.LocalHitComesFromTable | calorieeat.py:97-109 | when some row contains the query, the answer is the serving and energy of such a row |
| Nutrition.OneRowExample | calorieeat.py:92-101 | a row named `닭가슴살` with `"100g"` and 109 kcal answers `("100g", 109)` |
| Scaling.ActualMeasurement | calorieeat.py:311 | the `if metric` guard changes nothing: the metric is read exactly as the parser reads it, since the parser finds no quantity or unit in `""` either |
| Scaling.ScaleEnergy | calorieeat.py:312-316 | scaled exactly when both quantities exist, units agree and the reference is non-zero; a zero reference is the division error; otherwise the energy unchanged |
| Scaling.ScaledProportion | calorieeat.py:313 | a scaled energy is to the reference energy as the actual quantity is to the reference quantity: `kcal * base == actual * energy` |
| Scaling.ProrateProportion | calorieeat.py:313 | `(actual / base) * energy` times `base` is `actual * energy` |
| Scaling.ScaleCalories | calorieeat.py:309-317 | no note exactly when serving is empty or missing or energy is zero or missing; otherwise scaled exactly when both parse in one unit with a non-zero reference, and then worth actual over reference quantity times energy; the division error exactly when the reference is 0 in that case; the unscaled energy exactly when quantities are missing or units differ |
| Scaling.SameMeasurementKeepsEnergy | calorieeat.py:312-314 | the same quantity and unit as the reference gives back the reference energy |
| Scaling.ScalingProportional | calorieeat.py:313 | twice the actual quantity in the same unit gives twice the calories |
| Scaling.SameUnitScales | calorieeat.py:312-313 | quantities in one unit scale the energy by their ratio |
| Scaling.WholeQuantitiesParse | calorieeat.py:309-312 | whole quantities written in decimal before a unit reach the scaling decision as those numbers and the lower-cased unit |
| Scaling.WholeQuantitiesScale | calorieeat.py:309-314 | whole quantities in one unit scale by their ratio (`"100g"` at 100 kcal is 200 kcal at `"200g"`) |
| Scaling.UnitMismatchUnscaled | calorieeat.py:312-316 | a metric in another unit (`"200ml"` against `"100g"`) gives the unscaled energy |
| Scaling.EmptyMetricUnscaled | calorieeat.py:311-316 | an empty metric gives the unscaled energy |
| Scaling.DisplayText | calorieeat.py:298-307 | the text is name and quantity, followed by ` (metric)` exactly when the lower-cased metric contains `g` or `ml` |
| Scaling.DisplayTextSplitsBack | calorieeat.py:249-262 | an ingredient shown with its metric, `name quantity (metric)`, splits back into the same ingredient |
| Scaling.ShowIngredient | calorieeat.py:295-318 | the shown text is the display text of the stripped name, quantity and metric, so it starts with the stripped name; no note exactly when the lookup of the stripped name is unresolved; otherwise the note is scaled, an error or the looked-up energy according to the looked-up serving and the stripped metric, as for `ScaleCalories` |
| Scaling.SurroundingWhitespaceIgnored | calorieeat.py:295-297 | whitespace around the name, quantity or metric changes neither the text nor the note |
| Scaling.QuantityIgnoredByCalories | calorieeat.py:296-313 | the free-text quantity never changes the calorie note; only name and metric do |
| Ingredients.SplitNameQuantity | calorieeat.py:254-258 | name and quantity joined by a space give the stripped left part back; the quantity has no space, and is empty exactly when the left part has none |
| Ingredients.Join | calorieeat.py:254-258 | name and quantity written back together start with the name |
| Ingredients.SplitIngredient | calorieeat.py:249-262 | the quantity has no space and is non-empty only for a line with both brackets; the metric does not end in `)`; with both brackets neither name nor quantity contains `(` |
| Ingredients.BracketPieces | calorieeat.py:251-258 | the text before the first `(` yields a name and a quantity without `(` |
| Ingredients.FirstParen | calorieeat.py:251 | the cut is at a `(` with no `(` before it |
| Ingredients.SplitWithoutParens | calorieeat.py:259-262 | without both brackets the whole text is the name, quantity and metric empty |
| Ingredients.SplitWithParens | calorieeat.py:250-258 | with both brackets the metric is the text after the first `(` minus all trailing `)`, and name and quantity split the stripped prefix at its last space |
| Ingredients.CutAtLastSpace | calorieeat.py:255 | the last space of `name + " " + quantity` is the joining one when the quantity has no space |
| Ingredients.LastSpaceUnique | calorieeat.py:255 | cutting at the last space is the only cut that leaves no space in the quantity |
| Ingredients.MetricRoundTrip | calorieeat.py:252 | removing trailing `)` from `metric + ")"` gives the metric back when it does not end in `)` |
| Ingredients.NameRoundTrip | calorieeat.py:254-258 | cutting a joined name and quantity at the last space gives both back |
| Ingredients.FirstParenAfter | calorieeat.py:251 | the first `(` of `left + "(" + rest` is the one after a bracket-free `left` |
| Ingredients.SplitAtParen | calorieeat.py:250-258 | a line with a bracket-free prefix before `(` and a `)` after it splits at that `(` |
| Ingredients.PiecesRoundTrip | calorieeat.py:252-258 | a joined name and quantity and a bracketed metric come back from their pieces |
| Ingredients.SplitRoundTrip | calorieeat.py:249-262 | writing an ingredient as `name quantity(metric)` and splitting the line gives the ingredient back |
| ImageUrl.UnderImageDir | calorieeat.py:119-120 | the path ends up under `image/`, the prefix added only when missing, the original path kept as a suffix |
| ImageUrl.FixImageUrl | calorieeat.py:112-121 | `""` gives `""`; a stripped `http…` path is returned as is; anything else becomes the site root, then `image/`, ending with the path minus leading slashes, and `image/` is added only when that path does not already start with it (the length says which) |
| ImageUrl.SiteRootIsHttp | calorieeat.py:116-121 | every URL on the site root starts with `http` |
| ImageUrl.LastCharNotSpace | calorieeat.py:117-121 | a URL the function builds does not end in whitespace |
| ImageUrl.BuiltUrlShape | calorieeat.py:116-121 | a URL the function builds starts with `http` and has no surrounding whitespace |
| ImageUrl.FixImageUrlIdempotent | calorieeat.py:112-121 | fixing an already fixed URL changes nothing |
| ImageUrl.UnderImageDirNotHttp | calorieeat.py:115-118 | a path that is under `image/` once whitespace and leading slashes are gone is not returned as an `http` URL |
| ImageUrl.ImageDirNotDoubled | calorieeat.py:113-121 | a path already under `image/` once whitespace and leading slashes are gone (`" /image/a.jpg"`) is placed on the site root without a second `image/` |
| Meal.EnergyOf | calorieeat.py:375-376 | a food adds its energy to the total exactly when it resolves, and nothing otherwise |
| Meal.DetailOf | calorieeat.py:375-379 | the line names the food; it carries calories exactly when the lookup resolves, and then carries its energy |
| Meal.CalculateMealCalories | calorieeat.py:370-380 | one detail per food, in order, each the food's line; the total is the energy of the resolved foods and the sum of calories the lines show |
| Meal.ShownTotalAppend | calorieeat.py:370-380 | the calories shown by two lists of detail lines add up |
| Meal.MealEnergyAppend | calorieeat.py:382-390 | the energy of meals eaten in sequence is the sum of their energies |
| Meal.RecommendedIntake | calorieeat.py:358-361 | the recommendation lies between 30 and 35 kcal per kg of a non-negative weight |
| Meal.IntakeBounds | calorieeat.py:356-361 | for weights the form accepts, the recommendation lies in 900..7000 kcal and is higher for men |

## Left out

- `get_usda_calorie_info`: translation, the HTTP request and the nutrient scan are foreign calls. They are the parameter `usda`.
- `load_fooddb`, `get_food_options`, `load_nutrition_data`: file and pandas I/O. The table is a `seq<Record>` argument. `load_fooddb` (calorieeat.py:30) and `load_nutrition_data` (calorieeat.py:49) call `os.path.exists` without importing `os`, so as written they raise `NameError`. `display_recipes` fails at line 273, before the lookup, the scaling and the ingredient display. The meal page fails at line 364, before `calculate_meal_calories`. `fix_image_url` (called from `fetch_initial_recipes`, line 161) and the intake formula still run. The model describes the core as it runs once `os` is imported.
- `fetch_initial_recipes`, `fetch_more_recipes`, and the HTML parts of `fetch_recipe_details`: network and HTML parsing. Only the string split of each ingredient line is modelled.
- `recipe_search_page`, `personal_info_page`, `main`, and the "더보기" pagination: UI and session state.
- The message that compares the daily total with the recommendation: a choice between two display strings.
- Formatting: `f"{scaled:.0f} kcal"`, `f"{energy} kcal"` and `f"{food}: {energy} kcal"` need Python float printing. Notes and detail lines are datatypes carrying the numbers.
- Nutrition.Lookup: the table is assumed to have the three name columns plus serving and energy, and each name column to hold strings. With no data files `load_nutrition_data` returns a column-less frame (calorieeat.py:65), and a name column with no strings at all has no `.str` accessor. In both cases lines 94-104 raise (`KeyError`, `AttributeError`) instead of falling back to `usda`. The model sends an empty table to `usda`.
- Missing serving or energy cells: pandas reads them as NaN. NaN is truthy in Python, so a NaN serving would reach `re.search` and raise. Records carry a serving string and a real energy; only the three name columns may be missing.
- `str.contains` treats the ingredient as a regular expression. The model uses plain substring containment. Names with regex metacharacters may behave differently, and a malformed pattern would raise.
- Lower-casing covers ASCII only. `\d` is taken as the ASCII digits. `\s` and `strip()` use the whitespace set of `str.isspace()`.
- Measurement.ParseFloatSpec: the contract gives the value only for all-digit runs. The value of a run with a dot is stated by the definition and the examples in `DecimalExamples`.
- Text.Strip: its own contract states only the shape of the result; that only whitespace is removed, from both ends, is stated by `StripSpec`.
- Measurement.MatchAt: its own contract states only where the groups lie; that an attempt succeeds exactly when the pattern occurs there, with the greedy groups, is stated by `MatchAtSpec`.
- Ingredients.SplitIngredient: its own contract states only properties of the pieces; the pieces themselves are stated by `SplitWithParens` and `SplitWithoutParens`.
- Measurement.ParseFloat: its own contract states only that a value is non-negative and that the empty run is rejected; when `float()` succeeds and what it gives is stated by `ParseFloatSpec`, `NoDotLiteral`, `DotLiteral` and `DecimalExamples`.
- Meal.RecommendedIntake: its own contract states only that the recommendation lies between the two per-kg rates; the range over the accepted weights and the order between genders are stated by `IntakeBounds`.
- Nutrition.Lookup: its contract states only where the answer comes from. Which row wins is stated by `ExactTierWins`, `PartialTierWins` and `FallbackOnlyOnMiss`.
