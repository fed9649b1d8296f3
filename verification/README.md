# Health_Web diet planner, modelled in Dafny

This project models the core of Health_Web, a console diet planner:

- the health profile (`backend.py`): body-mass index, its four bands, the
  advice for each goal and the numbered goal menu;
- the daily target (`output.py`): the Mifflin-St Jeor base rate, scaled by
  the goal, with protein by body weight and carbs and fats by calorie share;
- the reader of comma-separated food lines (`output.py`) and the reader
  that looks names up in a fixed nutrition table (`nutri_break.py`);
- the greedy allocator that spreads the foods over breakfast, lunch,
  dinner and snacks (`output.py`, `suggest_diet`);
- the cleaner that turns extracted text into sentences (`menu_int.py`,
  `process_text`).

Modules, one per file, following the program's structure:

- `Wrappers`: `Option`.
- `Strings`: the Python string operations the code relies on, each written out:
  - `IsSpace` is the set of characters for which Python's `str.isspace` holds. The same set is what `str.strip()` removes and what `\s` matches in a `str` pattern.
  - `Strip` is `str.strip()`.
  - `Split` is `str.split(sep)` and `re.split` on a character class.
  - `Lower` is `str.lower()`.
  - `FilterMap` is the "append when it parses" loop shape.
- `Profile`: `backend.py`.
- `Diet`: `FoodItem`, `calculate_calories` and the comma-separated reader of `output.py`.
- `Allocation`: `suggest_diet`.
- `NutriBreak`: `nutri_break.py`.
- `MenuText`: `process_text`.

The loops of the source are methods with loop invariants:
- `Diet.ParseFoodItems`;
- `NutriBreak.ParseFoodItems`;
- `Allocation.SuggestDiet`, with its nested loop over meals and foods.

Each is proved equal to a specification function. The properties are then
proved about that function.

Behaviour of the code worth knowing:

- The running total `current` is created once for the whole day and never reset between meals.
  - Each meal's budget is therefore its share of the target minus everything allocated before it.
- A food's `quantity` is never decreased.
  - The quantity bounds every meal's portion afresh, so one food can be planned for more than its quantity (`Allocation.CarryOverExample`).
- Within a meal the fill is greedy: a meal that ends below its budget took every usable food whole (`Allocation.FillMealUnderBudget`).
- A direct consequence of the never-reset total: the calories achieved never exceed 35% of a non-negative target. So `is_deficit` is true whenever the calorie target is positive, whatever the foods (`Allocation.AlwaysDeficit`).
- With no foods at all, `is_deficit` holds exactly when some target is positive, not unconditionally (`Allocation.EmptyFoodList`).
- A profile is not validated: any height, weight, age and gender is accepted.
  - Over exact reals, only a zero height makes the index fail, by division by zero.
  - A target can be zero or negative, and the allocator then plans nothing.
- For 170 cm, 70 kg, 30 years, male and sedentary, the base rate is 10·70 + 6.25·170 − 5·30 + 5 = 1617.5 kcal (`Diet.SedentaryMaleExample`).

`Lower` maps only `A`–`Z` and the Kelvin sign U+212A (to `k`). The code
compares lower-cased text with `"male"` and with the keys `"rice"`,
`"chicken"` and `"egg"`. `A`–`Z` and U+212A are the only characters that
Python lower-cases to a single lower-case ASCII letter. There is one
exception to "no ASCII letter" for every other character: Python lower-cases
U+0130 (capital I with dot above) to `i` followed by U+0307 (combining dot
above). U+0307 occurs in none of the compared words. So a text holding U+0130
never equals one of them in Python, and it does not here either, where U+0130
is kept unchanged. Every comparison the code makes therefore has the same
outcome in Python and in the model.

## Model

| member | source | states |
|---|---|---|
| Profile.CalculateBmi | backend.py:19-20 | defined exactly when the height is not zero (Python raises on zero); the index times the squared height in metres is the weight; positive for a positive weight |
| Profile.BmiCategory | backend.py:31-39 | always one of the four bands; Underweight iff below 18.5, Normal weight iff in [18.5, 25), Overweight iff in [25, 30), Obese iff 30 or more |
| Profile.BmiCategoryMonotone | backend.py:31-39 | a larger index never falls in a lighter band |
| Profile.GoalRecommendation | backend.py:41-47 | each of the three advice texts is returned exactly for its goal, muscle building being the fall-through |
| Profile.GoalRecommendationInjective | backend.py:41-47 | distinct goals receive distinct advice |
| Profile.GetRecommendations | backend.py:22-29 | defined exactly when the height is not zero; then the index is the one computed for the profile, the band is that index's band and the advice is the goal's |
| Profile.GoalOfChoice | backend.py:60-64 | a menu choice is accepted exactly when it is 1, 2 or 3, selecting fat loss, sedentary and muscle building in declaration order |
| Diet.CalculateCalories | output.py:17-36 | calories are the base rate times the goal's factor (0.85, 1.0, 1.15); protein is weight times 2.2, 1.8 or 2.4; carb grams at 4 kcal and fat grams at 9 kcal carry exactly the goal's calorie shares |
| Diet.MaleBmrOffset | output.py:19-22 | for equal weight, height and age the male base rate is exactly 166 kcal above the other formula |
| Diet.MaleIgnoresCase | output.py:19 | for every gender text, lower-casing it first does not change whether the male formula is chosen |
| Diet.MaleSpellings | output.py:19 | "male", "Male" and "MALE" select the male formula; "female" and "m" do not |
| Diet.MacroEnergy | output.py:25-33 | carbs and fats together carry 65%, 70% or 75% of the calories by goal, so never more than non-negative calories |
| Diet.CaloriesOrderedByGoal | output.py:25-33 | for one person with a non-negative base rate, fat loss targets no more calories than sedentary, and sedentary no more than muscle building |
| Diet.SedentaryMaleExample | output.py:17-36 | 170 cm, 70 kg, 30 years, male, sedentary gives 1617.5 kcal, 126 g protein, 181.96875 g carbs and 485.25/9 g fats |
| Diet.ParseLine | output.py:42-53 | a line yields an item iff its stripped text has exactly six comma-separated fields and the five numeric ones all parse; the item's name is the stripped first field and its numbers the parsed fields in order |
| Diet.CommaCountDecides | output.py:43 | a line whose comma count is not five is always skipped |
| Diet.ParseFoodItems | output.py:38-54 | the loop returns exactly the items of the lines that parse, in line order, and never more items than lines |
| Diet.ParsedItemSound | output.py:41-51 | every item read comes from some line of six fields, whose stripped first field is its name and whose sixth field parses to its quantity |
| Diet.ParsedItemsConcat | output.py:40-54 | two texts joined by a line break read as the items of the first followed by those of the second |
| Allocation.MealTargetsSumToDaily | output.py:70-78 | the four meal targets of every nutrient add up to the daily target |
| Allocation.PortionBounds | output.py:84-89 | a portion never exceeds the food's quantity; for a food with calories its energy never exceeds the meal's remaining budget, and it is either the whole quantity or exactly fills that budget; a positive portion needs positive calories and budget left |
| Allocation.TakeStep | output.py:80-98 | one food step never lowers the running calories, either changes nothing or appends one entry while keeping the total within the meal budget, changes nothing once the budget is spent, and appends only admissible entries |
| Allocation.TakeUsable | output.py:80-98 | a food with some quantity and positive calories met while the meal's budget is not spent is always taken, with a positive portion appended and counted |
| Allocation.TakeNeverLowers | output.py:95-98 | one food step never lowers the running calories |
| Allocation.TakeWhole | output.py:84-98 | a usable food whose step leaves the running calories below the budget was taken with its whole quantity |
| Allocation.TakeUnusable | output.py:81-89 | a food without quantity or without positive calories changes nothing |
| Allocation.FillMealUnderBudget | output.py:80-98 | a meal that ends below its calorie budget took every usable food of the list, in order, each with its whole quantity, and nothing else |
| Allocation.FillMealProperties | output.py:80-98 | a meal's pass never lowers the running calories, changes nothing when it plans nothing, keeps the total within the meal budget when it plans something, plans nothing when the budget is already spent, and draws its entries from distinct foods of the list, in list order, each with a positive portion no larger than that food's quantity |
| Allocation.AllocateMealsProperties | output.py:60-98 | after the first k meals the plan has exactly the four meal keys, later meals are empty, every entry comes from the food list, the calories are between 0 and 35% of a non-negative target, and a non-positive target leaves an empty plan and no nutrients |
| Allocation.RunningTotalMonotone | output.py:67-98 | the running calories never decrease from one meal to the next |
| Allocation.IsDeficit | output.py:100 | reaching every non-negative target is never short; with nothing achieved the plan is short exactly when some target is positive |
| Allocation.DietPlan | output.py:56-107 | the result carries the day's targets, a plan with exactly the four meals, non-negative achieved calories, and the deficit flag of its achieved totals against its targets |
| Allocation.SuggestDiet | output.py:56-107 | the nested loop over meals and foods returns exactly the specification plan, targets, achieved totals and deficit flag |
| Allocation.DrawnAdmissible | output.py:80-93 | every entry of a meal names a food of the list with a positive portion no larger than its quantity |
| Allocation.PlanEntriesAdmissible | output.py:60-93 | the plan has exactly the four meals, and every entry names a listed food with a positive portion no larger than its quantity |
| Allocation.AchievedWithinLargestShare | output.py:67-98 | because the total is never reset, achieved calories stay between 0 and 35% of a non-negative target; a non-positive target plans nothing |
| Allocation.AlwaysDeficit | output.py:100 | with a positive calorie target the plan is always flagged as short |
| Allocation.NonPositiveTargetDeficit | output.py:100 | with a non-positive calorie target the plan is flagged as short exactly when the weight is positive |
| Allocation.EmptyFoodList | output.py:60-67 | no foods give an empty plan, nothing achieved, and a deficit exactly when some target is positive |
| Allocation.CarryOverExample | output.py:67-98 | one food of 300 units at 1 kcal against 1000 kcal: breakfast 250, lunch 100, dinner and snacks nothing, 350 units planned in all, more than the quantity |
| NutriBreak.LookupLine | nutri_break.py:14-24 | a line yields an item exactly when its stripped, lower-cased text is a table key; the item has that name, the key's nutrients and 100 g |
| NutriBreak.KnownItems | nutri_break.py:10-26 | the items of a text, never more than its line breaks plus one |
| NutriBreak.ParseFoodItems | nutri_break.py:10-26 | the loop returns exactly the table items of the lines whose stripped, lower-cased text is a table key, in line order |
| NutriBreak.KnownItemSound | nutri_break.py:14-24 | every item is named by a table key taken from some line, copies that key's nutrients and has quantity 100 |
| NutriBreak.KnownLineKept | nutri_break.py:13-24 | a line whose stripped, lower-cased text is a key contributes its item; removing any other line leaves the items unchanged |
| NutriBreak.UnknownLineDropped | nutri_break.py:13-15 | removing a line that is not a table key leaves the items unchanged |
| NutriBreak.KnownItemsConcat | nutri_break.py:11-24 | two texts joined by a line break yield the items of the first followed by those of the second |
| NutriBreak.EmptyTextNoItems | nutri_break.py:11-15 | the empty text yields no item |
| NutriBreak.NormalisedLookup | nutri_break.py:14-24 | a line " Egg\r" is found as the egg entry with its table nutrients and 100 g |
| MenuText.ProcessText | menu_int.py:12-24 | at most one sentence more than the text has '.', '!' or '?' characters |
| MenuText.ProcessTextConcat | menu_int.py:16-22 | a '.', '!' or '?' is a sentence boundary: the sentences of two texts joined by one are the first text's sentences followed by the second's |
| MenuText.OneSentence | menu_int.py:12-24 | a text with no sentence end and at least one non-space character gives exactly one sentence |
| MenuText.ProcessTextSentences | menu_int.py:16-22 | the outer strip after collapsing changes no sentence: the result is the stripped, non-empty pieces of the collapsed text |
| MenuText.SentencesConcat | menu_int.py:19-22 | splitting and keeping the non-blank pieces distributes over a join at a sentence end |
| MenuText.SentencesPad | menu_int.py:19-22 | whitespace added around a text does not change its sentences |
| MenuText.CollapseRun | menu_int.py:16 | each maximal run of whitespace becomes exactly one space, and the text on either side is collapsed on its own |
| MenuText.CollapseNoSpace | menu_int.py:16 | a text without whitespace is left unchanged |
| MenuText.CollapseAppend | menu_int.py:16 | collapsing a concatenation collapses each part, when no whitespace run spans the join |
| MenuText.CollapseKeepsCount | menu_int.py:16 | collapsing whitespace keeps the count of every separator that is not whitespace, such as the sentence ends |
| MenuText.CollapseShape | menu_int.py:16 | collapsing whitespace leaves only plain spaces, never two in a row, and keeps a leading non-space character |
| MenuText.SentenceShape | menu_int.py:12-24 | every sentence is non-empty, starts and ends with a non-space, holds no '.', '!' or '?', and contains only single plain spaces |
| MenuText.ContentKept | menu_int.py:16-22 | apart from whitespace and sentence ends, the sentences hold exactly the text's characters, in order |
| MenuText.ContentPreserved | menu_int.py:12-24 | the sentences' non-space characters, concatenated, are exactly the text's characters other than whitespace and sentence ends |
| MenuText.VisibleCollapse | menu_int.py:16 | collapsing whitespace keeps every non-space character, in order |
| MenuText.VisibleSplit | menu_int.py:19 | splitting at sentence ends loses only the sentence ends |
| MenuText.VisibleSentences | menu_int.py:22 | dropping blank pieces and stripping the rest loses only whitespace |
| MenuText.BlankTextNoSentences | menu_int.py:16-22 | a text of only whitespace and sentence ends gives no sentence |
| Strings.StripSpec | output.py:43 | `strip` keeps a contiguous slice, removes only whitespace on either side, and the result is empty or starts and ends with a non-space |
| Strings.StripPad | menu_int.py:22 | whitespace added on either side of a text does not change what `strip` returns |
| Strings.SplitPadLeft | menu_int.py:19 | text without separators put in front of a text lengthens only the first piece of its split |
| Strings.SplitPadRight | menu_int.py:19 | text without separators put after a text lengthens only the last piece of its split |
| Strings.SplitPiecesAvoidSeps | menu_int.py:19 | no piece of a split contains a separator |
| Strings.SplitSlice | output.py:40 | every piece of a split is a contiguous slice of the text |
| Strings.SplitConcat | output.py:40 | splitting a text joined at a separator is splitting both halves and concatenating |
| Strings.JoinSplit | output.py:40 | joining the pieces of `split(sep)` with `sep` gives back the text |
| Strings.SplitCount | output.py:43 | a split has one more piece than the text has separators |
| Strings.StripKeepsCount | output.py:43 | stripping never removes a non-space separator such as ',' |
| Strings.LowerIdempotent | output.py:19 | lower-casing twice is lower-casing once, so a lower-case comparison is unaffected by lower-casing beforehand |

## Left out

- Console input and output: `get_user_input`'s prompts and its re-prompt loop, both `main` functions and the printed summaries. The menu choice, once it is an integer, is `Profile.GoalOfChoice`, with `None` for an integer outside 1 to 3. The `int()` parse of the typed choice is left out together with the prompt: text that `int()` rejects has no counterpart in the model.
- PDF text extraction (`extract_pdf_text`, `pdf_pipeline`): a foreign library call. `MenuText.ProcessText` takes the extracted text as its input.
- `alter_nutri_break.py` fetches nutrients over the network and is not part of this model.
- Floating point: every quantity is an exact `real`, so the model has no rounding error, overflow, infinity or NaN.
- Python's `float()` parsing is the parameter `parseFloat` of `Diet.ParseFoodItems`.
- The string values of `HealthGoal` ("fat loss", ...) are only printed in the menu and are not modelled.
- Profile.GetRecommendations: keeps the index as a number; the source formats it as the text "Your BMI is: " with one decimal.
- Allocation.SuggestDiet: plan entries keep the unrounded portion; the source stores `round(portion, 2)` for display. The running totals use the unrounded portion in both.
- Strings.Lower: maps only `A`–`Z` and U+212A, not the full Unicode lower-case table. This is exact for the comparisons the code makes.
