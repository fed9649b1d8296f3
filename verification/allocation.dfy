/**
 * The greedy meal allocator. Four meals in a fixed order, each with a fixed
 * share of the daily calorie target; each meal walks the food list in order
 * and takes of every usable food the largest portion that its quantity and
 * the remaining calorie budget allow. The running total is created once for
 * the whole day and never reset, so each meal's budget is its share of the
 * target minus everything allocated before it, and a food's quantity is never
 * used up: it bounds the portion afresh in every meal.
 */
module Allocation {
  import opened Profile
  import opened Diet

  datatype Meal = Breakfast | Lunch | Dinner | Snacks

  /** The meals in the order the plan visits them. */
  const Meals: seq<Meal> := [Breakfast, Lunch, Dinner, Snacks]

  /** One line of a meal: the food's name and its portion (unrounded). */
  datatype Entry = Entry(food: string, portion: real)

  type Plan = map<Meal, seq<Entry>>

  const EmptyPlan: Plan := map[Breakfast := [], Lunch := [], Dinner := [], Snacks := []]

  const NoNutrients: Nutrients := Nutrients(0.0, 0.0, 0.0, 0.0)

  datatype DietResult = DietResult(plan: Plan, targets: Nutrients, achieved: Nutrients, isDeficit: bool)

  /**
   * The meal's targets: every nutrient of the daily target times the meal's
   * share, 0.25 for breakfast, 0.35 for lunch, 0.3 for dinner and 0.1 for
   * snacks.
   */
  function MealTargets(targets: Nutrients, meal: Meal): Nutrients
  {
    match meal
    case Breakfast => Nutrients(targets.calories * 0.25, targets.protein * 0.25, targets.carbs * 0.25, targets.fats * 0.25)
    case Lunch => Nutrients(targets.calories * 0.35, targets.protein * 0.35, targets.carbs * 0.35, targets.fats * 0.35)
    case Dinner => Nutrients(targets.calories * 0.3, targets.protein * 0.3, targets.carbs * 0.3, targets.fats * 0.3)
    case Snacks => Nutrients(targets.calories * 0.1, targets.protein * 0.1, targets.carbs * 0.1, targets.fats * 0.1)
  }

  /** The shares add up to one: the four meal targets add up to the daily target. */
  lemma MealTargetsSumToDaily(targets: Nutrients)
    ensures var b, l, d, s := MealTargets(targets, Breakfast), MealTargets(targets, Lunch),
                              MealTargets(targets, Dinner), MealTargets(targets, Snacks);
      && b.calories + l.calories + d.calories + s.calories == targets.calories
      && b.protein + l.protein + d.protein + s.protein == targets.protein
      && b.carbs + l.carbs + d.carbs + s.carbs == targets.carbs
      && b.fats + l.fats + d.fats + s.fats == targets.fats
  {
  }

  /**
   * The portion considered for `food` when `spent` calories are already
   * allocated and the meal's calorie target is `mealCalories`: the smaller of
   * the quantity and what the remaining calories buy, or of the quantity and
   * 0 for a food without positive calories. It never exceeds the quantity,
   * never overshoots the remaining budget, and is as large as those two
   * bounds allow.
   */
  function Portion(food: FoodItem, mealCalories: real, spent: real): real
  {
    var byBudget := if food.calories > 0.0 then (mealCalories - spent) / food.calories else 0.0;
    if byBudget < food.quantity then byBudget else food.quantity
  }

  lemma PortionBounds(food: FoodItem, mealCalories: real, spent: real)
    ensures var p := Portion(food, mealCalories, spent);
      && p <= food.quantity
      && (food.calories > 0.0 ==> food.calories * p <= mealCalories - spent)
      && (food.calories > 0.0 ==> p == food.quantity || food.calories * p == mealCalories - spent)
      && (p > 0.0 ==> food.calories > 0.0 && spent < mealCalories)
  {
  }

  /** The running totals after `portion` units of `food`. */
  function Consume(current: Nutrients, food: FoodItem, portion: real): Nutrients
  {
    Nutrients(current.calories + food.calories * portion,
              current.protein + food.protein * portion,
              current.carbs + food.carbs * portion,
              current.fats + food.fats * portion)
  }

  /** A meal's entries so far and the day's running totals. */
  datatype Fill = Fill(entries: seq<Entry>, current: Nutrients)

  /** The inner loop's body for one food. */
  function Take(fill: Fill, food: FoodItem, mealCalories: real): Fill
  {
    if food.quantity <= 0.0 then fill
    else
      var p := Portion(food, mealCalories, fill.current.calories);
      if p > 0.0 then Fill(fill.entries + [Entry(food.name, p)], Consume(fill.current, food, p))
      else fill
  }

  /** `entry` may stand for `food`: same name, a positive portion no larger than its quantity, positive calories. */
  predicate Admissible(entry: Entry, food: FoodItem)
  {
    entry.food == food.name && 0.0 < entry.portion <= food.quantity && food.calories > 0.0
  }

  /**
   * The entries are drawn from distinct positions of the food list, in the
   * list's order, each admissible for the food at its position.
   */
  predicate Drawn(entries: seq<Entry>, foods: seq<FoodItem>)
    decreases |foods|
  {
    if entries == [] then true
    else if foods == [] then false
    else
      || (Admissible(entries[|entries| - 1], foods[|foods| - 1])
          && Drawn(entries[..|entries| - 1], foods[..|foods| - 1]))
      || Drawn(entries, foods[..|foods| - 1])
  }

  /** One meal over the food list, starting from the running totals `current`. */
  function FillMeal(current: Nutrients, foods: seq<FoodItem>, mealCalories: real): Fill
    decreases |foods|
  {
    if foods == [] then Fill([], current)
    else Take(FillMeal(current, foods[..|foods| - 1], mealCalories), foods[|foods| - 1], mealCalories)
  }

  /**
   * One food step: the running calories do not decrease; either nothing
   * changes or one admissible entry is appended and the calories stay within
   * the meal's target; a used-up budget changes nothing.
   */
  lemma TakeStep(fill: Fill, foods: seq<FoodItem>, food: FoodItem, mealCalories: real)
    requires Drawn(fill.entries, foods)
    ensures var after := Take(fill, food, mealCalories);
      && fill.current.calories <= after.current.calories
      && (after == fill || (|after.entries| == |fill.entries| + 1 && after.current.calories <= mealCalories))
      && (fill.current.calories >= mealCalories ==> after == fill)
      && Drawn(after.entries, foods + [food])
  {
    var after := Take(fill, food, mealCalories);
    var all := foods + [food];
    assert all[..|all| - 1] == foods && all[|all| - 1] == food;
    PortionBounds(food, mealCalories, fill.current.calories);
    if after != fill {
      var p := Portion(food, mealCalories, fill.current.calories);
      PositiveProduct(food.calories, p);
      assert after.entries[..|after.entries| - 1] == fill.entries;
      assert Admissible(after.entries[|after.entries| - 1], food);
    } else if fill.entries != [] {
      assert Drawn(fill.entries, all[..|all| - 1]);
    }
  }

  /**
   * A usable food met while the meal's budget is not yet spent is always
   * taken: its portion is positive and it is appended and counted.
   */
  lemma TakeUsable(fill: Fill, food: FoodItem, mealCalories: real)
    requires food.quantity > 0.0 && food.calories > 0.0 && fill.current.calories < mealCalories
    ensures var p := Portion(food, mealCalories, fill.current.calories);
      && p > 0.0
      && Take(fill, food, mealCalories) == Fill(fill.entries + [Entry(food.name, p)], Consume(fill.current, food, p))
  {
    assert (mealCalories - fill.current.calories) / food.calories > 0.0;
  }

  /** A food that can contribute to a meal: some quantity and positive calories. */
  predicate Usable(food: FoodItem)
  {
    food.quantity > 0.0 && food.calories > 0.0
  }

  /** Every usable food of the list with its whole quantity, in list order. */
  function FullPortions(foods: seq<FoodItem>): seq<Entry>
    decreases |foods|
  {
    if foods == [] then []
    else
      var last := foods[|foods| - 1];
      FullPortions(foods[..|foods| - 1]) + (if Usable(last) then [Entry(last.name, last.quantity)] else [])
  }

  /** One food step never lowers the running calories. */
  lemma TakeNeverLowers(fill: Fill, food: FoodItem, mealCalories: real)
    ensures fill.current.calories <= Take(fill, food, mealCalories).current.calories
  {
    var p := Portion(food, mealCalories, fill.current.calories);
    PortionBounds(food, mealCalories, fill.current.calories);
    if food.quantity > 0.0 && p > 0.0 {
      PositiveProduct(food.calories, p);
    }
  }

  /** A usable food that leaves the running calories below the budget was taken whole. */
  lemma TakeWhole(fill: Fill, food: FoodItem, mealCalories: real)
    requires Usable(food) && fill.current.calories < mealCalories
    requires Take(fill, food, mealCalories).current.calories < mealCalories
    ensures Take(fill, food, mealCalories).entries == fill.entries + [Entry(food.name, food.quantity)]
  {
    TakeUsable(fill, food, mealCalories);
    PortionBounds(food, mealCalories, fill.current.calories);
  }

  /** A food that is not usable changes nothing. */
  lemma TakeUnusable(fill: Fill, food: FoodItem, mealCalories: real)
    requires !Usable(food)
    ensures Take(fill, food, mealCalories) == fill
  {
  }

  /**
   * A meal that ends below its calorie budget took every usable food of the
   * list with its whole quantity, and nothing else: the greedy fill stops
   * short of the budget only when the foods run out.
   */
  lemma {:induction false} FillMealUnderBudget(current: Nutrients, foods: seq<FoodItem>, mealCalories: real)
    requires FillMeal(current, foods, mealCalories).current.calories < mealCalories
    ensures FillMeal(current, foods, mealCalories).entries == FullPortions(foods)
    decreases |foods|
  {
    if foods != [] {
      var init, last := foods[..|foods| - 1], foods[|foods| - 1];
      var before := FillMeal(current, init, mealCalories);
      assert FillMeal(current, foods, mealCalories) == Take(before, last, mealCalories);
      TakeNeverLowers(before, last, mealCalories);
      FillMealUnderBudget(current, init, mealCalories);
      if Usable(last) {
        TakeWhole(before, last, mealCalories);
      } else {
        TakeUnusable(before, last, mealCalories);
      }
    }
  }

  lemma PositiveProduct(a: real, b: real)
    requires a > 0.0 && b > 0.0
    ensures a * b > 0.0
  {
  }

  /**
   * A meal never lowers the running calories; as long as nothing is assigned
   * nothing changes; once something is assigned the running calories are
   * within the meal's target (and since this holds for every prefix of the
   * list, after every single assignment); a meal whose budget is already used
   * up gets nothing; and the entries are drawn in list order from usable
   * foods.
   */
  lemma {:induction false} FillMealProperties(current: Nutrients, foods: seq<FoodItem>, mealCalories: real)
    ensures var r := FillMeal(current, foods, mealCalories);
      && current.calories <= r.current.calories
      && (r.entries == [] ==> r.current == current)
      && (r.entries != [] ==> r.current.calories <= mealCalories)
      && (current.calories >= mealCalories ==> r.entries == [])
      && Drawn(r.entries, foods)
    decreases |foods|
  {
    if foods != [] {
      var init, last := foods[..|foods| - 1], foods[|foods| - 1];
      FillMealProperties(current, init, mealCalories);
      TakeStep(FillMeal(current, init, mealCalories), init, last, mealCalories);
      assert init + [last] == foods;
    }
  }

  /** The plan after the first `k` meals, with the running totals. */
  datatype Progress = Progress(plan: Plan, current: Nutrients)

  /** The outer loop over the first `k` meals. */
  function AllocateMeals(foods: seq<FoodItem>, targets: Nutrients, k: nat): Progress
    requires k <= |Meals|
  {
    if k == 0 then Progress(EmptyPlan, NoNutrients)
    else
      var before := AllocateMeals(foods, targets, k - 1);
      var meal := Meals[k - 1];
      var fill := FillMeal(before.current, foods, MealTargets(targets, meal).calories);
      Progress(before.plan[meal := fill.entries], fill.current)
  }

  /**
   * The plan always has the four meals; meals not reached yet are empty;
   * every meal's entries are drawn from the full food list (quantities are
   * never used up); the running calories stay between 0 and the largest meal
   * share (35%) of a non-negative target, because they are never reset
   * between meals; and a non-positive target assigns nothing at all.
   */
  lemma {:induction false} AllocateMealsProperties(foods: seq<FoodItem>, targets: Nutrients, k: nat)
    requires k <= |Meals|
    ensures var r := AllocateMeals(foods, targets, k);
      && r.plan.Keys == EmptyPlan.Keys
      && (forall i :: k <= i < |Meals| ==> r.plan[Meals[i]] == [])
      && (forall m :: m in r.plan ==> Drawn(r.plan[m], foods))
      && 0.0 <= r.current.calories
      && (targets.calories >= 0.0 ==> r.current.calories <= 0.35 * targets.calories)
      && (targets.calories <= 0.0 ==> r == Progress(EmptyPlan, NoNutrients))
  {
    if k > 0 {
      var before := AllocateMeals(foods, targets, k - 1);
      var meal := Meals[k - 1];
      var budget := MealTargets(targets, meal).calories;
      AllocateMealsProperties(foods, targets, k - 1);
      FillMealProperties(before.current, foods, budget);
      var fill := FillMeal(before.current, foods, budget);
      assert targets.calories >= 0.0 ==> budget <= 0.35 * targets.calories;
      assert targets.calories <= 0.0 ==> budget <= 0.0;
      if targets.calories <= 0.0 {
        assert fill.entries == [];
        assert before.plan[meal := []] == EmptyPlan;
      }
      forall i | k <= i < |Meals|
        ensures AllocateMeals(foods, targets, k).plan[Meals[i]] == []
      {
        assert Meals[i] != meal;
      }
    }
  }

  /** The outer loop's step: meal `k` fills its list from the running totals left by the meals before it. */
  lemma AllocateNextMeal(foods: seq<FoodItem>, targets: Nutrients, k: nat)
    requires k < |Meals|
    ensures var before := AllocateMeals(foods, targets, k);
      var fill := FillMeal(before.current, foods, MealTargets(targets, Meals[k]).calories);
      AllocateMeals(foods, targets, k + 1) == Progress(before.plan[Meals[k] := fill.entries], fill.current)
  {
  }

  /** The running calories never decrease from one meal to the next. */
  lemma {:induction false} RunningTotalMonotone(foods: seq<FoodItem>, targets: Nutrients, k1: nat, k2: nat)
    requires k1 <= k2 <= |Meals|
    ensures AllocateMeals(foods, targets, k1).current.calories <= AllocateMeals(foods, targets, k2).current.calories
    decreases k2
  {
    if k1 < k2 {
      RunningTotalMonotone(foods, targets, k1, k2 - 1);
      var before := AllocateMeals(foods, targets, k2 - 1);
      FillMealProperties(before.current, foods, MealTargets(targets, Meals[k2 - 1]).calories);
    }
  }

  /**
   * Python's `any(current[n] < targets[n] * 0.9 for n in current)`: a
   * nutrient counts as short when it is below 90% of its target. Reaching
   * every non-negative target is never short, and with nothing achieved the
   * plan is short exactly when some target is positive.
   */
  function IsDeficit(achieved: Nutrients, targets: Nutrients): (short: bool)
    ensures && 0.0 <= targets.calories <= achieved.calories && 0.0 <= targets.protein <= achieved.protein
            && 0.0 <= targets.carbs <= achieved.carbs && 0.0 <= targets.fats <= achieved.fats
            ==> !short
    ensures achieved == NoNutrients ==>
              (short <==> targets.calories > 0.0 || targets.protein > 0.0 || targets.carbs > 0.0 || targets.fats > 0.0)
  {
    || achieved.calories < targets.calories * 0.9
    || achieved.protein < targets.protein * 0.9
    || achieved.carbs < targets.carbs * 0.9
    || achieved.fats < targets.fats * 0.9
  }

  /** What `suggest_diet` returns, as a function of the profile and the food list. */
  function DietPlan(user: UserProfile, foods: seq<FoodItem>): (r: DietResult)
    ensures r.targets == CalculateCalories(user)
    ensures r.plan.Keys == {Breakfast, Lunch, Dinner, Snacks}
    ensures 0.0 <= r.achieved.calories
    ensures r.isDeficit <==> IsDeficit(r.achieved, r.targets)
  {
    var targets := CalculateCalories(user);
    AllocateMealsProperties(foods, targets, |Meals|);
    var done := AllocateMeals(foods, targets, |Meals|);
    DietResult(done.plan, targets, done.current, IsDeficit(done.current, targets))
  }

  /**
   * Builds the plan meal by meal and food by food, appending to the meal's
   * list and adding to the day's running totals, then flags a deficit. The
   * food list is a value and is left as it was.
   */
  method SuggestDiet(user: UserProfile, foodItems: seq<FoodItem>) returns (result: DietResult)
    ensures result == DietPlan(user, foodItems)
  {
    var targets := CalculateCalories(user);
    var dietPlan := EmptyPlan;
    var current := Nutrients(0.0, 0.0, 0.0, 0.0);
    for i := 0 to |Meals|
      invariant Progress(dietPlan, current) == AllocateMeals(foodItems, targets, i)
    {
      AllocateMealsProperties(foodItems, targets, i);
      var meal := Meals[i];
      var mealTargets := MealTargets(targets, meal);
      ghost var start := current;
      var mealPlan := dietPlan[meal];
      for j := 0 to |foodItems|
        invariant Fill(mealPlan, current) == FillMeal(start, foodItems[..j], mealTargets.calories)
      {
        var food := foodItems[j];
        ghost var fillBefore := Fill(mealPlan, current);
        if food.quantity > 0.0 {
          var byBudget := if food.calories > 0.0 then (mealTargets.calories - current.calories) / food.calories else 0.0;
          var portion := if byBudget < food.quantity then byBudget else food.quantity;
          ghost var p := Portion(food, mealTargets.calories, current.calories);
          assert portion == p;
          if portion > 0.0 {
            mealPlan := mealPlan + [Entry(food.name, portion)];
            current := Consume(current, food, portion);
          }
          assert Fill(mealPlan, current) == Take(fillBefore, food, mealTargets.calories);
        }
        assert foodItems[..j + 1][..j] == foodItems[..j];
      }
      assert foodItems[..|foodItems|] == foodItems;
      assert Fill(mealPlan, current) == FillMeal(start, foodItems, mealTargets.calories);
      AllocateNextMeal(foodItems, targets, i);
      dietPlan := dietPlan[meal := mealPlan];
    }
    var isDeficit := || current.calories < targets.calories * 0.9
                     || current.protein < targets.protein * 0.9
                     || current.carbs < targets.carbs * 0.9
                     || current.fats < targets.fats * 0.9;
    result := DietResult(dietPlan, targets, current, isDeficit);
  }

  /** Every entry of a drawn list is admissible for some food of the list. */
  lemma {:induction false} DrawnAdmissible(entries: seq<Entry>, foods: seq<FoodItem>, k: nat)
    requires Drawn(entries, foods) && k < |entries|
    ensures exists j :: 0 <= j < |foods| && Admissible(entries[k], foods[j])
    decreases |foods|
  {
    var init := foods[..|foods| - 1];
    var front := entries[..|entries| - 1];
    if Admissible(entries[|entries| - 1], foods[|foods| - 1]) && Drawn(front, init) {
      if k < |entries| - 1 {
        DrawnAdmissible(front, init, k);
        var j :| 0 <= j < |init| && Admissible(front[k], init[j]);
        assert foods[j] == init[j];
      } else {
        assert Admissible(entries[k], foods[|foods| - 1]);
      }
    } else {
      DrawnAdmissible(entries, init, k);
      var j :| 0 <= j < |init| && Admissible(entries[k], init[j]);
      assert foods[j] == init[j];
    }
  }

  /**
   * The plan has exactly the four meals, and every entry of every meal names
   * a food of the list that has positive calories, with a positive portion no
   * larger than that food's quantity.
   */
  lemma PlanEntriesAdmissible(user: UserProfile, foods: seq<FoodItem>)
    ensures var plan := DietPlan(user, foods).plan;
      && plan.Keys == {Breakfast, Lunch, Dinner, Snacks}
      && forall m, k :: m in plan && 0 <= k < |plan[m]| ==>
           exists j :: 0 <= j < |foods| && Admissible(plan[m][k], foods[j])
  {
    AllocateMealsProperties(foods, CalculateCalories(user), |Meals|);
    var plan := DietPlan(user, foods).plan;
    forall m, k | m in plan && 0 <= k < |plan[m]|
      ensures exists j :: 0 <= j < |foods| && Admissible(plan[m][k], foods[j])
    {
      DrawnAdmissible(plan[m], foods, k);
    }
  }

  /**
   * Because the running totals are never reset between meals, the calories
   * achieved over the whole day never exceed 35% of a non-negative target,
   * the largest meal share (lunch);
   * a target of zero or less gives an empty plan and nothing achieved.
   */
  lemma AchievedWithinLargestShare(user: UserProfile, foods: seq<FoodItem>)
    ensures var r, target := DietPlan(user, foods), CalculateCalories(user).calories;
      && (target >= 0.0 ==> 0.0 <= r.achieved.calories <= 0.35 * target)
      && (target <= 0.0 ==> r.plan == EmptyPlan && r.achieved == NoNutrients)
  {
    AllocateMealsProperties(foods, CalculateCalories(user), |Meals|);
  }

  /** With a positive calorie target the plan is always flagged as short, whatever the foods. */
  lemma AlwaysDeficit(user: UserProfile, foods: seq<FoodItem>)
    requires CalculateCalories(user).calories > 0.0
    ensures DietPlan(user, foods).isDeficit
  {
    AchievedWithinLargestShare(user, foods);
  }

  /**
   * With a calorie target of zero or less nothing is planned, the carb and
   * fat targets are not positive either, and the plan is flagged as short
   * exactly when the protein target is positive, that is when the weight is.
   */
  lemma NonPositiveTargetDeficit(user: UserProfile, foods: seq<FoodItem>)
    requires CalculateCalories(user).calories <= 0.0
    ensures DietPlan(user, foods).isDeficit <==> user.weight > 0.0
  {
    AchievedWithinLargestShare(user, foods);
    var t := CalculateCalories(user);
    match user.healthGoal
    case FatLoss =>
      assert t.carbs * 4.0 == t.calories * 0.4 && t.fats * 9.0 == t.calories * 0.25;
    case MuscleBuilding =>
      assert t.carbs * 4.0 == t.calories * 0.45 && t.fats * 9.0 == t.calories * 0.25;
    case Sedentary =>
      assert t.carbs * 4.0 == t.calories * 0.45 && t.fats * 9.0 == t.calories * 0.3;
  }

  lemma {:induction false} NoFoodsNoProgress(targets: Nutrients, k: nat)
    requires k <= |Meals|
    ensures AllocateMeals([], targets, k) == Progress(EmptyPlan, NoNutrients)
  {
    if k > 0 {
      NoFoodsNoProgress(targets, k - 1);
      assert EmptyPlan[Meals[k - 1] := []] == EmptyPlan;
    }
  }

  /**
   * An empty food list gives four empty meals and nothing achieved, and is
   * flagged as short exactly when some target is positive.
   */
  lemma EmptyFoodList(user: UserProfile)
    ensures var r, t := DietPlan(user, []), CalculateCalories(user);
      && r.plan == EmptyPlan
      && r.achieved == NoNutrients
      && (r.isDeficit <==> t.calories > 0.0 || t.protein > 0.0 || t.carbs > 0.0 || t.fats > 0.0)
  {
    NoFoodsNoProgress(CalculateCalories(user), |Meals|);
  }

  /**
   * One food, 1 kcal per unit and 300 units, against a 1000 kcal target:
   * breakfast takes 250 units, lunch only the 100 units left between its
   * 350 kcal share and the 250 kcal already counted, dinner and snacks get
   * nothing since their shares are below the running total, and the 350
   * units planned in all exceed the 300 available.
   */
  lemma CarryOverExample()
    ensures var rice := FoodItem("rice", 1.0, 0.0, 0.0, 0.0, 300.0);
      var r := AllocateMeals([rice], Nutrients(1000.0, 0.0, 0.0, 0.0), |Meals|);
      && r.plan == map[Breakfast := [Entry("rice", 250.0)], Lunch := [Entry("rice", 100.0)], Dinner := [], Snacks := []]
      && r.current.calories == 350.0
      && r.plan[Breakfast][0].portion + r.plan[Lunch][0].portion > rice.quantity
  {
    var rice := FoodItem("rice", 1.0, 0.0, 0.0, 0.0, 300.0);
    var foods, targets := [rice], Nutrients(1000.0, 0.0, 0.0, 0.0);
    assert foods[..0] == [];
    var zero, c250, c350 := NoNutrients, Nutrients(250.0, 0.0, 0.0, 0.0), Nutrients(350.0, 0.0, 0.0, 0.0);
    assert Portion(rice, 250.0, 0.0) == 250.0;
    assert FillMeal(zero, foods, 250.0) == Fill([Entry("rice", 250.0)], c250);
    var after1 := Progress(EmptyPlan[Breakfast := [Entry("rice", 250.0)]], c250);
    assert AllocateMeals(foods, targets, 1) == after1;
    assert Portion(rice, 350.0, 250.0) == 100.0;
    assert FillMeal(c250, foods, 350.0) == Fill([Entry("rice", 100.0)], c350);
    var after2 := Progress(after1.plan[Lunch := [Entry("rice", 100.0)]], c350);
    assert AllocateMeals(foods, targets, 2) == after2;
    assert FillMeal(c350, foods, 300.0) == Fill([], c350);
    var after3 := Progress(after2.plan[Dinner := []], c350);
    assert AllocateMeals(foods, targets, 3) == after3;
    assert FillMeal(c350, foods, 100.0) == Fill([], c350);
    assert AllocateMeals(foods, targets, 4) == Progress(after3.plan[Snacks := []], after2.current);
  }
}
