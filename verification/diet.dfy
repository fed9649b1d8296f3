/**
 * The food record, the daily nutrient target (Mifflin-St Jeor base rate
 * scaled by the health goal) and the reader of comma-separated food lines.
 */
module Diet {
  import opened Wrappers
  import opened Strings
  import opened Profile

  /** A food and how much of it is available; every field is taken as given. */
  datatype FoodItem = FoodItem(
    name: string,
    calories: real,
    protein: real,
    carbs: real,
    fats: real,
    quantity: real)

  /** A value per nutrient: the target, or the running total achieved by a plan. */
  datatype Nutrients = Nutrients(calories: real, protein: real, carbs: real, fats: real)

  /** Energy densities that turn a calorie share into grams. */
  const CarbKcalPerGram: real := 4.0
  const FatKcalPerGram: real := 9.0

  /** The goal table: calorie factor, protein per kg, and the calorie shares of carbs and fats. */
  function CalorieFactor(goal: HealthGoal): real
  {
    match goal
    case FatLoss => 0.85
    case MuscleBuilding => 1.15
    case Sedentary => 1.0
  }

  function ProteinPerKg(goal: HealthGoal): real
  {
    match goal
    case FatLoss => 2.2
    case MuscleBuilding => 2.4
    case Sedentary => 1.8
  }

  function CarbShare(goal: HealthGoal): real
  {
    match goal
    case FatLoss => 0.4
    case MuscleBuilding => 0.45
    case Sedentary => 0.45
  }

  function FatShare(goal: HealthGoal): real
  {
    match goal
    case FatLoss => 0.25
    case MuscleBuilding => 0.25
    case Sedentary => 0.3
  }

  /** The gender test ignores case: "male", "Male", "MALE" all select the male formula. */
  predicate IsMale(gender: string)
  {
    Lower(gender) == "male"
  }

  /**
   * Mifflin-St Jeor base metabolic rate: 10 kcal per kg, 6.25 per cm and
   * minus 5 per year of age, plus a constant that is 5 for men and -161
   * otherwise.
   */
  function Bmr(user: UserProfile): real
  {
    if IsMale(user.gender) then 10.0 * user.weight + 6.25 * user.height - 5.0 * (user.age as real) + 5.0
    else 10.0 * user.weight + 6.25 * user.height - 5.0 * (user.age as real) - 161.0
  }

  /**
   * The daily target: the base rate scaled by the goal's calorie factor,
   * protein by body weight, and carb and fat grams that carry exactly the
   * goal's share of the calories at 4 and 9 kcal per gram.
   */
  function CalculateCalories(user: UserProfile): (t: Nutrients)
    ensures t.calories == Bmr(user) * CalorieFactor(user.healthGoal)
    ensures t.protein == user.weight * ProteinPerKg(user.healthGoal)
    ensures t.carbs * CarbKcalPerGram == t.calories * CarbShare(user.healthGoal)
    ensures t.fats * FatKcalPerGram == t.calories * FatShare(user.healthGoal)
  {
    var bmr := Bmr(user);
    if user.healthGoal == FatLoss then
      var calories := bmr * 0.85;
      Nutrients(calories, user.weight * 2.2, calories * 0.4 / 4.0, calories * 0.25 / 9.0)
    else if user.healthGoal == MuscleBuilding then
      var calories := bmr * 1.15;
      Nutrients(calories, user.weight * 2.4, calories * 0.45 / 4.0, calories * 0.25 / 9.0)
    else
      var calories := bmr;
      Nutrients(calories, user.weight * 1.8, calories * 0.45 / 4.0, calories * 0.3 / 9.0)
  }

  /** At equal weight, height and age, the male formula is exactly 166 kcal above the other one. */
  lemma MaleBmrOffset(male: UserProfile, other: UserProfile)
    requires IsMale(male.gender) && !IsMale(other.gender)
    requires male.weight == other.weight && male.height == other.height && male.age == other.age
    ensures Bmr(male) == Bmr(other) + 166.0
  {
  }

  /** The gender test does not depend on case: lower-casing the text first changes nothing. */
  lemma MaleIgnoresCase(gender: string)
    ensures IsMale(gender) <==> IsMale(Lower(gender))
  {
    LowerIdempotent(gender);
  }

  /** "male" in any capitals selects the male formula; other texts do not. */
  lemma MaleSpellings()
    ensures IsMale("male") && IsMale("Male") && IsMale("MALE")
    ensures !IsMale("female") && !IsMale("m")
  {
    assert Lower("male") == "male";
    assert Lower("Male") == "male";
    assert Lower("MALE") == "male";
    assert |Lower("female")| == 6;
    assert |Lower("m")| == 1;
  }

  /**
   * Carbs and fats together carry 65% (fat loss), 70% (muscle building) or
   * 75% (sedentary) of the calories, so never more than the calories when
   * those are not negative.
   */
  lemma MacroEnergy(user: UserProfile)
    ensures var t := CalculateCalories(user);
      && t.carbs * CarbKcalPerGram + t.fats * FatKcalPerGram
         == t.calories * (if user.healthGoal == FatLoss then 0.65
                          else if user.healthGoal == MuscleBuilding then 0.7 else 0.75)
      && (t.calories >= 0.0 ==> t.carbs * CarbKcalPerGram + t.fats * FatKcalPerGram <= t.calories)
  {
    var t := CalculateCalories(user);
    var shares := CarbShare(user.healthGoal) + FatShare(user.healthGoal);
    assert t.carbs * CarbKcalPerGram + t.fats * FatKcalPerGram == t.calories * shares;
  }

  /**
   * For one person with a non-negative base rate, fat loss asks for no more
   * calories than the sedentary target, and that for no more than muscle
   * building.
   */
  lemma CaloriesOrderedByGoal(user: UserProfile)
    requires Bmr(user) >= 0.0
    ensures CalculateCalories(user.(healthGoal := FatLoss)).calories
            <= CalculateCalories(user.(healthGoal := Sedentary)).calories
            <= CalculateCalories(user.(healthGoal := MuscleBuilding)).calories
  {
    assert Bmr(user.(healthGoal := FatLoss)) == Bmr(user);
    assert Bmr(user.(healthGoal := Sedentary)) == Bmr(user);
    assert Bmr(user.(healthGoal := MuscleBuilding)) == Bmr(user);
  }

  /** 170 cm, 70 kg, 30 years, male, sedentary: 1617.5 kcal, 126 g protein. */
  lemma SedentaryMaleExample()
    ensures var t := CalculateCalories(UserProfile(170.0, 70.0, 30, "male", Sedentary));
      t == Nutrients(1617.5, 126.0, 181.96875, 485.25 / 9.0)
  {
    assert Lower("male") == "male";
  }

  /** The fields of a line: stripped, then split at every comma. */
  function Fields(line: string): seq<string>
  {
    Split(Strip(line), {','})
  }

  /**
   * One line of food text: accepted exactly when it has six fields and the
   * five numeric ones all parse; then the name is the stripped first field
   * and the numbers are the parsed fields in order. Python's `float` is the
   * parameter `parseFloat`.
   */
  function ParseLine(parseFloat: string -> Option<real>, line: string): (r: Option<FoodItem>)
    ensures r.Some? <==> |Fields(line)| == 6 && forall k :: 1 <= k < 6 ==> parseFloat(Fields(line)[k]).Some?
    ensures r.Some? ==> var f := Fields(line);
      r.value == FoodItem(Strip(f[0]), parseFloat(f[1]).value, parseFloat(f[2]).value,
                          parseFloat(f[3]).value, parseFloat(f[4]).value, parseFloat(f[5]).value)
  {
    var fields := Fields(line);
    if |fields| != 6 then None
    else
      match (parseFloat(fields[1]), parseFloat(fields[2]), parseFloat(fields[3]),
             parseFloat(fields[4]), parseFloat(fields[5]))
      case (Some(cals), Some(prot), Some(carbs), Some(fats), Some(qty)) =>
        Some(FoodItem(Strip(fields[0]), cals, prot, carbs, fats, qty))
      case _ => None
  }

  /** A line whose comma count is not five is skipped, whatever else it holds. */
  lemma CommaCountDecides(parseFloat: string -> Option<real>, line: string)
    requires CountIn(line, {','}) != 5
    ensures ParseLine(parseFloat, line) == None
  {
    StripKeepsCount(line, {','});
    SplitCount(Strip(line), {','});
  }

  function LineParser(parseFloat: string -> Option<real>): string -> Option<FoodItem>
  {
    line => ParseLine(parseFloat, line)
  }

  /** The items of a list of lines: the parsed ones, in line order. */
  function ParsedItems(parseFloat: string -> Option<real>, lines: seq<string>): seq<FoodItem>
  {
    FilterMap(lines, LineParser(parseFloat))
  }

  /**
   * Reads food text line by line, appending an item for every line that
   * parses and skipping every other line without error.
   */
  method ParseFoodItems(text: string, parseFloat: string -> Option<real>) returns (foodItems: seq<FoodItem>)
    ensures foodItems == ParsedItems(parseFloat, Split(text, {'\n'}))
    ensures |foodItems| <= |Split(text, {'\n'})|
  {
    foodItems := [];
    var lines := Split(text, {'\n'});
    for i := 0 to |lines|
      invariant foodItems == ParsedItems(parseFloat, lines[..i])
    {
      var item := ParseLine(parseFloat, lines[i]);
      ghost var before := foodItems;
      if item.Some? {
        foodItems := foodItems + [item.value];
      }
      assert LineParser(parseFloat)(lines[i]) == item;
      assert lines[..i + 1] == lines[..i] + [lines[i]];
      FilterMapSnoc(lines[..i], lines[i], LineParser(parseFloat));
      assert foodItems == before + (if item.Some? then [item.value] else []);
    }
    assert lines[..|lines|] == lines;
  }

  /**
   * Every item read comes from a line of six fields; its name is that line's
   * stripped first field and its quantity the parse of the sixth.
   */
  lemma ParsedItemSound(parseFloat: string -> Option<real>, lines: seq<string>, k: nat)
    requires k < |ParsedItems(parseFloat, lines)|
    ensures exists i ::
              && 0 <= i < |lines| && |Fields(lines[i])| == 6
              && ParsedItems(parseFloat, lines)[k].name == Strip(Fields(lines[i])[0])
              && parseFloat(Fields(lines[i])[5]) == Some(ParsedItems(parseFloat, lines)[k].quantity)
  {
    FilterMapSound(lines, LineParser(parseFloat), k);
    var i :| 0 <= i < |lines| && LineParser(parseFloat)(lines[i]) == Some(ParsedItems(parseFloat, lines)[k]);
    assert ParseLine(parseFloat, lines[i]).Some?;
  }

  /**
   * Two texts joined by a line break read as the items of the first followed
   * by those of the second: order follows the lines, and a repeated line
   * gives a repeated item.
   */
  lemma ParsedItemsConcat(parseFloat: string -> Option<real>, a: string, b: string)
    ensures ParsedItems(parseFloat, Split(a + "\n" + b, {'\n'}))
            == ParsedItems(parseFloat, Split(a, {'\n'})) + ParsedItems(parseFloat, Split(b, {'\n'}))
  {
    SplitConcat(a, '\n', b, {'\n'});
    FilterMapAppend(Split(a, {'\n'}), Split(b, {'\n'}), LineParser(parseFloat));
  }
}
