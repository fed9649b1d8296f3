/**
 * The table-driven food reader: every line is stripped and lower-cased and
 * looked up in a fixed three-food table; a known food becomes an item with
 * the table's nutrients and a quantity of 100 g, anything else is dropped.
 */
module NutriBreak {
  import opened Wrappers
  import opened Strings
  import opened Diet

  /** Nutrients per 100 g, keyed by lower-case food name. */
  const NutritionDb: map<string, Nutrients> := map[
    "rice" := Nutrients(130.0, 2.7, 28.0, 0.3),
    "chicken" := Nutrients(165.0, 31.0, 0.0, 3.6),
    "egg" := Nutrients(70.0, 6.0, 0.6, 5.0)]

  /** Every item gets this quantity, in grams. */
  const DefaultQuantity: real := 100.0

  /** The food name a line stands for: the line stripped and lower-cased. */
  function FoodName(line: string): string
  {
    Lower(Strip(line))
  }

  /**
   * The item for one line: there is one exactly when the line's food name is
   * a key of the table, and then it carries that name, the table's nutrients
   * for it and the default quantity.
   */
  function LookupLine(line: string): (r: Option<FoodItem>)
    ensures r.Some? <==> FoodName(line) in NutritionDb
    ensures r.Some? ==>
      && r.value.name == FoodName(line)
      && NutritionDb[r.value.name] == Nutrients(r.value.calories, r.value.protein, r.value.carbs, r.value.fats)
      && r.value.quantity == DefaultQuantity
  {
    var foodName := FoodName(line);
    if foodName in NutritionDb then
      var nutrients := NutritionDb[foodName];
      Some(FoodItem(foodName, nutrients.calories, nutrients.protein, nutrients.carbs, nutrients.fats, DefaultQuantity))
    else None
  }

  /** The items of a text: one per known line, in line order, so never more than there are lines. */
  function KnownItems(text: string): (items: seq<FoodItem>)
    ensures |items| <= CountIn(text, {'\n'}) + 1
  {
    SplitCount(text, {'\n'});
    FilterMap(Split(text, {'\n'}), LookupLine)
  }

  /**
   * Reads the text line by line, appending an item for every line whose food
   * name is in the table.
   */
  method ParseFoodItems(text: string) returns (foodItems: seq<FoodItem>)
    ensures foodItems == KnownItems(text)
  {
    foodItems := [];
    var lines := Split(text, {'\n'});
    for i := 0 to |lines|
      invariant foodItems == FilterMap(lines[..i], LookupLine)
    {
      var foodName := Lower(Strip(lines[i]));
      ghost var before := foodItems;
      if foodName in NutritionDb {
        var nutrients := NutritionDb[foodName];
        foodItems := foodItems + [FoodItem(foodName, nutrients.calories, nutrients.protein,
                                           nutrients.carbs, nutrients.fats, 100.0)];
      }
      assert lines[..i + 1] == lines[..i] + [lines[i]];
      FilterMapSnoc(lines[..i], lines[i], LookupLine);
    }
    assert lines[..|lines|] == lines;
  }

  /**
   * Every item comes from a line whose stripped, lower-cased text is its
   * name, that name is a key of the table, the nutrient fields are the
   * table's entry unchanged and the quantity is 100.
   */
  lemma KnownItemSound(text: string, k: nat)
    requires k < |KnownItems(text)|
    ensures var item := KnownItems(text)[k];
      && item.name in NutritionDb
      && NutritionDb[item.name] == Nutrients(item.calories, item.protein, item.carbs, item.fats)
      && item.quantity == 100.0
      && exists i :: 0 <= i < |Split(text, {'\n'})| && FoodName(Split(text, {'\n'})[i]) == item.name
  {
    var lines := Split(text, {'\n'});
    FilterMapSound(lines, LookupLine, k);
    var i :| 0 <= i < |lines| && LookupLine(lines[i]) == Some(KnownItems(text)[k]);
  }

  /**
   * A line whose stripped, lower-cased text is in the table contributes its
   * item; any other line contributes nothing, so the text without it reads
   * the same.
   */
  lemma KnownLineKept(text: string, i: nat)
    requires i < |Split(text, {'\n'})|
    ensures var lines := Split(text, {'\n'});
      && (FoodName(lines[i]) in NutritionDb ==> LookupLine(lines[i]).value in KnownItems(text))
      && (FoodName(lines[i]) !in NutritionDb ==> FilterMap(lines[..i] + lines[i + 1..], LookupLine) == KnownItems(text))
  {
    var lines := Split(text, {'\n'});
    if FoodName(lines[i]) in NutritionDb {
      FilterMapComplete(lines, LookupLine, i);
    } else {
      UnknownLineDropped(lines, i);
    }
  }

  /** Removing a line that is not a food leaves the items unchanged. */
  lemma UnknownLineDropped(lines: seq<string>, i: nat)
    requires i < |lines| && FoodName(lines[i]) !in NutritionDb
    ensures FilterMap(lines[..i] + lines[i + 1..], LookupLine) == FilterMap(lines, LookupLine)
  {
    FilterMapSkip(lines, LookupLine, i);
  }

  /**
   * Reading two texts joined by a line break gives the items of the first
   * followed by those of the second: order follows the lines, and a repeated
   * line gives a repeated item.
   */
  lemma KnownItemsConcat(a: string, b: string)
    ensures KnownItems(a + "\n" + b) == KnownItems(a) + KnownItems(b)
  {
    SplitConcat(a, '\n', b, {'\n'});
    FilterMapAppend(Split(a, {'\n'}), Split(b, {'\n'}), LookupLine);
  }

  /** Empty text is one empty line, which is not a food. */
  lemma EmptyTextNoItems()
    ensures KnownItems("") == []
  {
    assert Split("", {'\n'}) == [""];
    assert FoodName("") == "";
  }

  /** Case and surrounding whitespace do not matter: " Egg\r" reads as egg. */
  lemma NormalisedLookup()
    ensures LookupLine(" Egg\r") == Some(FoodItem("egg", 70.0, 6.0, 0.6, 5.0, 100.0))
  {
    assert TrimStart(" Egg\r") == "Egg\r";
    assert TrimEnd("Egg\r") == "Egg";
    assert Lower("Egg") == "egg";
  }
}
