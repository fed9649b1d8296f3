/**
 * The user's health profile: body-mass index, its four-band classification,
 * goal-specific advice, and the numbered goal menu.
 */
module Profile {
  import opened Wrappers

  /** The three health goals, in declaration order. */
  datatype HealthGoal = FatLoss | Sedentary | MuscleBuilding

  /** `list(HealthGoal)`: the goals in the order the menu numbers them. */
  const GoalsInOrder: seq<HealthGoal> := [FatLoss, Sedentary, MuscleBuilding]

  /** Height in cm, weight in kg, age in whole years; nothing is validated. */
  datatype UserProfile = UserProfile(
    height: real,
    weight: real,
    age: int,
    gender: string,
    healthGoal: HealthGoal)

  /**
   * weight / (height / 100)^2. Python raises ZeroDivisionError for a zero
   * height, which is `None` here; every other height is accepted, and the
   * index is the unique number that, times the squared height in metres,
   * gives the weight.
   */
  function CalculateBmi(user: UserProfile): (r: Option<real>)
    ensures r.Some? <==> user.height != 0.0
    ensures r.Some? ==> r.value * ((user.height / 100.0) * (user.height / 100.0)) == user.weight
    ensures r.Some? && user.weight > 0.0 ==> r.value > 0.0
  {
    if user.height == 0.0 then None
    else
      var metres := user.height / 100.0;
      Some(user.weight / (metres * metres))
  }

  /** The four bands, from lightest to heaviest. */
  const Categories: seq<string> := ["Underweight", "Normal weight", "Overweight", "Obese"]

  /** Each band includes its lower boundary: 18.5, 25 and 30. */
  function BmiCategory(bmi: real): (c: string)
    ensures c in Categories
    ensures c == "Underweight" <==> bmi < 18.5
    ensures c == "Normal weight" <==> 18.5 <= bmi < 25.0
    ensures c == "Overweight" <==> 25.0 <= bmi < 30.0
    ensures c == "Obese" <==> 30.0 <= bmi
  {
    if bmi < 18.5 then "Underweight"
    else if bmi < 25.0 then "Normal weight"
    else if bmi < 30.0 then "Overweight"
    else "Obese"
  }

  /** Position of a band in `Categories`. */
  function Rank(c: string): nat
  {
    if c == Categories[0] then 0
    else if c == Categories[1] then 1
    else if c == Categories[2] then 2
    else 3
  }

  /** A larger index never falls in a lighter band. */
  lemma BmiCategoryMonotone(bmi1: real, bmi2: real)
    requires bmi1 <= bmi2
    ensures Rank(BmiCategory(bmi1)) <= Rank(BmiCategory(bmi2))
  {
  }

  /** Advice for the goal; muscle building is the fall-through case. */
  function GoalRecommendation(goal: HealthGoal): (advice: string)
    ensures advice == "Focus on caloric deficit and regular cardio exercise" <==> goal == FatLoss
    ensures advice == "Try to incorporate more movement and regular stretching" <==> goal == Sedentary
    ensures advice == "Ensure adequate protein intake and progressive resistance training" <==> goal == MuscleBuilding
  {
    if goal == FatLoss then "Focus on caloric deficit and regular cardio exercise"
    else if goal == Sedentary then "Try to incorporate more movement and regular stretching"
    else
      assert goal == MuscleBuilding;
      "Ensure adequate protein intake and progressive resistance training"
  }

  /** Distinct goals get distinct advice. */
  lemma GoalRecommendationInjective(g1: HealthGoal, g2: HealthGoal)
    requires g1 != g2
    ensures GoalRecommendation(g1) != GoalRecommendation(g2)
  {
  }

  /**
   * The analysis shown to the user: the index (before its display
   * formatting), its band, and the goal advice. A zero height propagates
   * the division error.
   */
  datatype Recommendations = Recommendations(bmi: real, category: string, goalSpecific: string)

  function GetRecommendations(user: UserProfile): (r: Option<Recommendations>)
    ensures r.Some? <==> user.height != 0.0
    ensures r.Some? ==>
      && CalculateBmi(user) == Some(r.value.bmi)
      && r.value.category == BmiCategory(r.value.bmi)
      && r.value.goalSpecific == GoalRecommendation(user.healthGoal)
  {
    match CalculateBmi(user)
    case None => None
    case Some(bmi) => Some(Recommendations(bmi, BmiCategory(bmi), GoalRecommendation(user.healthGoal)))
  }

  /**
   * The menu choice: accepted exactly when it is 1, 2 or 3, and then the
   * goal at that position of the declaration order; any other integer makes the
   * prompt ask again, which is `None` here.
   */
  function GoalOfChoice(choice: int): (r: Option<HealthGoal>)
    ensures r.Some? <==> 1 <= choice <= 3
    ensures choice == 1 ==> r == Some(FatLoss)
    ensures choice == 2 ==> r == Some(Sedentary)
    ensures choice == 3 ==> r == Some(MuscleBuilding)
  {
    if 1 <= choice <= 3 then Some(GoalsInOrder[choice - 1]) else None
  }
}
