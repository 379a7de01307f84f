/** The nutrition target calculator of the user repository: Harris-Benedict
    basal metabolic rate, an activity multiplier, a goal adjustment and the
    protein / fat / carbohydrate split, every conversion truncating. The
    profile table is a map keyed by the profile id. */
module Nutrition {
  import opened Common
  import opened Entities

  /** The single gender test of the calculator. */
  predicate IsFemale(gender: string)
  {
    EqualsIgnoreCase(gender, "female")
  }

  function FemaleBmr(weight: real, height: real, age: int): real
  {
    655.0 + 9.6 * weight + 1.8 * height - 4.7 * age as real
  }

  function MaleBmr(weight: real, height: real, age: int): real
  {
    66.0 + 13.7 * weight + 5.0 * height - 6.8 * age as real
  }

  /** Harris-Benedict BMR as the source computes it. */
  function Bmr(gender: string, weight: real, height: real, age: int): real
  {
    if IsFemale(gender) then FemaleBmr(weight, height, age) else MaleBmr(weight, height, age)
  }

  /** Activity level 1..5 selects a multiplier; anything else gets level 2's. */
  function ActivityMultiplier(level: int): (m: real)
    ensures 1.2 <= m <= 1.9
    ensures level == 1 ==> m == 1.2
    ensures level == 3 ==> m == 1.55
    ensures level == 4 ==> m == 1.725
    ensures level == 5 ==> m == 1.9
    ensures !(level == 1 || level == 3 || level == 4 || level == 5) ==> m == 1.375
  {
    match level
    case 1 => 1.2
    case 2 => 1.375
    case 3 => 1.55
    case 4 => 1.725
    case 5 => 1.9
    case _ => 1.375
  }

  /** The four daily targets written onto the profile. */
  datatype Targets = Targets(calories: int, protein: int, fat: int, carbs: int)

  function MaintenanceCalories(bmr: real, level: int): int
  {
    Trunc(bmr * ActivityMultiplier(level))
  }

  function GoalCalories(maintenance: int, goal: NutritionGoal): int
  {
    match goal
    case WeightLoss => Trunc(maintenance as real * 0.8)
    case WeightGain => Trunc(maintenance as real * 1.15)
    case MuscleGain => Trunc(maintenance as real * 1.1)
    case Maintenance => maintenance
  }

  function ProteinTarget(weight: real, goal: NutritionGoal): int
  {
    match goal
    case MuscleGain => Trunc(weight * 2.0)
    case WeightLoss => Trunc(weight * 1.8)
    case _ => Trunc(weight * 1.2)
  }

  function FatTarget(calories: int): int
  {
    Trunc(calories as real * 0.3 / 9.0)
  }

  /** What is left after protein (4 kcal/g) and fat (9 kcal/g), computed in
      `Int` arithmetic that wraps around, divided by 4 with truncating `Int`
      division and never clamped. */
  function CarbTarget(calories: int, protein: int, fat: int): int
  {
    Div(Wrap32(calories - protein * 4 - fat * 9), 4)
  }

  function TargetsFromBmr(bmr: real, weight: real, goal: NutritionGoal, level: int): Targets
  {
    var calories := GoalCalories(MaintenanceCalories(bmr, level), goal);
    var protein := ProteinTarget(weight, goal);
    var fat := FatTarget(calories);
    Targets(calories, protein, fat, CarbTarget(calories, protein, fat))
  }

  function ComputeTargets(gender: string, weight: real, height: real, age: int,
                          goal: NutritionGoal, level: int): Targets
  {
    TargetsFromBmr(Bmr(gender, weight, height, age), weight, goal, level)
  }

  /** `createOrUpdateUserProfile`: the profile table after the save. */
  function CreateOrUpdateUserProfile(table: map<string, UserProfile>, name: string, age: int,
                                     gender: string, weight: real, height: real,
                                     goal: NutritionGoal, level: int, now: int): (r: map<string, UserProfile>)
    ensures r.Keys == table.Keys + {UserProfileId}
    ensures forall k :: k in table && k != UserProfileId ==> r[k] == table[k]
    ensures var p := r[UserProfileId];
      p.id == UserProfileId && p.name == name && p.age == age && p.gender == gender &&
      p.weight == weight && p.height == height && p.goal == goal && p.activityLevel == level &&
      p.lastUpdated == now
    ensures var p := r[UserProfileId];
      Targets(p.dailyCalorieTarget, p.proteinTarget, p.fatTarget, p.carbTarget) ==
        ComputeTargets(gender, weight, height, age, goal, level)
  {
    var t := ComputeTargets(gender, weight, height, age, goal, level);
    table[UserProfileId := UserProfile(UserProfileId, name, age, gender, weight, height, goal, level,
                                       t.calories, t.protein, t.carbs, t.fat, now)]
  }

  // ---------------------------------------------------------------------
  // Properties of the calculator

  /** Only a case-insensitive "female" selects the 655 formula; the UI's
      "Femme" and every other string select the 66 formula. */
  lemma FemaleFormulaSelection(weight: real, height: real, age: int)
    ensures Bmr("female", weight, height, age) == FemaleBmr(weight, height, age)
    ensures Bmr("FeMaLe", weight, height, age) == FemaleBmr(weight, height, age)
    ensures Bmr("Femme", weight, height, age) == MaleBmr(weight, height, age)
    ensures Bmr("Homme", weight, height, age) == MaleBmr(weight, height, age)
    ensures Bmr("", weight, height, age) == MaleBmr(weight, height, age)
  {
    assert !IsFemale("Femme") by { assert "Femme"[4] == 'e' && "female"[4] == 'l'; }
    assert !IsFemale("Homme");
  }

  /** The maintenance figure truncates toward zero: it is never above a
      positive BMR x multiplier, less than one below it while the product
      fits an `Int`, and the largest `Int` beyond. */
  lemma MaintenanceTruncates(bmr: real, level: int)
    requires bmr >= 0.0
    ensures var m := MaintenanceCalories(bmr, level);
      var e := bmr * ActivityMultiplier(level);
      0 <= m && m as real <= e &&
      (e < (MaxInt + 1) as real ==> e < m as real + 1.0) &&
      ((MaxInt + 1) as real <= e ==> m == MaxInt)
  {
  }

  /** For a non-negative maintenance figure, the goals order the calorie
      targets: weight loss <= maintenance <= muscle gain <= weight gain. */
  lemma {:induction false} GoalOrdering(maintenance: int)
    requires 0 <= maintenance <= MaxInt
    ensures GoalCalories(maintenance, WeightLoss) <= GoalCalories(maintenance, Maintenance)
    ensures GoalCalories(maintenance, Maintenance) <= GoalCalories(maintenance, MuscleGain)
    ensures GoalCalories(maintenance, MuscleGain) <= GoalCalories(maintenance, WeightGain)
  {
    var m := maintenance as real;
    TruncMonotone(m * 0.8, m);
    TruncMonotone(m, m * 1.1);
    TruncMonotone(m * 1.1, m * 1.15);
    assert Trunc(m) == maintenance;
  }

  lemma TruncMonotone(x: real, y: real)
    requires 0.0 <= x <= y
    ensures Trunc(x) <= Trunc(y)
  {
  }

  /** Protein depends only on weight and goal: 2, 1.8 or 1.2 g per kg,
      truncated, and the largest `Int` for a weight beyond its range. */
  lemma ProteinPerKilogram(weight: real)
    requires weight >= 0.0
    ensures Approximates(ProteinTarget(weight, MuscleGain), 2.0 * weight)
    ensures Approximates(ProteinTarget(weight, WeightLoss), 1.8 * weight)
    ensures ProteinTarget(weight, Maintenance) == ProteinTarget(weight, WeightGain)
    ensures Approximates(ProteinTarget(weight, WeightGain), 1.2 * weight)
  {
  }

  /** `t` is what `toInt()` makes of the non-negative `x`. */
  predicate Approximates(t: int, x: real)
  {
    0 <= t <= MaxInt && t as real <= x &&
    (x < (MaxInt + 1) as real ==> x < t as real + 1.0) &&
    ((MaxInt + 1) as real <= x ==> t == MaxInt)
  }

  /** Fat gets at most 30% of a non-negative calorie target, and less than
      one gram below that share. */
  lemma {:induction false} FatShare(calories: int)
    requires 0 <= calories <= MaxInt
    ensures 0 <= 30 * FatTarget(calories) <= calories < 30 * FatTarget(calories) + 30
  {
    assert calories as real * 0.3 / 9.0 == calories as real / 30.0;
  }

  /** Carbohydrates take the remaining energy as an `Int` (the exact
      remainder when it fits, wrapped around otherwise), truncated toward
      zero: four times the target is within 4 kcal of it, on the side of
      zero. */
  lemma CarbRemainder(calories: int, protein: int, fat: int)
    ensures var exact := calories - 4 * protein - 9 * fat;
      var rest := Wrap32(exact);
      var c := CarbTarget(calories, protein, fat);
      (MinInt <= exact <= MaxInt ==> rest == exact) &&
      (rest >= 0 ==> 0 <= rest - 4 * c < 4) && (rest < 0 ==> -4 < rest - 4 * c <= 0)
  {
  }

  /** When the remainder fits an `Int` and is non-negative the three macros
      never exceed the calorie target; when it fits, the carbohydrate target
      is negative exactly when the protein and fat budgets overshoot it by
      4 kcal or more. */
  lemma {:induction false} EnergyBudget(t: Targets)
    requires t.carbs == CarbTarget(t.calories, t.protein, t.fat)
    ensures 0 <= t.calories - 4 * t.protein - 9 * t.fat <= MaxInt ==>
              4 * t.protein + 9 * t.fat + 4 * t.carbs <= t.calories
    ensures MinInt <= t.calories - 4 * t.protein - 9 * t.fat <= MaxInt ==>
              (t.carbs < 0 <==> t.calories - 4 * t.protein - 9 * t.fat <= -4)
  {
    CarbRemainder(t.calories, t.protein, t.fat);
  }

  /** Out of range, the remainder wraps around: a weight of 2^30 kg clamps
      protein and calories to the largest `Int`, and the overshoot of about
      seven billion kcal is stored as a positive carbohydrate target. */
  lemma {:induction false} HugeWeightWrapsCarbs()
    ensures ComputeTargets("Homme", 1073741824.0, 170.0, 30, MuscleGain, 1) ==
              Targets(MaxInt, MaxInt, 71582788, 375809639)
  {
    var bmr := Bmr("Homme", 1073741824.0, 170.0, 30);
    assert !IsFemale("Homme") by { assert "Homme"[0] == 'H'; }
    assert bmr >= 1073741824.0;
    assert MaintenanceCalories(bmr, 1) == MaxInt;
    assert GoalCalories(MaxInt, MuscleGain) == MaxInt;
    assert ProteinTarget(1073741824.0, MuscleGain) == MaxInt;
    assert FatTarget(MaxInt) == 71582788;
    assert Wrap32(MaxInt - MaxInt * 4 - 71582788 * 9) == 1503238559;
  }

  /** Inputs inside the app's own validation ranges (weight up to 300 kg,
      height from 100 cm, age up to 120) can give a negative carbohydrate
      target, which is stored as is. */
  lemma CarbTargetCanBeNegative()
    ensures ComputeTargets("female", 300.0, 100.0, 120, WeightLoss, 1) == Targets(3024, 540, 100, -9)
  {
    assert Bmr("female", 300.0, 100.0, 120) == 3151.0;
    assert MaintenanceCalories(3151.0, 1) == 3781;
    assert GoalCalories(3781, WeightLoss) == 3024;
    assert ProteinTarget(300.0, WeightLoss) == 540;
    assert FatTarget(3024) == 100;
  }

  // ---------------------------------------------------------------------
  // Finding: the profile screen offers "Homme", "Femme" and "Autre", so the
  // as-written test never selects the female formula for a user of the app.

  /** As written, the UI's "Femme" is computed with the male formula. */
  lemma FemmeGetsMaleBmr()
    ensures Bmr("Femme", 70.0, 175.0, 30) == 1696.0
    ensures FemaleBmr(70.0, 175.0, 30) == 1501.0
  {
    FemaleFormulaSelection(70.0, 175.0, 30);
  }

  /** Evidently intended: the French label selects the female formula too. */
  predicate IsFemaleIntended(gender: string)
  {
    EqualsIgnoreCase(gender, "female") || EqualsIgnoreCase(gender, "femme")
  }

  function BmrIntended(gender: string, weight: real, height: real, age: int): (r: real)
    ensures IsFemaleIntended(gender) ==> r == FemaleBmr(weight, height, age)
    ensures !IsFemaleIntended(gender) ==> r == Bmr(gender, weight, height, age)
  {
    if IsFemaleIntended(gender) then FemaleBmr(weight, height, age) else MaleBmr(weight, height, age)
  }

  /** With the intended test every label the profile screen offers selects
      the formula of its meaning, and English "female" keeps working. */
  lemma {:induction false} IntendedFormulaForUiLabels(weight: real, height: real, age: int)
    ensures BmrIntended("Femme", weight, height, age) == FemaleBmr(weight, height, age)
    ensures BmrIntended("femme", weight, height, age) == FemaleBmr(weight, height, age)
    ensures BmrIntended("Female", weight, height, age) == FemaleBmr(weight, height, age)
    ensures BmrIntended("Homme", weight, height, age) == MaleBmr(weight, height, age)
    ensures BmrIntended("Autre", weight, height, age) == MaleBmr(weight, height, age)
  {
    assert EqualsIgnoreCase("Femme", "femme");
    assert EqualsIgnoreCase("femme", "femme");
    assert EqualsIgnoreCase("Female", "female");
    assert !IsFemaleIntended("Homme") by { assert "Homme"[0] == 'H'; }
    assert !IsFemaleIntended("Autre") by { assert "Autre"[0] == 'A'; }
  }
}
