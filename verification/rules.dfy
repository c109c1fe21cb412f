/** The rule engine: `passes_profile_rules` (app.py:239-297). The source
    checks the rules in a fixed order and returns `False` at the first one
    that fails, logging which one it was. `Rejection` models that chain and
    returns the failing rule; `Violates` is an independent table of what each
    rule forbids, and the lemmas connect the two. */
module Rules {
  import opened Wrappers
  import opened Text
  import opened Catalog

  /** The rules, one per logged rejection message. */
  datatype Rule =
    | SeniorSugar          // age > 60, sugar > 10
    | YouthCalories        // age < 18, calories < 40
    | FemaleVitaminC       // "Female", vitaminC < 5
    | DiabetesSugar        // "Diabetes", sugar > 8
    | HypertensionCalories // "Hypertension", calories > 60
    | StrawberryAllergy    // "Allergies", name starts with "Strawberry"
    | KetoSugar            // "Keto", sugar > 6
    | VeganVitaminC        // "Vegan", vitaminC < 10
    | VegetarianVitaminC   // "Vegetarian", vitaminC < 5
    | WeightLossCalories   // "Weight Loss", calories > 55
    | MuscleGainShortfall  // "Muscle Gain", calories < 50 or vitaminC < 8

  /** What each rule forbids, stated on its own, without the order in which
      the source tests the rules. */
  predicate Violates(rule: Rule, f: Nutrition, p: Profile) {
    match rule
    case SeniorSugar => p.age > 60 && f.sugar > 10.0
    case YouthCalories => p.age < 18 && f.calories < 40.0
    case FemaleVitaminC => p.gender == "Female" && f.vitaminC < 5.0
    case DiabetesSugar => "Diabetes" in p.healthConditions && f.sugar > 8.0
    case HypertensionCalories => "Hypertension" in p.healthConditions && f.calories > 60.0
    case StrawberryAllergy => "Allergies" in p.healthConditions && StartsWith(f.name, LabelSpelling)
    case KetoSugar => p.dietaryPreference == "Keto" && f.sugar > 6.0
    case VeganVitaminC => p.dietaryPreference == "Vegan" && f.vitaminC < 10.0
    case VegetarianVitaminC => p.dietaryPreference == "Vegetarian" && f.vitaminC < 5.0
    case WeightLossCalories => p.fitnessGoal == "Weight Loss" && f.calories > 55.0
    case MuscleGainShortfall => p.fitnessGoal == "Muscle Gain" && (f.calories < 50.0 || f.vitaminC < 8.0)
  }

  /** The five stages of the source, in the order they are checked. */
  function Stage(rule: Rule): nat {
    match rule
    case SeniorSugar => 0
    case YouthCalories => 0
    case FemaleVitaminC => 1
    case DiabetesSugar => 2
    case HypertensionCalories => 2
    case StrawberryAllergy => 2
    case KetoSugar => 3
    case VeganVitaminC => 3
    case VegetarianVitaminC => 3
    case WeightLossCalories => 4
    case MuscleGainShortfall => 4
  }

  /** Age tier (app.py:244-251): seniors and the young are exclusive tiers. */
  function AgeRejection(f: Nutrition, p: Profile): Option<Rule> {
    if p.age > 60 then
      (if f.sugar > 10.0 then Some(SeniorSugar) else None)
    else if p.age < 18 then
      (if f.calories < 40.0 then Some(YouthCalories) else None)
    else None
  }

  /** Gender (app.py:254-258). */
  function GenderRejection(f: Nutrition, p: Profile): Option<Rule> {
    if p.gender == "Female" && f.vitaminC < 5.0 then Some(FemaleVitaminC) else None
  }

  /** The loop over health conditions (app.py:261-270): the first condition
      that rejects the fruit, in list order; other strings are skipped. */
  function ConditionRejection(conditions: seq<string>, f: Nutrition): Option<Rule>
    decreases |conditions|
  {
    if |conditions| == 0 then None
    else if conditions[0] == "Diabetes" && f.sugar > 8.0 then Some(DiabetesSugar)
    else if conditions[0] == "Hypertension" && f.calories > 60.0 then Some(HypertensionCalories)
    else if conditions[0] == "Allergies" && StartsWith(f.name, LabelSpelling) then Some(StrawberryAllergy)
    else ConditionRejection(conditions[1..], f)
  }

  /** Dietary preference if/elif chain (app.py:273-285). */
  function DietRejection(f: Nutrition, p: Profile): Option<Rule> {
    if p.dietaryPreference == "Keto" && f.sugar > 6.0 then Some(KetoSugar)
    else if p.dietaryPreference == "Vegan" then
      (if f.vitaminC < 10.0 then Some(VeganVitaminC) else None)
    else if p.dietaryPreference == "Vegetarian" then
      (if f.vitaminC < 5.0 then Some(VegetarianVitaminC) else None)
    else None
  }

  /** Fitness goal if/elif chain (app.py:288-294). */
  function GoalRejection(f: Nutrition, p: Profile): Option<Rule> {
    if p.fitnessGoal == "Weight Loss" && f.calories > 55.0 then Some(WeightLossCalories)
    else if p.fitnessGoal == "Muscle Gain" then
      (if f.calories < 50.0 || f.vitaminC < 8.0 then Some(MuscleGainShortfall) else None)
    else None
  }

  /** The rule whose check returns `False` first, or `None` when the fruit
      is accepted. */
  function Rejection(f: Nutrition, p: Profile): Option<Rule> {
    var age := AgeRejection(f, p);
    var gender := GenderRejection(f, p);
    var health := ConditionRejection(p.healthConditions, f);
    var diet := DietRejection(f, p);
    var goal := GoalRejection(f, p);
    if age.Some? then age
    else if gender.Some? then gender
    else if health.Some? then health
    else if diet.Some? then diet
    else goal
  }

  /** `passes_profile_rules(fruit)` */
  predicate PassesProfileRules(f: Nutrition, p: Profile) {
    Rejection(f, p).None?
  }

  /** The condition loop rejects exactly when some listed condition's rule
      is violated, and the rule it reports is one of those. */
  lemma {:induction false} ConditionRejectionMeaning(conditions: seq<string>, f: Nutrition, p: Profile)
    requires forall c | c in conditions :: c in p.healthConditions
    ensures ConditionRejection(conditions, f).Some? ==>
      var rule := ConditionRejection(conditions, f).value;
      Stage(rule) == 2 && Violates(rule, f, p)
    ensures ConditionRejection(conditions, f).None? <==>
      forall c | c in conditions ::
        && !(c == "Diabetes" && f.sugar > 8.0)
        && !(c == "Hypertension" && f.calories > 60.0)
        && !(c == "Allergies" && StartsWith(f.name, LabelSpelling))
    decreases |conditions|
  {
    if |conditions| > 0 {
      assert conditions[0] in conditions;
      ConditionRejectionMeaning(conditions[1..], f, p);
      assert forall c :: c in conditions <==> c == conditions[0] || c in conditions[1..];
    }
  }

  /** Soundness of the logged reason: the rule the chain stops at is
      violated, and no rule of an earlier stage is. */
  lemma RejectionSound(f: Nutrition, p: Profile)
    ensures Rejection(f, p).Some? ==>
      var rule := Rejection(f, p).value;
      && Violates(rule, f, p)
      && forall other: Rule | Violates(other, f, p) :: Stage(rule) <= Stage(other)
  {
    ConditionRejectionMeaning(p.healthConditions, f, p);
    if Rejection(f, p).Some? {
      var rule := Rejection(f, p).value;
      forall other: Rule | Violates(other, f, p)
        ensures Stage(rule) <= Stage(other)
      {
        if other == DiabetesSugar || other == HypertensionCalories || other == StrawberryAllergy {
          assert ConditionRejection(p.healthConditions, f).Some?;
        }
      }
    }
  }

  /** Completeness: a fruit that violates any rule is rejected. */
  lemma RejectionComplete(f: Nutrition, p: Profile, rule: Rule)
    requires Violates(rule, f, p)
    ensures !PassesProfileRules(f, p)
  {
    ConditionRejectionMeaning(p.healthConditions, f, p);
  }

  /** The rule engine accepts a fruit exactly when it violates none of the
      rules: the early-return chain and the rule table agree. */
  lemma PassesIffNoViolation(f: Nutrition, p: Profile)
    ensures PassesProfileRules(f, p) <==> forall rule: Rule :: !Violates(rule, f, p)
  {
    RejectionSound(f, p);
    if !PassesProfileRules(f, p) {
      assert Violates(Rejection(f, p).value, f, p);
    } else {
      forall rule: Rule
        ensures !Violates(rule, f, p)
      {
        if Violates(rule, f, p) {
          RejectionComplete(f, p, rule);
        }
      }
    }
  }

  /** The age tiers: seniors are refused sugar above 10 (exactly 10 is
      allowed), the young are refused fewer than 40 calories, and between 18
      and 60 inclusive the age has no effect at all. */
  lemma AgeTiers(f: Nutrition, p: Profile, otherAge: int)
    ensures p.age > 60 && f.sugar > 10.0 ==> !PassesProfileRules(f, p)
    ensures p.age < 18 && f.calories < 40.0 ==> !PassesProfileRules(f, p)
    ensures 18 <= p.age <= 60 && 18 <= otherAge <= 60 ==>
      (PassesProfileRules(f, p) <==> PassesProfileRules(f, p.(age := otherAge)))
    ensures p.age > 60 && f.sugar == 10.0 ==>
      (PassesProfileRules(f, p) <==> PassesProfileRules(f, p.(age := 30)))
  {
    var q := p.(age := otherAge);
    assert ConditionRejection(q.healthConditions, f) == ConditionRejection(p.healthConditions, f);
  }

  /** Each recognised health condition rejects on its own, wherever it sits
      in the list. */
  lemma ConditionsRejectIndependently(f: Nutrition, p: Profile)
    ensures "Diabetes" in p.healthConditions && f.sugar > 8.0 ==> !PassesProfileRules(f, p)
    ensures "Hypertension" in p.healthConditions && f.calories > 60.0 ==> !PassesProfileRules(f, p)
    ensures "Allergies" in p.healthConditions && StartsWith(f.name, LabelSpelling) ==> !PassesProfileRules(f, p)
  {
    PassesIffNoViolation(f, p);
    assert Violates(DiabetesSugar, f, p) ==> !PassesProfileRules(f, p);
    assert Violates(HypertensionCalories, f, p) ==> !PassesProfileRules(f, p);
    assert Violates(StrawberryAllergy, f, p) ==> !PassesProfileRules(f, p);
  }

  /** An unrecognised condition string, inserted anywhere in the list, does
      not change which rule (if any) rejects the fruit. */
  lemma {:induction false} UnknownConditionIgnored(conditions: seq<string>, i: nat, c: string, f: Nutrition)
    requires i <= |conditions|
    requires c != "Diabetes" && c != "Hypertension" && c != "Allergies"
    ensures ConditionRejection(conditions[..i] + [c] + conditions[i..], f) == ConditionRejection(conditions, f)
    decreases i
  {
    var longer := conditions[..i] + [c] + conditions[i..];
    if i == 0 {
      assert longer[1..] == conditions;
    } else {
      UnknownConditionIgnored(conditions[1..], i - 1, c, f);
      assert longer[0] == conditions[0];
      assert longer[1..] == conditions[1..][..i - 1] + [c] + conditions[1..][i - 1..];
    }
  }

  /** Only which conditions are listed matters, not their order or
      repetitions. */
  lemma ConditionsActAsSet(f: Nutrition, p: Profile, conditions: seq<string>)
    requires forall c :: c in conditions <==> c in p.healthConditions
    ensures PassesProfileRules(f, p) <==> PassesProfileRules(f, p.(healthConditions := conditions))
  {
    var q := p.(healthConditions := conditions);
    PassesIffNoViolation(f, p);
    PassesIffNoViolation(f, q);
    assert forall rule: Rule :: Violates(rule, f, p) <==> Violates(rule, f, q);
  }

  /** A dietary preference or fitness goal other than the recognised ones
      adds no constraint. */
  lemma UnknownPreferenceNeutral(f: Nutrition, p: Profile)
    ensures p.dietaryPreference !in ["Keto", "Vegan", "Vegetarian"] ==>
      (PassesProfileRules(f, p) <==> PassesProfileRules(f, p.(dietaryPreference := "None")))
    ensures p.fitnessGoal !in ["Weight Loss", "Muscle Gain"] ==>
      (PassesProfileRules(f, p) <==> PassesProfileRules(f, p.(fitnessGoal := "None")))
  {
    var q := p.(dietaryPreference := "None");
    var r := p.(fitnessGoal := "None");
    assert ConditionRejection(q.healthConditions, f) == ConditionRejection(p.healthConditions, f);
    assert ConditionRejection(r.healthConditions, f) == ConditionRejection(p.healthConditions, f);
  }

  /** Raising a fruit's sugar, all else fixed, can only turn acceptance into
      rejection, never the reverse. */
  lemma SugarMonotone(f: Nutrition, p: Profile, sugar: real)
    requires f.sugar <= sugar
    ensures PassesProfileRules(f.(sugar := sugar), p) ==> PassesProfileRules(f, p)
  {
    var g := f.(sugar := sugar);
    PassesIffNoViolation(f, p);
    PassesIffNoViolation(g, p);
    assert forall rule: Rule :: Violates(rule, f, p) ==> Violates(rule, g, p);
  }

  /** Raising a fruit's vitamin C, all else fixed, can only turn rejection
      into acceptance: every vitamin C rule is a floor. */
  lemma VitaminCMonotone(f: Nutrition, p: Profile, vitaminC: real)
    requires f.vitaminC <= vitaminC
    ensures PassesProfileRules(f, p) ==> PassesProfileRules(f.(vitaminC := vitaminC), p)
  {
    var g := f.(vitaminC := vitaminC);
    PassesIffNoViolation(f, p);
    PassesIffNoViolation(g, p);
    assert forall rule: Rule :: Violates(rule, g, p) ==> Violates(rule, f, p);
  }
}
