/** The explanation attached to each accepted fruit:
    `generate_recommendation_reason` (app.py:328-353) and
    `generate_nutritional_benefits` (app.py:355-377). Neither depends on the
    rule engine's verdict; both only compare the nutrition values with
    constants. */
module Explain {
  import opened Text
  import opened Catalog
  import Rules

  /** The six reason clauses, in the order the source tests them. */
  datatype Clause =
    | WeightManagement
    | MuscleRecovery
    | ModerateSugar
    | ImmuneSupport
    | WomensHealth
    | PlantBased

  function Wording(c: Clause): string {
    match c
    case WeightManagement => "low in calories for weight management"
    case MuscleRecovery => "high vitamin C supports muscle recovery"
    case ModerateSugar => "moderate sugar content"
    case ImmuneSupport => "high vitamin C supports immune system"
    case WomensHealth => "excellent vitamin C for women's health"
    case PlantBased => "perfect for plant-based diet"
  }

  /** Position of a clause in the source. */
  function Rank(c: Clause): nat {
    match c
    case WeightManagement => 0
    case MuscleRecovery => 1
    case ModerateSugar => 2
    case ImmuneSupport => 3
    case WomensHealth => 4
    case PlantBased => 5
  }

  const Fallback := "nutritionally balanced for your profile"
  const Separator := ", "

  /** When each clause is due, stated clause by clause. */
  predicate Applies(c: Clause, f: Nutrition, p: Profile) {
    match c
    case WeightManagement => p.fitnessGoal == "Weight Loss" && f.calories <= 55.0
    case MuscleRecovery => p.fitnessGoal == "Muscle Gain" && f.vitaminC >= 8.0
    case ModerateSugar => "Diabetes" !in p.healthConditions && f.sugar <= 8.0
    case ImmuneSupport => p.age > 60 && f.vitaminC > 20.0
    case WomensHealth => p.gender == "Female" && f.vitaminC > 10.0
    case PlantBased => p.dietaryPreference in ["Vegan", "Vegetarian"]
  }

  /** `c` when it is due, nothing otherwise: one `if ...: reasons.append`. */
  function When(due: bool, c: Clause): (r: seq<Clause>)
    ensures |r| <= 1
    ensures forall d :: d in r <==> due && d == c
  {
    if due then [c] else []
  }

  /** Clauses in strictly increasing source position. */
  predicate InSourceOrder(cs: seq<Clause>) {
    forall i, j | 0 <= i < j < |cs| :: Rank(cs[i]) < Rank(cs[j])
  }

  lemma PrependEarlier(x: seq<Clause>, rest: seq<Clause>)
    requires |x| <= 1 && InSourceOrder(rest)
    requires forall a, b | a in x && b in rest :: Rank(a) < Rank(b)
    ensures InSourceOrder(x + rest)
  {
    if |x| == 1 {
      forall i, j | 0 <= i < j < |x + rest|
        ensures Rank((x + rest)[i]) < Rank((x + rest)[j])
      {
        assert (x + rest)[j] == rest[j - 1];
        if i == 0 {
          assert x[0] in x && rest[j - 1] in rest;
        } else {
          assert (x + rest)[i] == rest[i - 1];
        }
      }
    } else {
      assert x + rest == rest;
    }
  }

  /** One optional clause per source position, concatenated in position
      order, are in source order. */
  lemma ChainInOrder(wm: seq<Clause>, mr: seq<Clause>, ms: seq<Clause>, im: seq<Clause>, wh: seq<Clause>, pb: seq<Clause>)
    requires |wm| <= 1 && |mr| <= 1 && |ms| <= 1 && |im| <= 1 && |wh| <= 1 && |pb| <= 1
    requires forall c | c in wm :: Rank(c) == 0
    requires forall c | c in mr :: Rank(c) == 1
    requires forall c | c in ms :: Rank(c) == 2
    requires forall c | c in im :: Rank(c) == 3
    requires forall c | c in wh :: Rank(c) == 4
    requires forall c | c in pb :: Rank(c) == 5
    ensures InSourceOrder(wm + (mr + (ms + (im + (wh + pb)))))
  {
    PrependEarlier(wh, pb);
    PrependEarlier(im, wh + pb);
    PrependEarlier(ms, im + (wh + pb));
    PrependEarlier(mr, ms + (im + (wh + pb)));
    PrependEarlier(wm, mr + (ms + (im + (wh + pb))));
  }

  /** The `reasons` list built at app.py:330-348, one optional append per
      clause. It holds exactly the clauses that are due, each once, in
      source order. */
  function Clauses(f: Nutrition, p: Profile): (r: seq<Clause>)
    ensures forall c :: c in r <==> Applies(c, f, p)
    ensures InSourceOrder(r)
  {
    var wm := When(Applies(WeightManagement, f, p), WeightManagement);
    var mr := When(Applies(MuscleRecovery, f, p), MuscleRecovery);
    var ms := When(Applies(ModerateSugar, f, p), ModerateSugar);
    var im := When(Applies(ImmuneSupport, f, p), ImmuneSupport);
    var wh := When(Applies(WomensHealth, f, p), WomensHealth);
    var pb := When(Applies(PlantBased, f, p), PlantBased);
    ChainInOrder(wm, mr, ms, im, wh, pb);
    ChainMembers(
      Applies(WeightManagement, f, p), Applies(MuscleRecovery, f, p), Applies(ModerateSugar, f, p),
      Applies(ImmuneSupport, f, p), Applies(WomensHealth, f, p), Applies(PlantBased, f, p));
    wm + (mr + (ms + (im + (wh + pb))))
  }

  /** The chain of optional clauses holds a clause exactly when its flag is
      set. */
  lemma ChainMembers(b0: bool, b1: bool, b2: bool, b3: bool, b4: bool, b5: bool)
    ensures forall c ::
      c in When(b0, WeightManagement) + (When(b1, MuscleRecovery) + (When(b2, ModerateSugar) +
        (When(b3, ImmuneSupport) + (When(b4, WomensHealth) + When(b5, PlantBased))))) <==>
      match c
      case WeightManagement => b0
      case MuscleRecovery => b1
      case ModerateSugar => b2
      case ImmuneSupport => b3
      case WomensHealth => b4
      case PlantBased => b5
  {
    var wm, mr, ms := When(b0, WeightManagement), When(b1, MuscleRecovery), When(b2, ModerateSugar);
    var im, wh, pb := When(b3, ImmuneSupport), When(b4, WomensHealth), When(b5, PlantBased);
    forall c
      ensures c in wm + (mr + (ms + (im + (wh + pb)))) <==> c in wm || c in mr || c in ms || c in im || c in wh || c in pb
    {
    }
  }

  function Wordings(cs: seq<Clause>): (r: seq<string>)
    ensures |r| == |cs|
    ensures forall i | 0 <= i < |cs| :: r[i] == Wording(cs[i])
  {
    if |cs| == 0 then [] else [Wording(cs[0])] + Wordings(cs[1..])
  }

  /** `generate_recommendation_reason`: the due clauses joined by ", ", or
      the fallback sentence when none is due. */
  function Reason(f: Nutrition, p: Profile): (r: string)
    ensures |r| > 0
  {
    var cs := Clauses(f, p);
    if |cs| == 0 then Fallback
    else
      JoinStartsWithFirst(Wordings(cs), Separator);
      Join(Wordings(cs), Separator)
  }

  /** Every clause is worded without a comma and starts with a letter
      other than the fallback sentence's first letter. */
  lemma WordingShape(c: Clause)
    ensures |Wording(c)| > 0 && Wording(c)[0] != Fallback[0]
    ensures ',' !in Wording(c)
  {
    match c
    case WeightManagement => WeightManagementNoComma();
    case MuscleRecovery => MuscleRecoveryNoComma();
    case ModerateSugar => ModerateSugarNoComma();
    case ImmuneSupport => ImmuneSupportNoComma();
    case WomensHealth => WomensHealthNoComma();
    case PlantBased => PlantBasedNoComma();
  }

  /* One lemma per wording: each checks a single literal, which keeps every
     proof small. */

  lemma WeightManagementNoComma()
    ensures ',' !in Wording(WeightManagement)
  {
  }

  lemma MuscleRecoveryNoComma()
    ensures ',' !in Wording(MuscleRecovery)
  {
  }

  lemma ModerateSugarNoComma()
    ensures ',' !in Wording(ModerateSugar)
  {
  }

  lemma ImmuneSupportNoComma()
    ensures ',' !in Wording(ImmuneSupport)
  {
  }

  lemma WomensHealthNoComma()
    ensures ',' !in Wording(WomensHealth)
  {
  }

  lemma PlantBasedNoComma()
    ensures ',' !in Wording(PlantBased)
  {
  }

  /** The fallback sentence is the reason exactly when no clause is due. */
  lemma ReasonIsFallbackIff(f: Nutrition, p: Profile)
    ensures Reason(f, p) == Fallback <==> forall c: Clause :: !Applies(c, f, p)
  {
    var cs := Clauses(f, p);
    if |cs| > 0 {
      var ws := Wordings(cs);
      JoinStartsWithFirst(ws, Separator);
      WordingShape(cs[0]);
      assert Reason(f, p)[0] == ws[0][0] != Fallback[0];
      assert cs[0] in cs;
    }
  }

  /** No clause contains a comma, so the clauses can be read back out of
      the reason string. */
  lemma WordingsHaveNoComma(cs: seq<Clause>)
    ensures forall k | 0 <= k < |Wordings(cs)| :: ',' !in Wordings(cs)[k]
  {
    forall k | 0 <= k < |cs|
      ensures ',' !in Wording(cs[k])
    {
      WordingShape(cs[k]);
    }
  }

  lemma FallbackNoComma()
    ensures ',' !in Fallback
  {
  }

  /** Round trip: splitting the reason at ", " gives back the due clauses in
      source order, or the fallback sentence alone when none is due. */
  lemma ReasonSplitsIntoClauses(f: Nutrition, p: Profile)
    ensures Split(Reason(f, p), Separator) ==
      (if |Clauses(f, p)| == 0 then [Fallback] else Wordings(Clauses(f, p)))
  {
    var cs := Clauses(f, p);
    if |cs| == 0 {
      FallbackNoComma();
      SplitWhole(Fallback, Separator);
    } else {
      WordingsHaveNoComma(cs);
      SplitJoin(Wordings(cs), Separator);
    }
  }

  /** The benefit tags of app.py:359-375. */
  datatype Benefit =
    | HighVitaminC
    | GoodVitaminC
    | LowCalorie
    | EnergyRich
    | LowSugar
    | NaturalSugars
    | Antioxidants
    | Fiber

  function TagText(b: Benefit): string {
    match b
    case HighVitaminC => "High Vitamin C"
    case GoodVitaminC => "Good Vitamin C"
    case LowCalorie => "Low Calorie"
    case EnergyRich => "Energy Rich"
    case LowSugar => "Low Sugar"
    case NaturalSugars => "Natural Sugars"
    case Antioxidants => "Antioxidants"
    case Fiber => "Fiber"
  }

  /** Nutrient a tag speaks about: vitamin C, calories, sugar, then the two
      fixed tags. */
  function Category(b: Benefit): nat {
    match b
    case HighVitaminC => 0
    case GoodVitaminC => 0
    case LowCalorie => 1
    case EnergyRich => 1
    case LowSugar => 2
    case NaturalSugars => 2
    case Antioxidants => 3
    case Fiber => 4
  }

  /** Tags in strictly increasing category order. */
  predicate InCategoryOrder(bs: seq<Benefit>) {
    forall i, j | 0 <= i < j < |bs| :: Category(bs[i]) < Category(bs[j])
  }

  /** At most one tag, of category `k`. */
  predicate AtMostOneOf(bs: seq<Benefit>, k: nat) {
    |bs| <= 1 && forall b | b in bs :: Category(b) == k
  }

  lemma PrependInOrder(more: seq<Benefit>, bs: seq<Benefit>, k: nat)
    requires AtMostOneOf(more, k)
    requires InCategoryOrder(bs) && forall b | b in bs :: Category(b) > k
    ensures InCategoryOrder(more + bs)
    ensures forall b | b in more + bs :: Category(b) >= k
  {
    if |more| == 1 {
      assert more + bs == [more[0]] + bs;
      forall i, j | 0 <= i < j < |more + bs|
        ensures Category((more + bs)[i]) < Category((more + bs)[j])
      {
        if i == 0 {
          assert (more + bs)[j] == bs[j - 1] && bs[j - 1] in bs;
        } else {
          assert (more + bs)[i] == bs[i - 1] && (more + bs)[j] == bs[j - 1];
        }
      }
    } else {
      assert more + bs == bs;
    }
  }

  /** One optional tag per nutrient followed by the two fixed tags: in
      category order, two to five tags, the fixed ones last. */
  lemma AssembleShape(v: seq<Benefit>, c: seq<Benefit>, s: seq<Benefit>)
    requires AtMostOneOf(v, 0) && AtMostOneOf(c, 1) && AtMostOneOf(s, 2)
    ensures var r := v + (c + (s + [Antioxidants, Fiber]));
      && 2 <= |r| <= 5
      && r[|r| - 2..] == [Antioxidants, Fiber]
      && InCategoryOrder(r)
  {
    AssembleOrder(v, c, s);
    var tail := [Antioxidants, Fiber];
    var r := v + (c + (s + tail));
    assert r == (v + c + s) + tail;
    assert r[|r| - 2..] == tail;
  }

  lemma AssembleOrder(v: seq<Benefit>, c: seq<Benefit>, s: seq<Benefit>)
    requires AtMostOneOf(v, 0) && AtMostOneOf(c, 1) && AtMostOneOf(s, 2)
    ensures InCategoryOrder(v + (c + (s + [Antioxidants, Fiber])))
  {
    var tail := [Antioxidants, Fiber];
    assert InCategoryOrder(tail);
    PrependInOrder(s, tail, 2);
    PrependInOrder(c, s + tail, 1);
    PrependInOrder(v, c + (s + tail), 0);
  }

  /** The assembled list holds the optional tags and the fixed ones, and
      nothing else. */
  lemma AssembleMembers(v: seq<Benefit>, c: seq<Benefit>, s: seq<Benefit>)
    ensures forall b ::
      b in v + (c + (s + [Antioxidants, Fiber])) <==>
      b in v || b in c || b in s || b == Antioxidants || b == Fiber
  {
  }

  /** The vitamin C tag (app.py:359-362). */
  function VitaminTag(f: Nutrition): (r: seq<Benefit>)
    ensures AtMostOneOf(r, 0)
    ensures HighVitaminC in r <==> f.vitaminC > 20.0
    ensures GoodVitaminC in r <==> 10.0 < f.vitaminC <= 20.0
  {
    if f.vitaminC > 20.0 then [HighVitaminC]
    else if f.vitaminC > 10.0 then [GoodVitaminC] else []
  }

  /** The calorie tag (app.py:364-367). */
  function CalorieTag(f: Nutrition): (r: seq<Benefit>)
    ensures AtMostOneOf(r, 1)
    ensures LowCalorie in r <==> f.calories < 50.0
    ensures EnergyRich in r <==> f.calories > 70.0
  {
    if f.calories < 50.0 then [LowCalorie]
    else if f.calories > 70.0 then [EnergyRich] else []
  }

  /** The sugar tag (app.py:369-372). */
  function SugarTag(f: Nutrition): (r: seq<Benefit>)
    ensures AtMostOneOf(r, 2)
    ensures LowSugar in r <==> f.sugar < 6.0
    ensures NaturalSugars in r <==> f.sugar > 12.0
  {
    if f.sugar < 6.0 then [LowSugar]
    else if f.sugar > 12.0 then [NaturalSugars] else []
  }

  /** The `benefits` list of `generate_nutritional_benefits` (app.py:357-377):
      at most one tag per nutrient, categories in order, the two fixed tags
      last. */
  function BenefitTags(f: Nutrition): (r: seq<Benefit>)
    ensures 2 <= |r| <= 5
    ensures r[|r| - 2..] == [Antioxidants, Fiber]
    ensures InCategoryOrder(r)
  {
    var v := VitaminTag(f);
    var c := CalorieTag(f);
    var s := SugarTag(f);
    AssembleShape(v, c, s);
    v + (c + (s + [Antioxidants, Fiber]))
  }

  /** Each nutrient's tag is present exactly when its threshold is met:
      both halves of every if/elif pair. */
  lemma BenefitTagThresholds(f: Nutrition)
    ensures HighVitaminC in BenefitTags(f) <==> f.vitaminC > 20.0
    ensures GoodVitaminC in BenefitTags(f) <==> 10.0 < f.vitaminC <= 20.0
    ensures LowCalorie in BenefitTags(f) <==> f.calories < 50.0
    ensures EnergyRich in BenefitTags(f) <==> f.calories > 70.0
    ensures LowSugar in BenefitTags(f) <==> f.sugar < 6.0
    ensures NaturalSugars in BenefitTags(f) <==> f.sugar > 12.0
  {
    AssembleMembers(VitaminTag(f), CalorieTag(f), SugarTag(f));
  }

  function TagTexts(bs: seq<Benefit>): (r: seq<string>)
    ensures |r| == |bs|
    ensures forall i | 0 <= i < |bs| :: r[i] == TagText(bs[i])
  {
    if |bs| == 0 then [] else [TagText(bs[0])] + TagTexts(bs[1..])
  }

  /** `generate_nutritional_benefits(fruit)` as the strings it returns. */
  function Benefits(f: Nutrition): seq<string> {
    TagTexts(BenefitTags(f))
  }

  /** Distinct tags are spelled differently (first letter and length tell
      them apart). */
  lemma TagTextInjective(a: Benefit, b: Benefit)
    requires TagText(a) == TagText(b)
    ensures a == b
  {
    assert TagText(a)[0] == TagText(b)[0];
    assert |TagText(a)| == |TagText(b)|;
  }

  /** The returned strings: between two and five, ending with
      "Antioxidants", "Fiber". */
  lemma BenefitsShape(f: Nutrition)
    ensures 2 <= |Benefits(f)| <= 5
    ensures Benefits(f)[|Benefits(f)| - 2..] == ["Antioxidants", "Fiber"]
  {
    TagTextsOfFixedTail(BenefitTags(f));
  }

  lemma TagTextsOfFixedTail(bs: seq<Benefit>)
    requires |bs| >= 2 && bs[|bs| - 2..] == [Antioxidants, Fiber]
    ensures TagTexts(bs)[|bs| - 2..] == ["Antioxidants", "Fiber"]
  {
    var r := TagTexts(bs);
    var n := |bs|;
    assert bs[n - 2] == bs[n - 2..][0] == Antioxidants;
    assert bs[n - 1] == bs[n - 2..][1] == Fiber;
    assert r[n - 2] == "Antioxidants" && r[n - 1] == "Fiber";
    assert r[n - 2..] == [r[n - 2], r[n - 1]];
  }

  /** A tag's text is among the returned strings exactly when the tag is
      due, so the strings carry the same information as the tags. */
  lemma BenefitsSpellTags(f: Nutrition)
    ensures forall b: Benefit :: TagText(b) in Benefits(f) <==> b in BenefitTags(f)
  {
    var bs := BenefitTags(f);
    var r := Benefits(f);
    forall b: Benefit
      ensures TagText(b) in r <==> b in bs
    {
      if TagText(b) in r {
        var i :| 0 <= i < |r| && r[i] == TagText(b);
        TagTextInjective(bs[i], b);
      }
      if b in bs {
        var i :| 0 <= i < |bs| && bs[i] == b;
        assert r[i] == TagText(b);
      }
    }
  }

  /** An accepted fruit's reason agrees with the goal it was screened for:
      the rule engine's thresholds for "Weight Loss" and "Muscle Gain" are
      the reason clauses' thresholds, and a plant-based diet is always
      mentioned. */
  lemma AcceptedFruitReasons(f: Nutrition, p: Profile)
    requires Rules.PassesProfileRules(f, p)
    ensures p.fitnessGoal == "Weight Loss" ==> WeightManagement in Clauses(f, p)
    ensures p.fitnessGoal == "Muscle Gain" ==> MuscleRecovery in Clauses(f, p)
    ensures p.dietaryPreference in ["Vegan", "Vegetarian"] ==> PlantBased in Clauses(f, p)
    ensures Reason(f, p) != Fallback || p.fitnessGoal !in ["Weight Loss", "Muscle Gain"]
  {
    Rules.PassesIffNoViolation(f, p);
    assert !Rules.Violates(Rules.WeightLossCalories, f, p);
    assert !Rules.Violates(Rules.MuscleGainShortfall, f, p);
    ReasonIsFallbackIff(f, p);
  }
}
