/** Worked cases for the recommendation engine: single fruits checked
    against single profiles, and a small knowledge base taken from the
    nutrition table listed in app.py:218-236. */
module Scenarios {
  import opened Wrappers
  import Text
  import opened Catalog
  import opened Rules
  import opened Explain
  import opened Pipeline

  /** A knowledge base holding two rows, under their ontology names. */
  function TwoFruitBase(individual: string): (r: Option<Facts>) {
    if individual == "Orange_Unripe" then Some(Facts(40.0, 5.0, 40.0))
    else if individual == "Stawberry_Overripe" then Some(Facts(35.0, 5.5, 40.0))
    else None
  }

  /** A knowledge base that knows nothing. */
  function EmptyBase(individual: string): (r: Option<Facts>) {
    None
  }

  const Senior := Profile(70, "Male", "None", "None", [])
  const YoungVeganWoman := Profile(25, "Female", "None", "Vegan", [])
  const Diabetic := Profile(40, "Male", "None", "None", ["Diabetes"])
  const Adult := Profile(30, "Male", "None", "None", [])

  /** A senior is refused an overripe banana for its sugar, but sugar at
      exactly 10 is still allowed. */
  lemma SeniorSugarBoundary()
    ensures Rejection(Nutrition("Banana_Overripe", 15.0, 95.0, 6.0), Senior) == Some(SeniorSugar)
    ensures PassesProfileRules(Nutrition("Apple_Ripe", 10.0, 52.0, 4.6), Senior)
  {
  }

  const RipeOrange := Nutrition("Orange_Ripe", 9.0, 47.0, 53.0)

  /** A ripe orange suits a young vegan woman. */
  lemma VeganOrangeAccepted()
    ensures PassesProfileRules(RipeOrange, YoungVeganWoman)
  {
  }

  /** A ripe orange's tags are high vitamin C and low calorie, then the two
      fixed tags. */
  lemma RipeOrangeBenefits()
    ensures Benefits(RipeOrange) == ["High Vitamin C", "Low Calorie", "Antioxidants", "Fiber"]
  {
    RipeOrangeTags();
    TagTextsOfFour(HighVitaminC, LowCalorie, Antioxidants, Fiber);
  }

  lemma RipeOrangeTags()
    ensures BenefitTags(RipeOrange) == [HighVitaminC, LowCalorie, Antioxidants, Fiber]
  {
    assert VitaminTag(RipeOrange) == [HighVitaminC];
    assert CalorieTag(RipeOrange) == [LowCalorie];
    assert SugarTag(RipeOrange) == [];
  }

  lemma TagTextsOfFour(a: Benefit, b: Benefit, c: Benefit, d: Benefit)
    ensures TagTexts([a, b, c, d]) == [TagText(a), TagText(b), TagText(c), TagText(d)]
  {
  }

  /** The reason given to a young vegan woman for a ripe orange names
      women's health and the plant-based diet, in that order. */
  lemma RipeOrangeClauses()
    ensures Clauses(RipeOrange, YoungVeganWoman) == [WomensHealth, PlantBased]
  {
  }

  /** An overripe mango is refused to a diabetic for its sugar. */
  lemma DiabeticMango()
    ensures Rejection(Nutrition("Mango_Overripe", 16.0, 75.0, 20.0), Diabetic) == Some(DiabetesSugar)
  {
  }

  /** With no labels, or a knowledge base that knows none of them, the
      engine returns an empty list. */
  lemma NoDataNoRecommendations(labels: seq<string>, p: Profile)
    ensures Recommend([], TwoFruitBase, p) == []
    ensures Recommend(labels, EmptyBase, p) == []
  {
    NothingQualifiesMeansEmpty(labels, EmptyBase, p);
  }

  /** The strawberry label is looked up under the ontology's spelling and
      reported under its own. */
  lemma StrawberryLookup()
    ensures FruitNutrition("Strawberry_Overripe", TwoFruitBase) ==
      Some(Nutrition("Strawberry_Overripe", 5.5, 35.0, 40.0))
  {
    assert OntologyName("Strawberry_Overripe") == "Stawberry_Overripe";
  }

  /** Two fruits tied at 40 mg of vitamin C keep label order. */
  lemma TieKeepsLabelOrder()
    ensures |Recommend(["Orange_Unripe", "Strawberry_Overripe"], TwoFruitBase, Adult)| == 2
    ensures Recommend(["Orange_Unripe", "Strawberry_Overripe"], TwoFruitBase, Adult)[0].fruit == "Orange_Unripe"
    ensures Recommend(["Orange_Unripe", "Strawberry_Overripe"], TwoFruitBase, Adult)[1].fruit == "Strawberry_Overripe"
  {
    OrangeQualifies();
    StrawberryQualifies();
    TwoLabelRanking("Orange_Unripe", "Strawberry_Overripe", TwoFruitBase, Adult);
  }

  lemma OrangeQualifies()
    ensures Qualifies("Orange_Unripe", TwoFruitBase, Adult)
    ensures FruitNutrition("Orange_Unripe", TwoFruitBase).value.vitaminC == 40.0
  {
    OrangeLookup();
    assert PassesProfileRules(Nutrition("Orange_Unripe", 5.0, 40.0, 40.0), Adult);
  }

  lemma StrawberryQualifies()
    ensures Qualifies("Strawberry_Overripe", TwoFruitBase, Adult)
    ensures FruitNutrition("Strawberry_Overripe", TwoFruitBase).value.vitaminC == 40.0
  {
    StrawberryLookup();
    assert PassesProfileRules(Nutrition("Strawberry_Overripe", 5.5, 35.0, 40.0), Adult);
  }

  lemma OrangeLookup()
    ensures FruitNutrition("Orange_Unripe", TwoFruitBase) == Some(Nutrition("Orange_Unripe", 5.0, 40.0, 40.0))
  {
    NoCapitalSKept("Orange_Unripe");
  }

  /** A label without a capital S cannot contain the fruit's name, so it is
      queried unchanged. */
  lemma NoCapitalSKept(fruitLabel: string)
    requires 'S' !in fruitLabel
    ensures OntologyName(fruitLabel) == fruitLabel
  {
    forall i | 0 <= i <= |fruitLabel| - |LabelSpelling|
      ensures !Text.StartsWith(fruitLabel[i..], LabelSpelling)
    {
      assert fruitLabel[i..][0] == fruitLabel[i];
    }
    OntologyNameKeepsOtherLabels(fruitLabel);
  }
}
