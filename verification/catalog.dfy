/** The records the recommendation engine works on, and the nutrition lookup
    for one fruit label (app.py:171-203, 190-195, 304-313). The knowledge-base
    query itself is an abstract function from an individual's name to its
    facts. */
module Catalog {
  import opened Wrappers
  import opened Text

  /** One knowledge-base row: the three facts the engine reads. */
  datatype Facts = Facts(calories: real, sugar: real, vitaminC: real)

  /** The per-fruit dictionary built at app.py:190-195. */
  datatype Nutrition = Nutrition(name: string, sugar: real, calories: real, vitaminC: real)

  /** The arguments of `generate_personalized_recommendations`. */
  datatype Profile = Profile(
    age: int,
    gender: string,
    fitnessGoal: string,
    dietaryPreference: string,
    healthConditions: seq<string>)

  /** One entry of the returned list (app.py:304-313). */
  datatype Recommendation = Recommendation(
    fruit: string,
    reason: string,
    nutritionalBenefits: seq<string>,
    nutrition: Facts)

  /** The knowledge base: the facts stored for an individual, if any. */
  type Lookup = string -> Option<Facts>

  const LabelSpelling := "Strawberry"
  /** How the ontology spells the same fruit. */
  const OntologySpelling := "Stawberry"

  /** The individual queried for a classifier label (app.py:174). */
  function OntologyName(fruitLabel: string): string {
    ReplaceAll(fruitLabel, LabelSpelling, OntologySpelling)
  }

  /** The inverse rewrite, ontology spelling back to label spelling. */
  function LabelName(individual: string): string {
    ReplaceAll(individual, OntologySpelling, LabelSpelling)
  }

  /** Labels that never mention the fruit are queried unchanged. */
  lemma OntologyNameKeepsOtherLabels(fruitLabel: string)
    requires !Contains(fruitLabel, LabelSpelling)
    ensures OntologyName(fruitLabel) == fruitLabel
  {
    ReplaceAbsent(fruitLabel, LabelSpelling, OntologySpelling);
  }

  /** Whatever a rewritten occurrence at the front is followed by, the
      rewrite begins with the ontology spelling's capital S. */
  lemma RewriteStartsWithS(t: string, w: string)
    requires StartsWith(t, LabelSpelling)
    requires StartsWith(OntologyName(t), w) && |w| > 0
    ensures w[0] == 'S'
  {
    assert t[..|LabelSpelling|] == LabelSpelling;
    assert OntologyName(t) == OntologySpelling + OntologyName(t[|LabelSpelling|..]);
    assert w[0] == OntologyName(t)[..|w|][0];
  }

  /** If the rewrite of `t` begins with a word that has no capital S, then
      `t` itself begins with that word: a capital S in the output comes
      either from `t` or from a rewritten occurrence. */
  lemma {:induction false} RewriteKeepsPrefix(t: string, w: string)
    requires 'S' !in w
    requires StartsWith(OntologyName(t), w)
    ensures StartsWith(t, w)
    decreases |t|
  {
    if |w| == 0 || |t| < |LabelSpelling| {
    } else if t[..|LabelSpelling|] == LabelSpelling {
      RewriteStartsWithS(t, w);
      assert false;
    } else {
      var rest := OntologyName(t[1..]);
      assert OntologyName(t) == [t[0]] + rest;
      assert w[0] == t[0];
      assert rest[..|w| - 1] == OntologyName(t)[1..|w|];
      assert StartsWith(rest, w[1..]);
      RewriteKeepsPrefix(t[1..], w[1..]);
      assert t[..|w|] == [t[0]] + t[1..][..|w| - 1];
    }
  }

  /** Round trip: a label that does not already contain the ontology's
      spelling is recovered from the individual it is queried as, so the
      rewrite loses no information about the label. */
  lemma {:induction false} OntologyNameRoundTrip(fruitLabel: string)
    requires !Contains(fruitLabel, OntologySpelling)
    ensures LabelName(OntologyName(fruitLabel)) == fruitLabel
    decreases |fruitLabel|
  {
    var s := fruitLabel;
    if |s| < |LabelSpelling| {
      ReplaceAbsent(s, OntologySpelling, LabelSpelling);
    } else if s[..|LabelSpelling|] == LabelSpelling {
      var x := OntologyName(s[|LabelSpelling|..]);
      assert OntologyName(s) == OntologySpelling + x;
      NotContainsSuffix(s, |LabelSpelling|, OntologySpelling);
      OntologyNameRoundTrip(s[|LabelSpelling|..]);
      var y := OntologySpelling + x;
      assert y[..|OntologySpelling|] == OntologySpelling;
      assert y[|OntologySpelling|..] == x;
      assert LabelName(y) == LabelSpelling + LabelName(x);
      assert LabelSpelling + s[|LabelSpelling|..] == s;
    } else {
      var x := OntologyName(s[1..]);
      var y := [s[0]] + x;
      assert OntologyName(s) == y;
      NotContainsSuffix(s, 1, OntologySpelling);
      OntologyNameRoundTrip(s[1..]);
      assert s[0..] == s;
      FrontKeepsOntologySpelling(s);
      assert LabelName(y) == [s[0]] + LabelName(x) by {
        if |y| >= |OntologySpelling| {
          assert y[1..] == x;
        }
      }
      assert [s[0]] + s[1..] == s;
    }
  }

  /** When the first character of `t` is kept and the rest rewritten, the
      result begins with the ontology spelling only if `t` already did. */
  lemma FrontKeepsOntologySpelling(t: string)
    requires |t| > 0
    ensures StartsWith([t[0]] + OntologyName(t[1..]), OntologySpelling) ==> StartsWith(t, OntologySpelling)
  {
    var x := OntologyName(t[1..]);
    var y := [t[0]] + x;
    if StartsWith(y, OntologySpelling) {
      assert y[0] == 'S' && y[1..9] == "tawberry";
      assert StartsWith(x, "tawberry") by {
        assert x[..8] == y[1..9];
      }
      RewriteKeepsPrefix(t[1..], "tawberry");
      assert t[..|OntologySpelling|] == [t[0]] + t[1..][..8];
    }
  }

  /** `get_fruit_nutrition_from_owl`: the facts stored under the label's
      ontology name, filed under the label itself. A label with no stored
      facts yields `None`. */
  function FruitNutrition(fruitLabel: string, kb: Lookup): Option<Nutrition> {
    match kb(OntologyName(fruitLabel))
    case None => None
    case Some(row) => Some(Nutrition(fruitLabel, row.sugar, row.calories, row.vitaminC))
  }

  /** The lookup succeeds exactly when the ontology holds the rewritten
      name; the result carries the un-rewritten label and the stored facts
      unchanged. */
  lemma FruitNutritionFacts(fruitLabel: string, kb: Lookup)
    ensures FruitNutrition(fruitLabel, kb).Some? <==> kb(OntologyName(fruitLabel)).Some?
    ensures FruitNutrition(fruitLabel, kb).Some? ==>
      var n := FruitNutrition(fruitLabel, kb).value;
      var row := kb(OntologyName(fruitLabel)).value;
      && n.name == fruitLabel
      && Facts(n.calories, n.sugar, n.vitaminC) == row
  {
  }

  /** The `nutrition` sub-record copied into a recommendation. */
  function FactsOf(n: Nutrition): Facts {
    Facts(n.calories, n.sugar, n.vitaminC)
  }
}
