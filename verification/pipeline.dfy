/** `generate_personalized_recommendations` (app.py:165-322): look up every
    classifier label, keep the fruits the rule engine accepts, explain each,
    sort by vitamin C (largest first, stable) and keep the first five. */
module Pipeline {
  import opened Wrappers
  import opened Catalog
  import opened Rules
  import opened Explain
  import opened Ranking

  const MaxRecommendations: nat := 5

  /** `fruits_data` (app.py:205-213): the nutrition of every label whose
      lookup finds something, in label order. */
  function Resolve(labels: seq<string>, kb: Lookup): seq<Nutrition>
    decreases |labels|
  {
    if |labels| == 0 then []
    else
      var head := match FruitNutrition(labels[0], kb)
        case Some(n) => [n]
        case None => [];
      head + Resolve(labels[1..], kb)
  }

  /** The record appended at app.py:304-314. */
  function MakeRecommendation(n: Nutrition, p: Profile): Recommendation {
    Recommendation(n.name, Reason(n, p), Benefits(n), FactsOf(n))
  }

  /** `recommended_fruits` before sorting (app.py:300-314): one record per
      accepted fruit, in the order of `fruits`. */
  function Admit(fruits: seq<Nutrition>, p: Profile): seq<Recommendation>
    decreases |fruits|
  {
    if |fruits| == 0 then []
    else
      var head := if PassesProfileRules(fruits[0], p) then [MakeRecommendation(fruits[0], p)] else [];
      head + Admit(fruits[1..], p)
  }

  /** Every accepted fruit's record, in label order. */
  function Candidates(labels: seq<string>, kb: Lookup, p: Profile): seq<Recommendation> {
    Admit(Resolve(labels, kb), p)
  }

  /** `generate_personalized_recommendations` for the labels `labels`, the
      knowledge base `kb` and the profile `p`. */
  function Recommend(labels: seq<string>, kb: Lookup, p: Profile): seq<Recommendation> {
    Take(SortByVitaminC(Candidates(labels, kb, p)), MaxRecommendations)
  }

  /** A label contributes a candidate exactly when its lookup succeeds and
      the rule engine accepts the fruit. */
  predicate Qualifies(fruitLabel: string, kb: Lookup, p: Profile) {
    FruitNutrition(fruitLabel, kb).Some? && PassesProfileRules(FruitNutrition(fruitLabel, kb).value, p)
  }

  /** The resolved fruits are exactly the nutrition of the labels whose
      lookup succeeds. */
  lemma {:induction false} ResolveContents(labels: seq<string>, kb: Lookup)
    ensures forall n :: n in Resolve(labels, kb) <==>
      exists i | 0 <= i < |labels| :: FruitNutrition(labels[i], kb) == Some(n)
    decreases |labels|
  {
    if |labels| > 0 {
      ResolveContents(labels[1..], kb);
      forall n
        ensures n in Resolve(labels, kb) <==>
          exists i | 0 <= i < |labels| :: FruitNutrition(labels[i], kb) == Some(n)
      {
        if exists i | 0 <= i < |labels| :: FruitNutrition(labels[i], kb) == Some(n) {
          var i :| 0 <= i < |labels| && FruitNutrition(labels[i], kb) == Some(n);
          if i > 0 {
            assert labels[1..][i - 1] == labels[i];
          }
        }
        if n in Resolve(labels[1..], kb) {
          var i :| 0 <= i < |labels[1..]| && FruitNutrition(labels[1..][i], kb) == Some(n);
          assert labels[i + 1] == labels[1..][i];
        }
      }
    }
  }

  /** The admitted records are exactly those built from accepted fruits. */
  lemma {:induction false} AdmitContents(fruits: seq<Nutrition>, p: Profile)
    ensures forall e :: e in Admit(fruits, p) <==>
      exists n | n in fruits :: PassesProfileRules(n, p) && e == MakeRecommendation(n, p)
    decreases |fruits|
  {
    if |fruits| > 0 {
      AdmitContents(fruits[1..], p);
      assert forall n :: n in fruits <==> n == fruits[0] || n in fruits[1..];
    }
  }

  /** Candidates keep label order: those of a concatenation are those of
      each part, one after the other, and a single label gives its own
      record when it qualifies and nothing otherwise. */
  lemma {:induction false} CandidatesInLabelOrder(a: seq<string>, b: seq<string>, kb: Lookup, p: Profile)
    ensures Candidates(a + b, kb, p) == Candidates(a, kb, p) + Candidates(b, kb, p)
    ensures |a| == 1 ==>
      Candidates(a, kb, p) == if Qualifies(a[0], kb, p) then [MakeRecommendation(FruitNutrition(a[0], kb).value, p)] else []
    decreases |a|
  {
    ResolveAppend(a, b, kb);
    AdmitAppend(Resolve(a, kb), Resolve(b, kb), p);
    if |a| == 1 {
      assert a[1..] == [];
      var head := match FruitNutrition(a[0], kb)
        case Some(n) => [n]
        case None => [];
      assert Resolve(a, kb) == head + Resolve([], kb);
      if FruitNutrition(a[0], kb).Some? {
        assert Admit(head, p) == (if PassesProfileRules(head[0], p) then [MakeRecommendation(head[0], p)] else []) + Admit([], p);
      }
    }
  }

  /** Two qualifying labels come out with the richer in vitamin C first,
      and in label order when they tie. */
  lemma TwoLabelRanking(a: string, b: string, kb: Lookup, p: Profile)
    requires Qualifies(a, kb, p) && Qualifies(b, kb, p)
    ensures var ra := MakeRecommendation(FruitNutrition(a, kb).value, p);
      var rb := MakeRecommendation(FruitNutrition(b, kb).value, p);
      Recommend([a, b], kb, p) == if Key(rb) > Key(ra) then [rb, ra] else [ra, rb]
  {
    var ra := MakeRecommendation(FruitNutrition(a, kb).value, p);
    var rb := MakeRecommendation(FruitNutrition(b, kb).value, p);
    TwoCandidates(a, b, kb, p);
    SortTwo(ra, rb);
  }

  lemma TwoCandidates(a: string, b: string, kb: Lookup, p: Profile)
    requires Qualifies(a, kb, p) && Qualifies(b, kb, p)
    ensures Candidates([a, b], kb, p) ==
      [MakeRecommendation(FruitNutrition(a, kb).value, p), MakeRecommendation(FruitNutrition(b, kb).value, p)]
  {
    CandidatesInLabelOrder([a], [b], kb, p);
    CandidatesInLabelOrder([a], [], kb, p);
    CandidatesInLabelOrder([b], [], kb, p);
    assert [a] + [b] == [a, b];
  }

  lemma {:induction false} ResolveAppend(a: seq<string>, b: seq<string>, kb: Lookup)
    ensures Resolve(a + b, kb) == Resolve(a, kb) + Resolve(b, kb)
    decreases |a|
  {
    if |a| > 0 {
      assert (a + b)[1..] == a[1..] + b;
      ResolveAppend(a[1..], b, kb);
    } else {
      assert a + b == b;
    }
  }

  lemma {:induction false} AdmitAppend(a: seq<Nutrition>, b: seq<Nutrition>, p: Profile)
    ensures Admit(a + b, p) == Admit(a, p) + Admit(b, p)
    decreases |a|
  {
    if |a| > 0 {
      assert (a + b)[1..] == a[1..] + b;
      AdmitAppend(a[1..], b, p);
    } else {
      assert a + b == b;
    }
  }

  /** Candidates come from qualifying labels, and every qualifying label's
      record is a candidate. */
  lemma CandidatesContents(labels: seq<string>, kb: Lookup, p: Profile)
    ensures forall e :: e in Candidates(labels, kb, p) <==>
      exists i | 0 <= i < |labels| :: Qualifies(labels[i], kb, p) &&
        e == MakeRecommendation(FruitNutrition(labels[i], kb).value, p)
  {
    CandidatesComeFromLabels(labels, kb, p);
    QualifyingLabelsAreCandidates(labels, kb, p);
  }

  lemma CandidatesComeFromLabels(labels: seq<string>, kb: Lookup, p: Profile)
    ensures forall e | e in Candidates(labels, kb, p) ::
      exists i | 0 <= i < |labels| :: Qualifies(labels[i], kb, p) &&
        e == MakeRecommendation(FruitNutrition(labels[i], kb).value, p)
  {
    var fruits := Resolve(labels, kb);
    ResolveContents(labels, kb);
    AdmitContents(fruits, p);
    forall e | e in Candidates(labels, kb, p)
      ensures exists i | 0 <= i < |labels| ::
                Qualifies(labels[i], kb, p) && e == MakeRecommendation(FruitNutrition(labels[i], kb).value, p)
    {
      var n :| n in fruits && PassesProfileRules(n, p) && e == MakeRecommendation(n, p);
      var i :| 0 <= i < |labels| && FruitNutrition(labels[i], kb) == Some(n);
      assert Qualifies(labels[i], kb, p);
    }
  }

  lemma QualifyingLabelsAreCandidates(labels: seq<string>, kb: Lookup, p: Profile)
    ensures forall i | 0 <= i < |labels| && Qualifies(labels[i], kb, p) ::
      MakeRecommendation(FruitNutrition(labels[i], kb).value, p) in Candidates(labels, kb, p)
  {
    var fruits := Resolve(labels, kb);
    ResolveContents(labels, kb);
    AdmitContents(fruits, p);
    forall i | 0 <= i < |labels| && Qualifies(labels[i], kb, p)
      ensures MakeRecommendation(FruitNutrition(labels[i], kb).value, p) in Candidates(labels, kb, p)
    {
      var n := FruitNutrition(labels[i], kb).value;
      assert n in fruits;
    }
  }

  /** At most five recommendations; when no more than five fruits qualify,
      all of them are returned (in some order). */
  lemma RecommendationCount(labels: seq<string>, kb: Lookup, p: Profile)
    ensures |Recommend(labels, kb, p)| <= MaxRecommendations
    ensures |Recommend(labels, kb, p)| ==
      if |Candidates(labels, kb, p)| <= MaxRecommendations then |Candidates(labels, kb, p)| else MaxRecommendations
    ensures |Candidates(labels, kb, p)| <= MaxRecommendations ==>
      multiset(Recommend(labels, kb, p)) == multiset(Candidates(labels, kb, p))
  {
  }

  /** The recommendations are ordered by vitamin C, largest first. */
  lemma RecommendationsSorted(labels: seq<string>, kb: Lookup, p: Profile)
    ensures SortedByVitaminC(Recommend(labels, kb, p))
  {
    var sorted := SortByVitaminC(Candidates(labels, kb, p));
    var r := Recommend(labels, kb, p);
    forall i, j | 0 <= i < j < |r|
      ensures Key(r[i]) >= Key(r[j])
    {
      assert r[i] == sorted[i] && r[j] == sorted[j];
    }
  }

  /** Ties keep label order: for every vitamin C value, the recommendations
      with that value are the first of the candidates with that value, in
      candidate order. */
  lemma RecommendationsStable(labels: seq<string>, kb: Lookup, p: Profile, v: real)
    ensures IsPrefix(WithKey(Recommend(labels, kb, p), v), WithKey(Candidates(labels, kb, p), v))
  {
    var c := Candidates(labels, kb, p);
    var sorted := SortByVitaminC(c);
    var r := Recommend(labels, kb, p);
    SortIsStable(c, v);
    WithKeyOfPrefix(sorted, |r|, v);
    assert sorted[..|r|] == r;
  }

  /** Every recommendation is built from a label whose lookup succeeds and
      whose fruit the rule engine accepts; its name is that label and its
      nutrition is the stored row, unchanged. */
  lemma RecommendationsProvenance(labels: seq<string>, kb: Lookup, p: Profile)
    ensures forall e | e in Recommend(labels, kb, p) ::
      exists i | 0 <= i < |labels| ::
        && Qualifies(labels[i], kb, p)
        && e == MakeRecommendation(FruitNutrition(labels[i], kb).value, p)
        && e.fruit == labels[i]
        && e.nutrition == kb(OntologyName(labels[i])).value
  {
    var c := Candidates(labels, kb, p);
    var r := Recommend(labels, kb, p);
    CandidatesContents(labels, kb, p);
    forall e | e in r
      ensures exists i | 0 <= i < |labels| ::
        && Qualifies(labels[i], kb, p)
        && e == MakeRecommendation(FruitNutrition(labels[i], kb).value, p)
        && e.fruit == labels[i]
        && e.nutrition == kb(OntologyName(labels[i])).value
    {
      assert e in multiset(SortByVitaminC(c));
      assert e in c;
      var i :| 0 <= i < |labels| && Qualifies(labels[i], kb, p) &&
        e == MakeRecommendation(FruitNutrition(labels[i], kb).value, p);
      FruitNutritionFacts(labels[i], kb);
    }
  }

  /** A label the knowledge base cannot resolve never names a
      recommendation. */
  lemma UnresolvedLabelsNeverRecommended(labels: seq<string>, kb: Lookup, p: Profile)
    ensures forall e | e in Recommend(labels, kb, p) :: FruitNutrition(e.fruit, kb).Some?
  {
    RecommendationsProvenance(labels, kb, p);
  }

  /** Top five: a candidate left out of the recommendations has no more
      vitamin C than any recommendation kept. */
  lemma TruncationKeepsLargest(labels: seq<string>, kb: Lookup, p: Profile)
    ensures forall x, e | x in Candidates(labels, kb, p) && x !in Recommend(labels, kb, p) && e in Recommend(labels, kb, p) ::
      Key(x) <= Key(e)
  {
    var c := Candidates(labels, kb, p);
    var sorted := SortByVitaminC(c);
    var r := Recommend(labels, kb, p);
    forall x, e | x in c && x !in r && e in r
      ensures Key(x) <= Key(e)
    {
      assert x in multiset(sorted);
      var j :| 0 <= j < |sorted| && sorted[j] == x;
      var i :| 0 <= i < |r| && r[i] == e;
      assert sorted[i] == e;
    }
  }

  /** A catalog with no resolvable label, or no accepted fruit, yields an
      empty list rather than an error. */
  lemma NothingQualifiesMeansEmpty(labels: seq<string>, kb: Lookup, p: Profile)
    requires forall i | 0 <= i < |labels| :: !Qualifies(labels[i], kb, p)
    ensures Recommend(labels, kb, p) == []
  {
    NoQualifyingLabelNoCandidates(labels, kb, p);
  }

  /** Labels none of which qualifies contribute no candidate. */
  lemma {:induction false} NoQualifyingLabelNoCandidates(labels: seq<string>, kb: Lookup, p: Profile)
    requires forall i | 0 <= i < |labels| :: !Qualifies(labels[i], kb, p)
    ensures Candidates(labels, kb, p) == []
    decreases |labels|
  {
    if |labels| > 0 {
      assert forall i | 0 <= i < |labels| - 1 :: labels[1..][i] == labels[i + 1];
      NoQualifyingLabelNoCandidates(labels[1..], kb, p);
      CandidatesInLabelOrder([labels[0]], labels[1..], kb, p);
      assert [labels[0]] + labels[1..] == labels;
    }
  }

  /** No recommendation made to a profile listing "Diabetes" has more than
      8 g of sugar. */
  lemma DiabetesCapsSugar(labels: seq<string>, kb: Lookup, p: Profile)
    ensures "Diabetes" in p.healthConditions ==>
      forall e | e in Recommend(labels, kb, p) :: e.nutrition.sugar <= 8.0
  {
    RecommendationsProvenance(labels, kb, p);
    forall e | e in Recommend(labels, kb, p)
      ensures "Diabetes" in p.healthConditions ==> e.nutrition.sugar <= 8.0
    {
      var i :| 0 <= i < |labels| && Qualifies(labels[i], kb, p) &&
        e == MakeRecommendation(FruitNutrition(labels[i], kb).value, p);
      ConditionsRejectIndependently(FruitNutrition(labels[i], kb).value, p);
    }
  }
}
