# Fruit recommendation engine — Dafny model

This project models the recommendation core of the FruitRecognition Flask
service (`app.py`). Given a user profile, the service looks up the nutrition
facts of every fruit label the classifier knows in an OWL knowledge base. It
screens each fruit with a fixed set of profile rules and explains each
accepted fruit with a reason sentence and a list of benefit tags. It then
orders the accepted fruits by vitamin C, largest first, and returns the first
five. The model also covers the profile checks of the `/api/profile`
endpoint that feed the engine.

Modules, one file each:

- `Wrappers` (`wrappers.dfy`): `Option` and `Result`.
- `Text` (`text.dfy`): the Python string operations the core relies on:
  - `str.replace`: left to right, no overlaps;
  - `", ".join`, with a `Split` that inverts it. The source never splits;
    `Split` only states what a joined reason sentence holds;
  - `str.strip`, using Python's whitespace set.
- `Catalog` (`catalog.dfy`): the records; the knowledge base as an abstract
  lookup from an ontology individual's name to its facts; the
  "Strawberry"/"Stawberry" spelling alias; `get_fruit_nutrition_from_owl`.
- `Rules` (`rules.dfy`): `passes_profile_rules`, written as the first failing
  rule of the source's early-return chain. A declarative table of the eleven
  rules is its partner, and the two are proved to agree.
- `Explain` (`explain.dfy`): `generate_recommendation_reason` and
  `generate_nutritional_benefits`.
- `Ranking` (`ranking.dfy`): the stable descending sort by vitamin C (Python's
  `list.sort` is stable also with `reverse=True`) and the `[:5]` slice.
- `Pipeline` (`pipeline.dfy`): `generate_personalized_recommendations`. It
  takes the label list and the knowledge base as parameters.
- `Validation` (`validation.dfy`): the body checks, the profile built from
  the body and the response of `submit_profile`. The endpoint is modelled
  twice: as written, and with the corrected age check (see "## Findings").
- `Scenarios` (`scenarios.dfy`): worked single-fruit and two-fruit cases.

Numbers in the source are Python floats compared with integer constants.
The model uses `real`, which is exact for every comparison the core makes.

## Model

| member | source | states |
|---|---|---|
| Text.ReplaceAbsent | app.py:174 | `str.replace` leaves a string without the pattern unchanged |
| Text.SplitJoin | app.py:353 | splitting a `join` at its separator gives back the parts, when no part contains the separator's first character |
| Text.TrimStart | app.py:117 | the left trim drops exactly the leading whitespace: what it removes is all whitespace and what remains does not start with whitespace |
| Text.TrimEnd | app.py:117 | the right trim drops exactly the trailing whitespace: what it removes is all whitespace and what remains does not end with whitespace |
| Text.Strip | app.py:117 | `strip()` returns a slice of its input with whitespace only around it and no whitespace at either end |
| Text.StripEmptyIff | app.py:117 | `strip()` gives the empty string if and only if the input is all whitespace, so a name is blank exactly when it holds nothing but whitespace |
| Catalog.OntologyNameKeepsOtherLabels | app.py:174 | a label that does not mention "Strawberry" is queried under its own name |
| Catalog.OntologyNameRoundTrip | app.py:174 | the "Strawberry"→"Stawberry" rewrite is reversible for any label not already containing "Stawberry", so two different such labels never query the same individual |
| Catalog.FruitNutritionFacts | app.py:171-203 | the lookup succeeds exactly when the knowledge base holds the rewritten name; the result carries the original label as its name and the stored sugar, calories and vitamin C unchanged |
| Rules.ConditionRejectionMeaning | app.py:261-270 | the condition loop rejects exactly when some listed condition's rule is violated, and the rule it reports is one of those |
| Rules.RejectionSound | app.py:239-297 | the rule the chain reports is violated by the fruit, and no violated rule belongs to an earlier stage (age, gender, conditions, diet, goal) |
| Rules.RejectionComplete | app.py:239-297 | a fruit that violates any rule of the table is rejected |
| Rules.PassesIffNoViolation | app.py:239-297 | a fruit is accepted if and only if it violates none of the eleven rules |
| Rules.AgeTiers | app.py:244-251 | over 60, sugar above 10 rejects, and sugar of exactly 10 is judged as for a 30-year-old; under 18, fewer than 40 calories rejects; any two ages from 18 to 60 give the same verdict |
| Rules.ConditionsRejectIndependently | app.py:261-270 | "Diabetes" with sugar above 8, "Hypertension" with calories above 60, and "Allergies" for a fruit named "Strawberry…" each reject, wherever the condition sits in the list |
| Rules.UnknownConditionIgnored | app.py:261-270 | inserting an unrecognised condition anywhere in the list changes neither the verdict nor the rule reported |
| Rules.ConditionsActAsSet | app.py:261-270 | lists holding the same conditions give the same verdict, whatever their order or repetitions |
| Rules.UnknownPreferenceNeutral | app.py:273-294 | a diet other than Keto, Vegan or Vegetarian, or a goal other than Weight Loss or Muscle Gain, judges like "None" |
| Rules.SugarMonotone | app.py:239-297 | with everything else fixed, more sugar can turn acceptance into rejection but never the reverse |
| Rules.VitaminCMonotone | app.py:239-297 | with everything else fixed, more vitamin C can turn rejection into acceptance but never the reverse |
| Explain.Clauses | app.py:330-348 | the reason clauses are exactly those whose condition holds, each once, in source order |
| Explain.Reason | app.py:328-353 | the reason sentence is never empty |
| Explain.WordingShape | app.py:332-351 | no clause contains a comma, and none starts like the fallback sentence |
| Explain.ReasonIsFallbackIff | app.py:350-353 | the reason is the fallback sentence if and only if no clause applies |
| Explain.ReasonSplitsIntoClauses | app.py:328-353 | splitting the reason at ", " gives back the applicable clauses in order, or the fallback alone |
| Explain.VitaminTag | app.py:359-362 | at most one vitamin C tag: "High" exactly above 20, "Good" exactly above 10 up to 20 |
| Explain.CalorieTag | app.py:364-367 | at most one calorie tag: "Low Calorie" exactly below 50, "Energy Rich" exactly above 70 |
| Explain.SugarTag | app.py:369-372 | at most one sugar tag: "Low Sugar" exactly below 6, "Natural Sugars" exactly above 12 |
| Explain.BenefitTags | app.py:355-377 | two to five tags, one nutrient after another in source order, always ending with Antioxidants and Fiber |
| Explain.BenefitTagThresholds | app.py:359-372 | each optional tag is present if and only if its threshold holds, for both arms of every if/elif |
| Explain.TagTextInjective | app.py:360-375 | the eight tag texts are pairwise distinct |
| Explain.BenefitsShape | app.py:374-377 | the returned list has two to five strings and ends with "Antioxidants", "Fiber" |
| Explain.BenefitsSpellTags | app.py:355-377 | a tag's text is returned if and only if the tag is due |
| Explain.AcceptedFruitReasons | app.py:288-294 | a fruit the rules accept for Weight Loss or Muscle Gain always gets that goal's clause, so its reason is never the fallback; Vegan and Vegetarian always get the plant-based clause |
| Ranking.Insert | app.py:319 | inserting into a list sorted by vitamin C keeps it sorted and adds exactly the one entry |
| Ranking.SortByVitaminC | app.py:319 | the result is ordered by vitamin C, largest first, and is a permutation of the input |
| Ranking.InsertWithKey | app.py:319 | the inserted entry goes in front of the entries that share its vitamin C value, and every other value's entries keep their order |
| Ranking.SortIsStable | app.py:319 | for every vitamin C value, the sorted list lists that value's entries in input order |
| Ranking.SortedListsWithSameKeysAreEqual | app.py:319 | two sorted lists with the same entries per value, in the same order, are equal |
| Ranking.StableSortUnique | app.py:319 | any list that is sorted and keeps each value's input order is the sort's result: the sort is pinned down by its specification |
| Ranking.SortTwo | app.py:319 | of two entries the one with more vitamin C comes first, and on a tie they keep their order |
| Ranking.Take | app.py:322 | `[:n]` keeps the first min(n, length) entries |
| Ranking.WithKeyOfPrefix | app.py:319-322 | cutting a list keeps, for every value, a prefix of that value's entries |
| Pipeline.ResolveContents | app.py:205-213 | the fruit list holds exactly the looked-up facts of the labels whose lookup succeeds |
| Pipeline.AdmitContents | app.py:299-314 | the records built are exactly those of the fruits the rules accept |
| Pipeline.CandidatesContents | app.py:205-214 | a record is a candidate if and only if it is built from a label whose lookup succeeds and whose fruit is accepted |
| Pipeline.CandidatesComeFromLabels | app.py:205-214 | every candidate is the record built from some label that resolves and passes the rules |
| Pipeline.QualifyingLabelsAreCandidates | app.py:205-214 | every label that resolves and passes the rules contributes its record to the candidates |
| Pipeline.TwoCandidates | app.py:209-214 | two qualifying labels give their two records, in label order |
| Pipeline.CandidatesInLabelOrder | app.py:209-214 | candidates follow label order: those of two label lists are the first list's then the second's; one label yields its record or nothing |
| Pipeline.RecommendationCount | app.py:322 | at most five recommendations; exactly min(5, candidates); when at most five fruits qualify, all of them are returned |
| Pipeline.RecommendationsSorted | app.py:319 | recommendations are ordered by vitamin C, largest first |
| Pipeline.RecommendationsStable | app.py:319-322 | for every vitamin C value, the recommendations with that value are the first such candidates, in label order |
| Pipeline.RecommendationsProvenance | app.py:304-313 | every recommendation comes from a label that resolves and passes the rules; it is named by that label and carries the stored facts unchanged |
| Pipeline.UnresolvedLabelsNeverRecommended | app.py:209-212 | a label the knowledge base cannot resolve never names a recommendation |
| Pipeline.TruncationKeepsLargest | app.py:319-322 | a candidate left out has no more vitamin C than any recommendation kept |
| Pipeline.NothingQualifiesMeansEmpty | app.py:206-322 | when no label both resolves and passes, the result is the empty list rather than an error |
| Pipeline.TwoLabelRanking | app.py:319-322 | two qualifying labels come out richer-in-vitamin-C first, and in label order on a tie |
| Pipeline.DiabetesCapsSugar | app.py:261-264 | no recommendation made to a profile listing "Diabetes" has more than 8 g of sugar |
| Validation.RefusalStatus | app.py:113-163 | an empty body is refused as "No profile data"; an object body is only ever refused with status 400; status 500 comes only from a truthy body that is not an object, and always from a truthy number or boolean body |
| Validation.GetLastBinding | app.py:124-129 | `get` finds a value exactly when the key is present, and it is the last binding of that key |
| Validation.NonObjectNameCheck | app.py:117 | a truthy body that is not an object is refused: number and boolean bodies make the membership test raise |
| Validation.CheckBody | app.py:113-118 | the empty-body and name checks pass exactly for a truthy object whose name is present and not blank |
| Validation.ValidateProfileAsWritten | app.py:120-121 | the age check as written accepts only bodies that pass the name checks, returns only positive ages, and takes the age from a JSON integer or from `true` as 1 |
| Validation.ValidateProfile | app.py:120-121 | the intended age check accepts only a JSON integer above zero, and agrees with the check as written wherever it accepts |
| Validation.ValidateProfileAccepts | app.py:113-121 | with the corrected age check, a body is accepted with age a if and only if it is a non-empty object with a non-blank name and integer age a > 0 |
| Validation.ValidateProfileErrorOrder | app.py:113-121 | with the corrected age check, a falsy body is exactly the "No profile data" case; a missing name is reported before any age problem; an age error implies the name checks passed |
| Validation.AgeCorrectionOnlyAffectsBooleans | app.py:120 | the intended and the as-written age checks agree unless the age is a boolean |
| Validation.BooleanAgeAcceptedAsWritten | app.py:120 | `"age": true` is accepted as age 1 by the check as written and refused by the intended one |
| Validation.TextOr | app.py:126-128 | an absent text field takes its default, and a string field is used as given |
| Validation.StringsMembers | app.py:129 | a condition is listed exactly when the JSON list holds it as a string |
| Validation.ProfileOf | app.py:124-139 | the profile passed to the engine carries the validated age; each of `gender`, `fitnessGoal`, `dietaryPreference` and `healthConditions` takes its own default ("Female", "None", "None", none) when absent; string text fields are used as given; the conditions are exactly the strings in the body's `healthConditions` list |
| Validation.ProfileDefaults | app.py:126-129 | a body with none of the four optional keys gets gender "Female", goal "None", diet "None" and no conditions |
| Validation.SubmitProfileAsWrittenOutcome | app.py:105-163 | the endpoint as written succeeds exactly when its checks do; it then carries the submitted non-blank name, the profile built from the body with the validated age (1 for `true`), and the engine's recommendations for it (at most five); otherwise it returns the check's error |
| Validation.SubmitProfileOutcome | app.py:105-163 | with the corrected age check, a submission succeeds exactly when validation does; it then carries the submitted name, the body's positive integer age, and the engine's recommendations for the built profile (at most five), and otherwise the validation error |
| Validation.SubmitProfilesAgree | app.py:120 | the endpoint as written and the corrected one give the same response wherever the corrected one accepts, and for every object body whose age is not a boolean |
| Validation.DiabeticSubmissionCapsSugar | app.py:124-140 | a submission whose `healthConditions` list holds "Diabetes" is never recommended a fruit with more than 8 g of sugar |
| Scenarios.SeniorSugarBoundary | app.py:244-247 | a 70-year-old is refused a banana with sugar 15 by the senior rule, but sugar exactly 10 is accepted |
| Scenarios.VeganOrangeAccepted | app.py:254-285 | a ripe orange passes every rule for a 25-year-old vegan woman |
| Scenarios.RipeOrangeBenefits | app.py:355-377 | a ripe orange is tagged "High Vitamin C", "Low Calorie", "Antioxidants", "Fiber", in that order |
| Scenarios.RipeOrangeClauses | app.py:330-348 | a ripe orange is explained to a young vegan woman by the women's-health clause and then the plant-based clause |
| Scenarios.DiabeticMango | app.py:262-264 | an overripe mango with sugar 16 is refused to a diabetic by the diabetes rule |
| Scenarios.NoDataNoRecommendations | app.py:206-322 | no labels, or a knowledge base that knows none of them, yields an empty list |
| Scenarios.StrawberryLookup | app.py:174-195 | "Strawberry_Overripe" is found under "Stawberry_Overripe" and reported under its own name |
| Scenarios.TieKeepsLabelOrder | app.py:319-322 | two fruits tied at vitamin C 40 come out in label order |

## Left out

- Flask routing, JSON encoding of the response, the `/predict` and nutrition endpoints, and the TFLite classifier: these are I/O or foreign code.
- Loading the label file at start-up: the labels are a parameter of `Pipeline.Recommend`.
- SPARQL against the rdflib graph: the knowledge base is an abstract lookup from an individual's name to its facts.
- Catalog.FruitNutrition: a query that raises is folded into the lookup returning nothing. The choice of the first result row and the `float(str(...))` conversion are also part of the lookup.
- Floating point (NaN, infinities, rounding) is not modelled; values are exact reals. The `float(str(...))` conversion also accepts "inf" and "nan", which have no `real` counterpart.
- The `except` around the whole engine, which returns `[]`, is not modelled. The modelled engine has no failing step; only the ill-typed inputs below could reach it.
- Logging of each verdict and of the query: these are outputs with no effect.
- The nutrition table commented out in the engine is never used by the source. Six of its rows appear, with its values, only as test data in `Scenarios`: two form the two-fruit knowledge base and four more are single-fruit cases.
- Validation.TextOr: a non-string `gender`, `fitnessGoal` or `dietaryPreference` (null, a number, a list) becomes the empty string. The rules compare these fields only for equality with fixed words, so the verdicts, reasons and tags are the same. The value echoed back in the response is not modelled.
- Validation.Conditions: a `healthConditions` value other than a list is treated as an empty list. In the source, a string would be searched character by character in the rules but as a substring in the reason; an object's keys act as the listed conditions, so `{"Diabetes": true}` behaves like `["Diabetes"]`; and null, a number or a boolean would make the loop raise, so the engine returns `[]`.
- Validation.SubmitProfile: the echoed profile, the success message text and the error message texts are not modelled; errors are the `ProfileError` values.
- Validation.SubmitProfileOutcome: describes the endpoint with the corrected age check, which refuses `"age": true`; the source's behaviour, which accepts it as age 1, is stated by Validation.SubmitProfileAsWrittenOutcome.
- A request with no JSON body at all (wrong content type) is not modelled; the body is always a decoded JSON value.
- `lib/test_simple.py` is a separate stub Flask server whose `/` and `/api/profile` routes return constant messages; it does not reach the engine.

## Findings

| source | as written | input that shows it | evidently intended | confidence | as-written member | corrected member |
|---|---|---|---|---|---|---|
| app.py:120 | `isinstance(age, int)` is also true for JSON booleans, which compare as 1 and 0 | `{"name": "Ann", "age": true}` is accepted as a 1-year-old | "age must be a positive number" refuses booleans | high, not executed | Validation.BooleanAgeAcceptedAsWritten | Validation.ValidateProfile |
