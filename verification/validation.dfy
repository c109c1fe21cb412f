/** `submit_profile` (app.py:105-163): the checks it applies to the posted
    JSON body, the profile it builds from the body, and its response. The
    body is the decoded JSON value; duplicate object keys keep
    their last binding, as Python's `json` module does. */
module Validation {
  import opened Wrappers
  import opened Text
  import opened Catalog
  import Pipeline

  /** A decoded JSON value. Objects keep their key/value pairs in order. */
  datatype Json =
    | JNull
    | JBool(b: bool)
    | JInt(i: int)
    | JFloat(x: real)
    | JString(s: string)
    | JList(items: seq<Json>)
    | JObject(fields: seq<(string, Json)>)

  /** Python's truth value of a decoded JSON value (`if not profile_data`). */
  predicate Truthy(j: Json) {
    match j
    case JNull => false
    case JBool(b) => b
    case JInt(i) => i != 0
    case JFloat(x) => x != 0.0
    case JString(s) => |s| > 0
    case JList(items) => |items| > 0
    case JObject(fields) => |fields| > 0
  }

  /** The ways `submit_profile` refuses a body. `ServerError` is the
      catch-all for a body whose shape makes a check raise. */
  datatype ProfileError = NoProfileData | NameRequired | AgeNotPositive | ServerError

  /** The HTTP status returned with the error. */
  function Status(e: ProfileError): (code: nat) {
    if e == ServerError then 500 else 400
  }

  /** Whether an object binds `key`. */
  predicate HasKey(fields: seq<(string, Json)>, key: string) {
    exists i | 0 <= i < |fields| :: fields[i].0 == key
  }

  /** `profile_data.get(key)`: the value of the last pair with that key. */
  function Get(fields: seq<(string, Json)>, key: string): (r: Option<Json>)
    decreases |fields|
  {
    if |fields| == 0 then None
    else if fields[|fields| - 1].0 == key then Some(fields[|fields| - 1].1)
    else Get(fields[..|fields| - 1], key)
  }

  /** `Get` finds a value exactly when the key is bound, and the value it
      finds is the one bound by the last pair with that key. */
  lemma {:induction false} GetLastBinding(fields: seq<(string, Json)>, key: string)
    ensures Get(fields, key).Some? <==> HasKey(fields, key)
    ensures Get(fields, key).Some? ==>
      exists i | 0 <= i < |fields| ::
        && fields[i] == (key, Get(fields, key).value)
        && forall k | i < k < |fields| :: fields[k].0 != key
    decreases |fields|
  {
    if |fields| > 0 {
      var n := |fields| - 1;
      var init := fields[..n];
      if fields[n].0 != key {
        GetLastBinding(init, key);
        assert forall k | 0 <= k < n :: init[k] == fields[k];
        if HasKey(fields, key) {
          var i :| 0 <= i < |fields| && fields[i].0 == key;
          assert init[i].0 == key;
        }
      } else {
        assert fields[n] == (key, Get(fields, key).value);
      }
    }
  }

  /** `not str(value).strip()`: only a string of whitespace is blank; every
      other JSON value prints as a non-empty word. */
  predicate NameBlank(v: Json) {
    match v
    case JString(s) => Strip(s) == ""
    case _ => false
  }

  /** The name check on a truthy body that is not an object: `'name' in body`
      tests list membership or substring, and indexing such a body with
      `'name'` raises. */
  function NonObjectNameCheck(body: Json): (e: ProfileError)
    requires Truthy(body) && !body.JObject?
    ensures e == NameRequired || e == ServerError
    ensures body.JInt? || body.JFloat? || body.JBool? ==> e == ServerError
  {
    match body
    case JList(items) => if JString("name") in items then ServerError else NameRequired
    case JString(s) => if Contains(s, "name") then ServerError else NameRequired
    case _ => ServerError
  }

  /** The checks before the age check (app.py:113-118): a truthy object
      whose `name` is present and not blank passes them with its fields. */
  function CheckBody(body: Json): (r: Result<seq<(string, Json)>, ProfileError>)
    ensures r.Success? <==>
      && body.JObject? && Truthy(body)
      && Get(body.fields, "name").Some? && !NameBlank(Get(body.fields, "name").value)
    ensures r.Success? ==> r.value == body.fields
  {
    if !Truthy(body) then Failure(NoProfileData)
    else if !body.JObject? then Failure(NonObjectNameCheck(body))
    else match Get(body.fields, "name")
      case None => Failure(NameRequired)
      case Some(v) => if NameBlank(v) then Failure(NameRequired) else Success(body.fields)
  }

  /** The age the source's check sees: `isinstance(age, int)` also holds
      for `True` and `False`, which compare as 1 and 0. */
  function AgeAsWritten(v: Json): Option<int> {
    match v
    case JInt(i) => Some(i)
    case JBool(b) => Some(if b then 1 else 0)
    case _ => None
  }

  /** The age check as written (app.py:120-121). */
  function ValidateProfileAsWritten(body: Json): (r: Result<int, ProfileError>)
    ensures r.Success? ==> r.value > 0 && CheckBody(body).Success?
    ensures r.Success? ==>
      || Get(body.fields, "age") == Some(JInt(r.value))
      || (r.value == 1 && Get(body.fields, "age") == Some(JBool(true)))
  {
    match CheckBody(body)
    case Failure(e) => Failure(e)
    case Success(fields) =>
      match Get(fields, "age")
      case None => Failure(AgeNotPositive)
      case Some(v) =>
        match AgeAsWritten(v)
        case Some(a) => if a <= 0 then Failure(AgeNotPositive) else Success(a)
        case None => Failure(AgeNotPositive)
  }

  /** The age check as intended: the age must be a JSON integer above zero. */
  function ValidateProfile(body: Json): (r: Result<int, ProfileError>)
    ensures r.Success? ==> body.JObject? && Get(body.fields, "age") == Some(JInt(r.value)) && r.value > 0
    ensures r.Success? ==> ValidateProfileAsWritten(body) == r && CheckBody(body).Success?
  {
    match CheckBody(body)
    case Failure(e) => Failure(e)
    case Success(fields) =>
      match Get(fields, "age")
      case Some(JInt(a)) => if a <= 0 then Failure(AgeNotPositive) else Success(a)
      case _ => Failure(AgeNotPositive)
  }

  /** A body is accepted exactly when it is a non-empty object with a
      non-blank name and a positive integer age; the age is returned. */
  lemma ValidateProfileAccepts(body: Json, a: int)
    ensures ValidateProfile(body) == Success(a) <==>
      && body.JObject? && Truthy(body)
      && HasKey(body.fields, "name") && Get(body.fields, "name").Some?
      && !NameBlank(Get(body.fields, "name").value)
      && Get(body.fields, "age") == Some(JInt(a)) && a > 0
  {
    if body.JObject? {
      GetLastBinding(body.fields, "name");
    }
  }

  /** The checks run in order: an empty body is reported before a missing
      name, and a missing name before a bad age. */
  lemma ValidateProfileErrorOrder(body: Json)
    ensures !Truthy(body) <==> ValidateProfile(body) == Failure(NoProfileData)
    ensures ValidateProfile(body) == Failure(AgeNotPositive) ==> CheckBody(body).Success?
    ensures body.JObject? && Truthy(body) && !HasKey(body.fields, "name") ==>
      ValidateProfile(body) == Failure(NameRequired)
    ensures ValidateProfile(body) == Failure(ServerError) ==> !body.JObject?
  {
    if body.JObject? {
      GetLastBinding(body.fields, "name");
    }
  }

  /** The two age checks differ only on a boolean age. */
  lemma AgeCorrectionOnlyAffectsBooleans(body: Json)
    requires body.JObject? ==> !(Get(body.fields, "age").Some? && Get(body.fields, "age").value.JBool?)
    ensures ValidateProfileAsWritten(body) == ValidateProfile(body)
  {
  }

  /** A body naming "Ann" whose age is the JSON literal `true`. */
  const BooleanAgeBody := JObject([("name", JString("Ann")), ("age", JBool(true))])

  /** The discrepancy: `"age": true` is accepted as age 1 by the check as
      written and refused by the intended one. */
  lemma BooleanAgeAcceptedAsWritten()
    ensures ValidateProfileAsWritten(BooleanAgeBody) == Success(1)
    ensures ValidateProfile(BooleanAgeBody) == Failure(AgeNotPositive)
  {
    BooleanAgeBodyPassesNameCheck();
    BooleanAgeBodyAge();
    AgeChecksOnBooleanTrue(BooleanAgeBody);
  }

  lemma BooleanAgeBodyAge()
    ensures Get(BooleanAgeBody.fields, "age") == Some(JBool(true))
  {
  }

  /** Once the name checks pass, an age of `true` is age 1 as written and an
      error as intended. */
  lemma AgeChecksOnBooleanTrue(body: Json)
    requires CheckBody(body).Success?
    requires Get(CheckBody(body).value, "age") == Some(JBool(true))
    ensures ValidateProfileAsWritten(body) == Success(1)
    ensures ValidateProfile(body) == Failure(AgeNotPositive)
  {
  }

  lemma BooleanAgeBodyPassesNameCheck()
    ensures CheckBody(BooleanAgeBody) == Success(BooleanAgeBody.fields)
  {
    BooleanAgeBodyName();
    NameAnnNotBlank();
    NameCheckPasses(BooleanAgeBody, JString("Ann"));
  }

  /** A non-empty object whose name is bound to a non-blank value passes the
      name checks. */
  lemma NameCheckPasses(body: Json, name: Json)
    requires body.JObject? && Truthy(body)
    requires Get(body.fields, "name") == Some(name) && !NameBlank(name)
    ensures CheckBody(body) == Success(body.fields)
  {
  }

  lemma BooleanAgeBodyName()
    ensures Get(BooleanAgeBody.fields, "name") == Some(JString("Ann"))
  {
    assert BooleanAgeBody.fields[..1] == [("name", JString("Ann"))];
  }

  lemma NameAnnNotBlank()
    ensures !NameBlank(JString("Ann"))
  {
    assert "Ann"[0] == 'A';
    assert !AllSpace("Ann");
    StripEmptyIff("Ann");
  }

  /** `profile_data.get(key, default)` for the text fields. A non-string
      value compares unequal to every word the rules test, as the empty
      string does. */
  function TextOr(v: Option<Json>, default: string): (r: string)
    ensures v.None? ==> r == default
    ensures v.Some? && v.value.JString? ==> r == v.value.s
  {
    match v
    case None => default
    case Some(JString(s)) => s
    case Some(_) => ""
  }

  /** The strings of a JSON list, in order; other elements never equal a
      condition name. */
  function Strings(items: seq<Json>): (r: seq<string>)
    decreases |items|
  {
    if |items| == 0 then []
    else (if items[0].JString? then [items[0].s] else []) + Strings(items[1..])
  }

  /** A condition name is listed exactly when the JSON list holds it. */
  lemma {:induction false} StringsMembers(items: seq<Json>, c: string)
    ensures c in Strings(items) <==> JString(c) in items
    decreases |items|
  {
    if |items| > 0 {
      StringsMembers(items[1..], c);
      assert items == [items[0]] + items[1..];
    }
  }

  /** `profile_data.get('healthConditions', [])`. */
  function Conditions(v: Option<Json>): (r: seq<string>)
    ensures forall c :: c in r <==> v.Some? && v.value.JList? && JString(c) in v.value.items
  {
    match v
    case Some(JList(items)) =>
      assert forall c :: c in Strings(items) <==> JString(c) in items by {
        forall c
          ensures c in Strings(items) <==> JString(c) in items
        {
          StringsMembers(items, c);
        }
      }
      Strings(items)
    case _ => []
  }

  /** The profile handed to the recommendation engine (app.py:124-139). */
  function ProfileOf(fields: seq<(string, Json)>, age: int): (p: Profile)
    ensures p.age == age
    ensures Get(fields, "gender").Some? && Get(fields, "gender").value.JString? ==>
      p.gender == Get(fields, "gender").value.s
    ensures Get(fields, "fitnessGoal").Some? && Get(fields, "fitnessGoal").value.JString? ==>
      p.fitnessGoal == Get(fields, "fitnessGoal").value.s
    ensures Get(fields, "dietaryPreference").Some? && Get(fields, "dietaryPreference").value.JString? ==>
      p.dietaryPreference == Get(fields, "dietaryPreference").value.s
    ensures forall c :: c in p.healthConditions <==>
      && Get(fields, "healthConditions").Some? && Get(fields, "healthConditions").value.JList?
      && JString(c) in Get(fields, "healthConditions").value.items
    ensures Get(fields, "gender").None? ==> p.gender == "Female"
    ensures Get(fields, "fitnessGoal").None? ==> p.fitnessGoal == "None"
    ensures Get(fields, "dietaryPreference").None? ==> p.dietaryPreference == "None"
    ensures Get(fields, "healthConditions").None? ==> p.healthConditions == []
  {
    Profile(
      age,
      TextOr(Get(fields, "gender"), "Female"),
      TextOr(Get(fields, "fitnessGoal"), "None"),
      TextOr(Get(fields, "dietaryPreference"), "None"),
      Conditions(Get(fields, "healthConditions")))
  }

  /** A body without any of the four optional keys gets all four defaults;
      each key alone is defaulted by `ProfileOf`'s own contract. */
  lemma ProfileDefaults(fields: seq<(string, Json)>, age: int)
    requires !HasKey(fields, "gender") && !HasKey(fields, "fitnessGoal")
    requires !HasKey(fields, "dietaryPreference") && !HasKey(fields, "healthConditions")
    ensures ProfileOf(fields, age) == Profile(age, "Female", "None", "None", [])
  {
    GetLastBinding(fields, "gender");
    GetLastBinding(fields, "fitnessGoal");
    GetLastBinding(fields, "dietaryPreference");
    GetLastBinding(fields, "healthConditions");
  }

  /** The successful response: the submitted name, the profile used, and the
      recommendations for it. */
  datatype Submission = Submission(name: Json, profile: Profile, recommendations: seq<Recommendation>)

  /** The response to a body whose checks gave `checked`: the refusal, or
      the submitted name, the profile built and its recommendations. */
  function Submit(checked: Result<int, ProfileError>, body: Json, labels: seq<string>, kb: Lookup): Result<Submission, ProfileError>
    requires checked.Success? ==> CheckBody(body).Success?
  {
    match checked
    case Failure(e) => Failure(e)
    case Success(age) =>
      var p := ProfileOf(body.fields, age);
      Success(Submission(Get(body.fields, "name").value, p, Pipeline.Recommend(labels, kb, p)))
  }

  /** `submit_profile` as written, for the classifier labels `labels` and
      the knowledge base `kb`. An age of `true` reaches the engine as 1. */
  function SubmitProfileAsWritten(body: Json, labels: seq<string>, kb: Lookup): Result<Submission, ProfileError> {
    Submit(ValidateProfileAsWritten(body), body, labels, kb)
  }

  /** `submit_profile` with the intended age check. */
  function SubmitProfile(body: Json, labels: seq<string>, kb: Lookup): Result<Submission, ProfileError> {
    Submit(ValidateProfile(body), body, labels, kb)
  }

  /** The endpoint as written accepts exactly what its checks accept, and
      hands the engine the validated age (1 for `true`), the body's own
      text fields and conditions, and returns at most five
      recommendations. */
  lemma SubmitProfileAsWrittenOutcome(body: Json, labels: seq<string>, kb: Lookup)
    ensures SubmitProfileAsWritten(body, labels, kb).Success? <==> ValidateProfileAsWritten(body).Success?
    ensures ValidateProfileAsWritten(body).Failure? ==>
      SubmitProfileAsWritten(body, labels, kb) == Failure(ValidateProfileAsWritten(body).error)
    ensures SubmitProfileAsWritten(body, labels, kb).Success? ==>
      var sub := SubmitProfileAsWritten(body, labels, kb).value;
      && body.JObject?
      && sub.profile == ProfileOf(body.fields, ValidateProfileAsWritten(body).value)
      && sub.profile.age > 0
      && Get(body.fields, "name") == Some(sub.name)
      && !NameBlank(sub.name)
      && sub.recommendations == Pipeline.Recommend(labels, kb, sub.profile)
      && |sub.recommendations| <= Pipeline.MaxRecommendations
  {
    if ValidateProfileAsWritten(body).Success? {
      var p := ProfileOf(body.fields, ValidateProfileAsWritten(body).value);
      Pipeline.RecommendationCount(labels, kb, p);
    }
  }

  /** The two endpoints give the same response unless the age is a JSON
      boolean; where the intended one accepts, the one as written gives the
      same response. */
  lemma SubmitProfilesAgree(body: Json, labels: seq<string>, kb: Lookup)
    ensures ValidateProfile(body).Success? ==>
      SubmitProfileAsWritten(body, labels, kb) == SubmitProfile(body, labels, kb)
    ensures body.JObject? ==> !(Get(body.fields, "age").Some? && Get(body.fields, "age").value.JBool?) ==>
      SubmitProfileAsWritten(body, labels, kb) == SubmitProfile(body, labels, kb)
  {
    if body.JObject? && !(Get(body.fields, "age").Some? && Get(body.fields, "age").value.JBool?) {
      AgeCorrectionOnlyAffectsBooleans(body);
    } else if !body.JObject? {
      AgeCorrectionOnlyAffectsBooleans(body);
    }
  }

  /** Refusals of the endpoint as written: an empty body is "No profile
      data"; an object body is only ever refused with status 400; status
      500 comes only from a truthy body that is not an object, and always
      from a truthy number or boolean body. */
  lemma RefusalStatus(body: Json, labels: seq<string>, kb: Lookup)
    ensures !Truthy(body) ==> SubmitProfileAsWritten(body, labels, kb) == Failure(NoProfileData)
    ensures body.JObject? && SubmitProfileAsWritten(body, labels, kb).Failure? ==>
      Status(SubmitProfileAsWritten(body, labels, kb).error) == 400
    ensures (SubmitProfileAsWritten(body, labels, kb).Failure? &&
      Status(SubmitProfileAsWritten(body, labels, kb).error) == 500) ==> Truthy(body) && !body.JObject?
    ensures Truthy(body) && (body.JInt? || body.JFloat? || body.JBool?) ==>
      SubmitProfileAsWritten(body, labels, kb).Failure? &&
      Status(SubmitProfileAsWritten(body, labels, kb).error) == 500
  {
  }

  /** A submission listing "Diabetes" among its conditions is never
      recommended a fruit with more than 8 g of sugar. */
  lemma DiabeticSubmissionCapsSugar(body: Json, labels: seq<string>, kb: Lookup)
    ensures
      && SubmitProfileAsWritten(body, labels, kb).Success?
      && Get(body.fields, "healthConditions").Some? && Get(body.fields, "healthConditions").value.JList?
      && JString("Diabetes") in Get(body.fields, "healthConditions").value.items
      ==> forall e | e in SubmitProfileAsWritten(body, labels, kb).value.recommendations :: e.nutrition.sugar <= 8.0
  {
    if SubmitProfileAsWritten(body, labels, kb).Success? {
      var p := SubmitProfileAsWritten(body, labels, kb).value.profile;
      Pipeline.DiabetesCapsSugar(labels, kb, p);
    }
  }

  /** A submission succeeds exactly when validation does, and then carries
      the validated positive age, the submitted name, and the engine's
      recommendations for the built profile. */
  lemma SubmitProfileOutcome(body: Json, labels: seq<string>, kb: Lookup)
    ensures SubmitProfile(body, labels, kb).Success? <==> ValidateProfile(body).Success?
    ensures ValidateProfile(body).Failure? ==>
      SubmitProfile(body, labels, kb) == Failure(ValidateProfile(body).error)
    ensures SubmitProfile(body, labels, kb).Success? ==>
      var sub := SubmitProfile(body, labels, kb).value;
      && body.JObject?
      && Get(body.fields, "age") == Some(JInt(sub.profile.age))
      && sub.profile.age > 0
      && Get(body.fields, "name") == Some(sub.name)
      && !NameBlank(sub.name)
      && sub.recommendations == Pipeline.Recommend(labels, kb, sub.profile)
      && |sub.recommendations| <= Pipeline.MaxRecommendations
  {
    if ValidateProfile(body).Success? {
      var p := ProfileOf(body.fields, ValidateProfile(body).value);
      Pipeline.RecommendationCount(labels, kb, p);
      GetLastBinding(body.fields, "name");
    }
  }
}
