/**
 * The education input validator: it normalises the four required fields of a
 * request body and reports one error message for each that ends up empty.
 *
 * `isEmpty` is the project's own helper module, which is not part of this model,
 * so it is a parameter: any predicate on strings. The `validator` package's
 * `isEmpty(s)` is `|s| == 0`.
 */
module EducationValidation {
  import opened Common

  const School := "school"
  const Degree := "degree"
  const FieldOfStudy := "field_of_study"
  const From := "from"

  /** The fields the validator checks; every other field of the body is ignored. */
  const Required: set<string> := {School, Degree, FieldOfStudy, From}

  /** The message reported for each required field. */
  function Message(field: string): string
  {
    if field == School then "School is invalid"
    else if field == Degree then "Degree is invalid"
    else if field == FieldOfStudy then "Field of Study is invalid"
    else "From is invalid"
  }

  /** `Validator.isEmpty` of the `validator` package with its default options. */
  predicate ValidatorIsEmpty(s: string)
  {
    |s| == 0
  }

  /** One normalisation step: an absent or `isEmpty` field becomes '', any other value stays. */
  function NormaliseField(isEmpty: string -> bool, data: Bag, field: string): Bag
  {
    data[field := if field in data && !isEmpty(data[field]) then data[field] else ""]
  }

  /** The body after the four assignments at the top of the validator, which the caller then sees. */
  function Normalise(isEmpty: string -> bool, data: Bag): (d: Bag)
    ensures forall k :: k in Required ==> k in d
    ensures forall k :: k in Required && k in data && !isEmpty(data[k]) ==> d[k] == data[k]
    ensures forall k :: k in Required && (k !in data || isEmpty(data[k])) ==> d[k] == ""
    ensures forall k :: k !in Required ==> (k in d <==> k in data)
    ensures forall k :: k !in Required && k in data ==> d[k] == data[k]
  {
    var d1 := NormaliseField(isEmpty, data, School);
    var d2 := NormaliseField(isEmpty, d1, Degree);
    var d3 := NormaliseField(isEmpty, d2, FieldOfStudy);
    NormaliseField(isEmpty, d3, From)
  }

  /** Adds the field's message when its normalised value is empty by `Validator.isEmpty`. */
  function Check(errors: Errors, d: Bag, field: string): Errors
    requires field in d
  {
    if ValidatorIsEmpty(d[field]) then errors[field := Message(field)] else errors
  }

  /** Independent statement of acceptance: every required field is present, not `isEmpty`, and non-empty. */
  ghost predicate Acceptable(isEmpty: string -> bool, data: Bag)
  {
    forall k :: k in Required ==> k in data && !isEmpty(data[k]) && data[k] != ""
  }

  /** The four checks in source order, on an already normalised body. */
  function CheckAll(d: Bag): Errors
    requires forall k :: k in Required ==> k in d
  {
    var e1 := Check(map[], d, School);
    var e2 := Check(e1, d, Degree);
    var e3 := Check(e2, d, FieldOfStudy);
    Check(e3, d, From)
  }

  /** The four checks record exactly the required fields that are empty, each with its message. */
  lemma CheckAllErrors(d: Bag)
    requires forall k :: k in Required ==> k in d
    ensures forall k :: k in CheckAll(d) ==> k in Required
    ensures forall k :: k in Required ==> (k in CheckAll(d) <==> d[k] == "")
    ensures forall k :: k in CheckAll(d) ==> CheckAll(d)[k] == Message(k)
  {
  }

  /** A required field normalises to '' exactly when the body fails `Acceptable` on it. */
  lemma NormalisedEmptyIffBlank(isEmpty: string -> bool, data: Bag)
    ensures (forall k :: k in Required ==> Normalise(isEmpty, data)[k] != "") <==> Acceptable(isEmpty, data)
  {
  }

  /** `validateEducationInput`: total on every body, and valid exactly when no error was recorded. */
  function ValidateEducation(isEmpty: string -> bool, data: Bag): (v: Validation)
    ensures forall k :: k in v.errors ==> k in Required
    ensures forall k :: k in Required ==> (k in v.errors <==> Normalise(isEmpty, data)[k] == "")
    ensures forall k :: k in v.errors ==> v.errors[k] == Message(k)
    ensures v.isValid <==> |v.errors| == 0
    ensures v.isValid <==> Acceptable(isEmpty, data)
  {
    var d := Normalise(isEmpty, data);
    var errors := CheckAll(d);
    CheckAllErrors(d);
    EmptyMapIffNoKey(errors);
    NormalisedEmptyIffBlank(isEmpty, data);
    Validation(errors, |errors| == 0)
  }

  /** A map has no entries exactly when no key is in it. */
  lemma EmptyMapIffNoKey(e: Errors)
    ensures |e| == 0 <==> forall k :: k !in e
  {
  }

  /** The per-field condition spelled out on the original body: an error iff absent, `isEmpty` or "". */
  lemma ErrorIffBlank(isEmpty: string -> bool, data: Bag, k: string)
    requires k in Required
    ensures k in ValidateEducation(isEmpty, data).errors <==>
              k !in data || isEmpty(data[k]) || data[k] == ""
  {
  }

  /** `to`, `current`, `description` and any other field never change the outcome. */
  lemma OtherFieldsIrrelevant(isEmpty: string -> bool, a: Bag, b: Bag)
    requires forall k :: k in Required ==> (k in a <==> k in b)
    requires forall k :: k in Required && k in a ==> a[k] == b[k]
    ensures ValidateEducation(isEmpty, a) == ValidateEducation(isEmpty, b)
  {
  }
}
