/**
 * The profile routes once the datastore has answered: the create-profile
 * decision with its skills split, adding experience and education entries, and
 * removing them by `indexOf` and `splice`. A profile that `findOne` did not
 * find arrives as `None`.
 */
module ProfileRoutes {
  import opened Common
  import opened JsArray
  import EducationValidation

  /** The identity the datastore gives an experience or education entry. */
  type EntryId = string

  datatype Experience = Experience(
    id: EntryId,
    title: Option<string>,
    company: Option<string>,
    location: Option<string>,
    from: Option<string>,
    to: Option<string>,
    current: Option<string>,
    description: Option<string>)

  datatype Education = Education(
    id: EntryId,
    school: Option<string>,
    degree: Option<string>,
    fieldofstudy: Option<string>,
    from: Option<string>,
    to: Option<string>,
    current: Option<string>,
    description: Option<string>)

  /** A profile document: its owner, the split skills, every other body field, and its entries. */
  datatype Profile = Profile(
    user: UserId,
    skills: Option<seq<string>>,
    fields: Bag,
    experience: seq<Experience>,
    education: seq<Education>)

  /** The error outcomes of the profile routes. */
  datatype ProfileError =
    | Invalid(errors: Errors) // 400 with the validator's errors
    | AlreadyExists(message: string) // 400 { errors: { status: 400, message } }
    | LookupFailed            // 404 with the caught error: the profile was null or the store failed
    | EntryNotExists          // 404: no entry has the id (only the corrected removals answer this)
    | Unhandled               // the promise rejects with no handler attached: no response is sent

  const AlreadyExistsMessage := "Profile already exists for this user"

  /** The HTTP status each error is sent with; `None` when no response is sent at all. */
  function Status(e: ProfileError): Option<int>
  {
    match e
    case Invalid(_) => Some(400)
    case AlreadyExists(_) => Some(400)
    case LookupFailed => Some(404)
    case EntryNotExists => Some(404)
    case Unhandled => None
  }

  /** The body's `skills`, split on ',' when it is defined. */
  function SplitSkills(body: Bag): (skills: Option<seq<string>>)
    ensures skills.None? <==> "skills" !in body
    ensures skills.Some? ==> Join(skills.value, ',') == body["skills"]
    ensures skills.Some? ==> |skills.value| >= 1
    ensures skills.Some? ==> forall i :: 0 <= i < |skills.value| ==> ',' !in skills.value[i]
  {
    if "skills" in body then Some(Split(body["skills"], ',')) else None
  }

  /**
   * POST /: validation first; then one profile per user. `body` is the
   * `profile` object of the request body, and `check` is the profile
   * validator's verdict on it. `existing` is the profile `findOne({ user })`
   * returned for the caller.
   */
  function CreateProfile(check: Validation, body: Bag, caller: UserId, existing: Option<Profile>)
    : (r: Result<Profile, ProfileError>)
    ensures !check.isValid ==> r == Err(Invalid(check.errors))
    ensures check.isValid && existing.Some? ==> r == Err(AlreadyExists(AlreadyExistsMessage))
    ensures r.Err? ==> Status(r.error) == Some(400)
    ensures r.Ok? <==> check.isValid && existing.None?
    ensures r.Ok? ==>
              && r.value.user == caller
              && r.value.skills == SplitSkills(body)
              && r.value.fields == body - {"user", "skills"}
              && |r.value.experience| == 0
              && |r.value.education| == 0
  {
    if !check.isValid then Err(Invalid(check.errors))
    else
      var skills := SplitSkills(body);
      match existing
      case Some(_) => Err(AlreadyExists(AlreadyExistsMessage))
      case None => Ok(Profile(caller, skills, body - {"user", "skills"}, [], []))
  }

  /** Whatever `user` the body carries, the created profile belongs to the caller. */
  lemma CreateIgnoresBodyUser(check: Validation, body: Bag, caller: UserId, existing: Option<Profile>, u: string)
    ensures CreateProfile(check, body["user" := u], caller, existing) == CreateProfile(check, body, caller, existing)
  {
    var b := body["user" := u];
    assert "skills" in b <==> "skills" in body;
    assert "skills" in body ==> b["skills"] == body["skills"];
    assert b - {"user", "skills"} == body - {"user", "skills"};
  }

  /** POST /experience: after the experience validator passes, the new entry goes first. */
  function AddExperience(check: Validation, profile: Option<Profile>, body: Bag, freshId: EntryId)
    : (r: Result<Profile, ProfileError>)
    ensures !check.isValid ==> r == Err(Invalid(check.errors))
    ensures check.isValid && profile.None? ==> r == Err(Unhandled)
    ensures r.Ok? <==> check.isValid && profile.Some?
    ensures r.Ok? ==>
              && |r.value.experience| == |profile.value.experience| + 1
              && r.value.experience[0] == Experience(freshId, Get(body, "title"), Get(body, "company"),
                                                     Get(body, "location"), Get(body, "from"), Get(body, "to"),
                                                     Get(body, "current"), Get(body, "description"))
              && r.value.experience[1..] == profile.value.experience
              && r.value.(experience := profile.value.experience) == profile.value
  {
    if !check.isValid then Err(Invalid(check.errors))
    else match profile
      case None => Err(Unhandled)
      case Some(p) =>
        var newExp := Experience(freshId, Get(body, "title"), Get(body, "company"), Get(body, "location"),
                                 Get(body, "from"), Get(body, "to"), Get(body, "current"), Get(body, "description"));
        Ok(p.(experience := [newExp] + p.experience))
  }

  /**
   * POST /education as written: the education validator runs on the body (and
   * normalises it in place), then the entry is built from the body, reading
   * `fieldofstudy` rather than the `field_of_study` that was validated.
   */
  function AddEducation(isEmpty: string -> bool, profile: Option<Profile>, body: Bag, freshId: EntryId)
    : (r: Result<Profile, ProfileError>)
    ensures var v := EducationValidation.ValidateEducation(isEmpty, body);
            && (!v.isValid ==> r == Err(Invalid(v.errors)))
            && (v.isValid && profile.None? ==> r == Err(Unhandled))
            && (r.Ok? <==> v.isValid && profile.Some?)
    ensures r.Ok? ==>
              && |r.value.education| == |profile.value.education| + 1
              && r.value.education[0] == Education(freshId, Get(body, "school"), Get(body, "degree"),
                                                   Get(body, "fieldofstudy"), Get(body, "from"), Get(body, "to"),
                                                   Get(body, "current"), Get(body, "description"))
              && r.value.education[1..] == profile.value.education
              && r.value.(education := profile.value.education) == profile.value
  {
    var v := EducationValidation.ValidateEducation(isEmpty, body);
    if !v.isValid then Err(Invalid(v.errors))
    else match profile
      case None => Err(Unhandled)
      case Some(p) =>
        var d := EducationValidation.Normalise(isEmpty, body);
        var newEdu := Education(freshId, Get(d, "school"), Get(d, "degree"), Get(d, "fieldofstudy"),
                                Get(d, "from"), Get(d, "to"), Get(d, "current"), Get(d, "description"));
        Ok(p.(education := [newEdu] + p.education))
  }

  /** A body that names the field `field_of_study`, as the validator demands, is stored without it. */
  lemma FieldOfStudyDropped(isEmpty: string -> bool, p: Profile, freshId: EntryId)
    requires !isEmpty("MIT") && !isEmpty("BSc") && !isEmpty("CS") && !isEmpty("2010")
    ensures var body := map["school" := "MIT", "degree" := "BSc", "field_of_study" := "CS", "from" := "2010"];
            var r := AddEducation(isEmpty, Some(p), body, freshId);
            r.Ok? && r.value.education[0].fieldofstudy.None?
  {
  }

  /** POST /education as evidently intended: the validated `field_of_study` is what gets stored. */
  function AddEducationIntended(isEmpty: string -> bool, profile: Option<Profile>, body: Bag, freshId: EntryId)
    : (r: Result<Profile, ProfileError>)
    ensures var v := EducationValidation.ValidateEducation(isEmpty, body);
            && (!v.isValid ==> r == Err(Invalid(v.errors)))
            && (r.Ok? <==> v.isValid && profile.Some?)
    ensures r.Ok? ==>
              && |r.value.education| == |profile.value.education| + 1
              && "field_of_study" in body
              && body["field_of_study"] != ""
              && r.value.education[0] == Education(freshId, Get(body, "school"), Get(body, "degree"),
                                                   Get(body, "field_of_study"), Get(body, "from"), Get(body, "to"),
                                                   Get(body, "current"), Get(body, "description"))
              && r.value.education[1..] == profile.value.education
              && r.value.(education := profile.value.education) == profile.value
  {
    var v := EducationValidation.ValidateEducation(isEmpty, body);
    if !v.isValid then Err(Invalid(v.errors))
    else match profile
      case None => Err(Unhandled)
      case Some(p) =>
        var d := EducationValidation.Normalise(isEmpty, body);
        var newEdu := Education(freshId, Get(d, "school"), Get(d, "degree"), Get(d, "field_of_study"),
                                Get(d, "from"), Get(d, "to"), Get(d, "current"), Get(d, "description"));
        Ok(p.(education := [newEdu] + p.education))
  }

  /** The identity of each experience entry, in order. */
  function ExperienceIds(entries: seq<Experience>): seq<EntryId>
  {
    Map(entries, (e: Experience) => e.id)
  }

  /** The identity of each education entry, in order. */
  function EducationIds(entries: seq<Education>): seq<EntryId>
  {
    Map(entries, (e: Education) => e.id)
  }

  /** The index search on a key that may be undefined: no id is undefined, so that finds nothing. */
  function IndexOfKey(ids: seq<string>, key: Option<string>): int
  {
    match key
    case None => -1
    case Some(k) => IndexOf(ids, k)
  }

  /**
   * Removal at the position the key's index search returns, as the delete
   * routes do it: a found key removes exactly its first entry; a key not found
   * gives -1, which removes the last entry, or nothing from an empty list.
   */
  function RemoveByKey<T>(entries: seq<T>, ids: seq<string>, key: Option<string>): (r: seq<T>)
    requires |ids| == |entries|
    ensures key.Some? && key.value in ids ==>
              exists i :: FirstAt(ids, key.value, i) && r == RemoveAt(entries, i)
    ensures (key.None? || key.value !in ids) && |entries| > 0 ==> r == entries[..|entries| - 1]
    ensures (key.None? || key.value !in ids) && |entries| == 0 ==> r == entries
  {
    var removeIndex := IndexOfKey(ids, key);
    SpliceMinusOne(entries);
    if removeIndex >= 0 then SpliceAtIndex(entries, removeIndex); SpliceOne(entries, removeIndex)
    else SpliceOne(entries, removeIndex)
  }

  /** Without an existence check, a well-formed id that no entry carries still removes the last entry. */
  lemma UnknownIdRemovesLastEntry<T>(entries: seq<T>, ids: seq<string>, key: string)
    requires |ids| == |entries| > 0
    requires key !in ids
    ensures RemoveByKey(entries, ids, Some(key)) == entries[..|entries| - 1]
    ensures |RemoveByKey(entries, ids, Some(key))| == |entries| - 1
  {
  }

  /**
   * DELETE /experience/:exp_id as written: the key is `req.param.exp_id`, a
   * property of the `req.param` method, which is always undefined; `expId`,
   * the URL's parameter, is never read.
   */
  function DeleteExperience(profile: Option<Profile>, expId: EntryId): (r: Result<Profile, ProfileError>)
    ensures profile.None? ==> r == Err(LookupFailed)
    ensures r.Ok? <==> profile.Some?
    ensures r.Ok? && |profile.value.experience| == 0 ==> r.value == profile.value
    ensures r.Ok? && |profile.value.experience| > 0 ==>
              r.value.experience == profile.value.experience[..|profile.value.experience| - 1]
    ensures r.Ok? ==> r.value.(experience := profile.value.experience) == profile.value
  {
    match profile
    case None => Err(LookupFailed)
    case Some(p) => Ok(p.(experience := RemoveByKey(p.experience, ExperienceIds(p.experience), None)))
  }

  /** Deleting the first of two experience entries by its id removes the second one instead. */
  lemma DeleteExperienceRemovesWrongEntry(p: Profile)
    requires |p.experience| == 2
    requires p.experience[0] != p.experience[1]
    ensures var r := DeleteExperience(Some(p), p.experience[0].id);
            r.Ok? && r.value.experience == [p.experience[0]]
  {
  }

  /**
   * DELETE /experience/:exp_id as evidently intended: the entry with the URL's id goes,
   * and only it; an id no entry carries is answered 404, as the comment route
   * does for an unknown comment.
   */
  function DeleteExperienceIntended(profile: Option<Profile>, expId: EntryId): (r: Result<Profile, ProfileError>)
    ensures profile.None? ==> r == Err(LookupFailed)
    ensures profile.Some? && expId !in ExperienceIds(profile.value.experience) ==> r == Err(EntryNotExists)
    ensures r.Err? ==> Status(r.error) == Some(404)
    ensures r.Ok? <==> profile.Some? && expId in ExperienceIds(profile.value.experience)
    ensures r.Ok? ==>
              forall i :: FirstAt(ExperienceIds(profile.value.experience), expId, i) ==>
                r.value.experience == RemoveAt(profile.value.experience, i)
    ensures r.Ok? ==> r.value.(experience := profile.value.experience) == profile.value
  {
    match profile
    case None => Err(LookupFailed)
    case Some(p) =>
      var ids := ExperienceIds(p.experience);
      if expId in ids then Ok(p.(experience := RemoveByKey(p.experience, ids, Some(expId))))
      else Err(EntryNotExists)
  }

  /**
   * DELETE /education/:edu_id as written: the key is `req.param.edu_id`,
   * always undefined, so `eduId` is never read.
   */
  function DeleteEducation(profile: Option<Profile>, eduId: EntryId): (r: Result<Profile, ProfileError>)
    ensures profile.None? ==> r == Err(LookupFailed)
    ensures r.Ok? <==> profile.Some?
    ensures r.Ok? && |profile.value.education| == 0 ==> r.value == profile.value
    ensures r.Ok? && |profile.value.education| > 0 ==>
              r.value.education == profile.value.education[..|profile.value.education| - 1]
    ensures r.Ok? ==> r.value.(education := profile.value.education) == profile.value
  {
    match profile
    case None => Err(LookupFailed)
    case Some(p) => Ok(p.(education := RemoveByKey(p.education, EducationIds(p.education), None)))
  }

  /** Deleting the first of two education entries by its id removes the second one instead. */
  lemma DeleteEducationRemovesWrongEntry(p: Profile)
    requires |p.education| == 2
    requires p.education[0] != p.education[1]
    ensures var r := DeleteEducation(Some(p), p.education[0].id);
            r.Ok? && r.value.education == [p.education[0]]
  {
  }

  /**
   * DELETE /education/:edu_id as evidently intended: the entry with the URL's id goes,
   * and only it; an id no entry carries is answered 404, as the comment route
   * does for an unknown comment.
   */
  function DeleteEducationIntended(profile: Option<Profile>, eduId: EntryId): (r: Result<Profile, ProfileError>)
    ensures profile.None? ==> r == Err(LookupFailed)
    ensures profile.Some? && eduId !in EducationIds(profile.value.education) ==> r == Err(EntryNotExists)
    ensures r.Err? ==> Status(r.error) == Some(404)
    ensures r.Ok? <==> profile.Some? && eduId in EducationIds(profile.value.education)
    ensures r.Ok? ==>
              forall i :: FirstAt(EducationIds(profile.value.education), eduId, i) ==>
                r.value.education == RemoveAt(profile.value.education, i)
    ensures r.Ok? ==> r.value.(education := profile.value.education) == profile.value
  {
    match profile
    case None => Err(LookupFailed)
    case Some(p) =>
      var ids := EducationIds(p.education);
      if eduId in ids then Ok(p.(education := RemoveByKey(p.education, ids, Some(eduId))))
      else Err(EntryNotExists)
  }

  /** Adding an experience entry with a new id and then deleting that id (as intended) gives back the profile. */
  lemma AddDeleteExperienceRoundTrip(check: Validation, p: Profile, body: Bag, freshId: EntryId)
    requires check.isValid
    requires forall i :: 0 <= i < |p.experience| ==> p.experience[i].id != freshId
    ensures DeleteExperienceIntended(Some(AddExperience(check, Some(p), body, freshId).value), freshId) == Ok(p)
  {
    var added := AddExperience(check, Some(p), body, freshId).value;
    assert added.experience[0].id == freshId;
    assert RemoveAt(added.experience, 0) == p.experience;
  }
}
