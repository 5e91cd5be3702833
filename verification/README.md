# devconnector-api: route and validator core in Dafny

This project models the logic that the devconnector API runs once a request body has been parsed
and the datastore has returned the document: the education input validator, the list mutations
that the post routes apply (like, unlike, add comment, delete comment), the owner check before a
post is deleted, and the profile routes' create decision, skills split, experience and education
prepends and their removal by `indexOf` and `splice`.

Modules, one per source file or built-in:

- `Common` (common.dfy): `Option` for values that may be `undefined`, `Result` for "the document to
  save, or the error answered with", request bodies as `Bag = map<string, string>` (a missing key is
  `undefined`), and the `{ errors, isValid }` pair validators return.
- `JsArray` (js_array.dfy): `Array.prototype.indexOf`, `filter(...).length`, `splice(start, 1)` with
  JavaScript's handling of a negative start, and `String.prototype.split` / `Array.prototype.join` for
  a one-character separator.
- `EducationValidation` (education.dfy): `validateEducationInput` from validation/education.js.
- `PostRoutes` (posts.dfy): routes/api/v1/posts.js.
- `ProfileRoutes` (profiles.dfy): routes/api/v1/profiles.js.

Modelling choices:

- A document that `findById` / `findOne` returned as `null` arrives as `None`. Reading a field of it
  throws inside the promise. Routes with a `.catch` answer 404 (`LookupFailed`, or `PostNotFound`
  where the catch sends `{ postnotfound }`). The add-experience and add-education routes have no
  `.catch`, so they send no response at all (`Unhandled`).
- The `is-empty` helper module is not part of this model. The validator takes it as a parameter
  `isEmpty: string -> bool`, and every property holds for any such predicate. `Validator.isEmpty(s)`
  of the `validator` package is `|s| == 0`. `isEmpty(errors)` on the error object is taken to mean
  "the object has no keys".
- The profile, experience and post validators are not part of this model. Their `{ errors, isValid }`
  result is an input (`check`).
- Identities the datastore assigns (a comment's `_id`, an entry's `id`, a new post's `_id`) are
  inputs (`freshId`). `toString()` on an ObjectId is the identity on strings.
- Status codes are the ones the routes send:
  - a non-owner deleting a post gets 401 `notauthorized` (routes/api/v1/posts.js:66-67);
  - a second profile for a user gets 400 with the message "Profile already exists for this user" (routes/api/v1/profiles.js:121-128);
  - deleting an experience or education entry never reads the URL's id (see Findings).

## Model

| member | source | states |
|---|---|---|
| `EducationValidation.Normalise` | validation/education.js:7-10 | each of school, degree, field_of_study and from is present afterwards; it keeps its value when present and not `isEmpty`, and becomes '' otherwise; every other field is untouched |
| `EducationValidation.ValidateEducation` | validation/education.js:4-32 | total on every body; error keys are a subset of the four required fields; a required field has an error iff its normalised value is ''; each message is that field's fixed text; `isValid` iff the error map is empty iff every required field is present, not `isEmpty` and non-empty |
| `EducationValidation.CheckAllErrors` | validation/education.js:12-26 | the four checks record exactly the required fields whose normalised value is empty, each with its own message, and nothing else |
| `EducationValidation.ErrorIffBlank` | validation/education.js:7-26 | on the raw body: a required field has an error iff it is absent, `isEmpty`, or '' |
| `EducationValidation.OtherFieldsIrrelevant` | validation/education.js:7-26 | two bodies that agree on the four required fields get the same result, so `to`, `current` and `description` never matter |
| `JsArray.Map` | routes/api/v1/posts.js:116-117 | the mapped array has the same length and holds the callback's value of each element at the same index |
| `JsArray.IndexOf` | routes/api/v1/posts.js:116-118 | -1 iff the value is absent; otherwise an index holding the value with no earlier occurrence |
| `JsArray.CountOf` | routes/api/v1/posts.js:88 | the filter length is the number of occurrences of the value (its multiplicity), so it is positive iff the value occurs |
| `JsArray.SpliceStart` | routes/api/v1/profiles.js:198 | splice's start lies in [0, len]; a start in range is used as is, one past the end becomes len, a negative one counts back from the end and stops at 0 |
| `JsArray.SpliceOne` | routes/api/v1/posts.js:121 | removes exactly the element at the clamped start when there is one, and changes nothing otherwise |
| `JsArray.SpliceAtIndex` | routes/api/v1/posts.js:116-121 | with an index `indexOf` found, splice removes exactly that element |
| `JsArray.SpliceMinusOne` | routes/api/v1/profiles.js:193-198 | splice(-1, 1) removes the last element, and leaves an empty list unchanged |
| `JsArray.RemoveAtMultiset` | routes/api/v1/posts.js:182 | removing one element keeps all the others: multisets differ by exactly that element |
| `JsArray.Split` | routes/api/v1/profiles.js:114-116 | at least one part, no part contains the separator, and joining the parts with it gives back the string |
| `JsArray.SplitJoin` | routes/api/v1/profiles.js:114-116 | separator-free parts, joined and split again, come back unchanged, so split is a bijection onto such lists |
| `PostRoutes.LikePost` | routes/api/v1/posts.js:83-101 | a missing post gives 404; an existing like by the caller gives `AlreadyLiked` (400) and nothing is saved; otherwise the caller's like is at index 0, the length grows by one, the old likes are the tail and no other field changes |
| `PostRoutes.UnlikePost` | routes/api/v1/posts.js:106-132 | a missing post gives 404; no like by the caller gives `NotLiked` and nothing is saved; otherwise exactly the first like by the caller is removed, the length drops by one and the other likes keep their order |
| `PostRoutes.LikeKeepsUnique` | routes/api/v1/posts.js:88-93 | a successful like keeps at most one like per user, and the caller has then liked the post |
| `PostRoutes.UnlikeKeepsUnique` | routes/api/v1/posts.js:111-121 | with at most one like per user, a successful unlike keeps that and leaves no like by the caller |
| `PostRoutes.LikeUnlikeRoundTrip` | routes/api/v1/posts.js:88-121 | like then unlike by the same user restores the original post |
| `PostRoutes.UnlikeLikeSameLikes` | routes/api/v1/posts.js:88-121 | with unique likes, unlike then like succeeds and restores the same likes up to order |
| `PostRoutes.AddComment` | routes/api/v1/posts.js:137-162 | a failed validation gives 400 with its errors before any lookup; a missing post gives `PostNotFound`; otherwise a comment by the caller with the body's text, name and avatar is prepended, and existing comments shift by one unchanged |
| `PostRoutes.DeleteComment` | routes/api/v1/posts.js:167-187 | a missing post or unknown comment id gives 404 and nothing is saved; otherwise exactly the first comment with that id is removed and the rest keep their order |
| `PostRoutes.AddDeleteCommentRoundTrip` | routes/api/v1/posts.js:147-182 | adding a comment with a new id and deleting that id restores the post |
| `PostRoutes.DeletePost` | routes/api/v1/posts.js:60-78 | a post whose author is not the caller gives 401 `notauthorized` and is not removed; the author's own post is the one removed |
| `PostRoutes.CreatePost` | routes/api/v1/posts.js:38-55 | a failed validation gives 400; otherwise a post by the caller with the body's text, name and avatar and no likes or comments |
| `PostRoutes.CreateDeletePost` | routes/api/v1/posts.js:46-67 | a created post has at most one like per user, and deleting it succeeds exactly for its creator and is 401 `notauthorized` for anyone else |
| `ProfileRoutes.SplitSkills` | routes/api/v1/profiles.js:113-116 | skills stay undefined iff the body has none; otherwise they are comma-free parts whose join with ',' is the original string |
| `ProfileRoutes.CreateProfile` | routes/api/v1/profiles.js:101-150 | invalid input gives 400 with the validator's errors and no lookup; an existing profile for the caller gives 400 with "Profile already exists for this user" and nothing is saved; otherwise the saved profile belongs to the caller, has the split skills and the other body fields, and no entries |
| `ProfileRoutes.CreateIgnoresBodyUser` | routes/api/v1/profiles.js:111 | for the same validator verdict, the body's own `user` field never changes the outcome: the profile's owner is always the authenticated id |
| `ProfileRoutes.AddExperience` | routes/api/v1/profiles.js:157-180 | invalid input gives 400; a missing profile sends no response; otherwise the new entry, built from the body's fields, is at index 0 and the old entries follow in order |
| `ProfileRoutes.AddEducation` | routes/api/v1/profiles.js:213-236 | the education validator decides 400; a missing profile sends no response; otherwise the new entry is at index 0, with the body's school, degree and from, and `fieldofstudy` read from the body's `fieldofstudy` key; old entries follow in order |
| `ProfileRoutes.FieldOfStudyDropped` | routes/api/v1/profiles.js:222-230 | a body that passes validation with `field_of_study` is stored with no field of study |
| `ProfileRoutes.AddEducationIntended` | routes/api/v1/profiles.js:213-236 | the corrected route stores the validated, non-empty `field_of_study` value; the new entry is at index 0 with all of the body's fields, and the old entries follow in order |
| `ProfileRoutes.RemoveByKey` | routes/api/v1/profiles.js:193-198 | a key that is found removes exactly its first entry; a key that is undefined or not found removes the last entry, or nothing from an empty list |
| `ProfileRoutes.UnknownIdRemovesLastEntry` | routes/api/v1/profiles.js:193-198 | with no existence check, a defined id that no entry carries still removes the last entry |
| `ProfileRoutes.DeleteExperience` | routes/api/v1/profiles.js:187-206 | a missing profile gives 404; otherwise, whatever id the URL names, the last experience entry is removed, or nothing if there is none, and no other field changes |
| `ProfileRoutes.DeleteExperienceRemovesWrongEntry` | routes/api/v1/profiles.js:193-198 | deleting the first of two entries by its id removes the second one |
| `ProfileRoutes.DeleteExperienceIntended` | routes/api/v1/profiles.js:187-206 | the corrected route removes exactly the first entry with the URL's id, and answers 404 and saves nothing when no entry has it |
| `ProfileRoutes.DeleteEducation` | routes/api/v1/profiles.js:243-262 | a missing profile gives 404; otherwise, whatever id the URL names, the last education entry is removed, or nothing if there is none |
| `ProfileRoutes.DeleteEducationRemovesWrongEntry` | routes/api/v1/profiles.js:249-254 | deleting the first of two entries by its id removes the second one |
| `ProfileRoutes.DeleteEducationIntended` | routes/api/v1/profiles.js:243-262 | the corrected route removes exactly the first entry with the URL's id, and answers 404 and saves nothing when no entry has it |
| `ProfileRoutes.AddDeleteExperienceRoundTrip` | routes/api/v1/profiles.js:166-198 | adding an experience entry with a new id and deleting that id with the corrected route restores the profile |

## Left out

- Persistence: Mongoose `find`, `findById`, `findOne`, `populate`, `save`, `remove` and `findOneAndRemove`. The fetched document is an input and the saved one is the result. Datastore failures appear only as the 404 tags of routes that catch them.
- The GET routes of both files and DELETE / on profiles (profiles.js:269-278): each is one datastore call with no logic of its own.
- Passport JWT authentication: the authenticated id is an input. routes/api/v1/auth.js, users.js and the app wiring are not part of this model.
- The `Profile.findOne` that the post like, unlike and delete routes start with: its result is never used.
- The handle check in profile creation (profiles.js:131-142): it is not awaited, so the profile is saved whatever it finds and two responses can be sent. That is asynchronous control flow.
- Saves with no `.catch` (posts.js:53-54, 95-96, 124-125, 159, 184; the profile saves): a failed save sends no response, and this is not modelled.
- The `is-empty` module and the profile, experience and post validators: they are parameters or inputs, as described above.
- Non-string JSON values in bodies. `Validator.isEmpty` throws on a non-string, and `split` throws on a non-string `skills`.
- `req.body.profile` being undefined in profile creation: what happens depends on the profile validator.
- HTTP envelopes: the error tags carry the status and the key or message the source sends, not the full JSON.
- `PostRoutes.DeletePost`: returns the id of the post to remove rather than a store without it, because removal is persistence.
- `ProfileRoutes.CreateProfile`, `ProfileRoutes.AddExperience`, `PostRoutes.AddComment`, `PostRoutes.CreatePost`: the profile, experience and post validators are assumed not to change the fields the route then reads. Each route reads the same object it validated, and those validators are not part of this model.
- `ProfileRoutes.CreateProfile`: the saved document is the body with `user` set and `skills` split. Schema casting and defaults of the Profile model are not modelled.

## Findings

| source | as written | input that shows it | evidently intended | confidence | as-written member | corrected member |
|---|---|---|---|---|---|---|
| routes/api/v1/profiles.js:195 | the key is `req.param.exp_id`, a property of the `req.param` method (Express 4), which is always undefined; `indexOf` gives -1 and `splice(-1, 1)` removes the last entry | a profile with experience entries [a, b] and a DELETE of a's id: b is removed, a stays | remove the entry whose id is `req.params.exp_id` | high, not executed | `ProfileRoutes.DeleteExperienceRemovesWrongEntry` | `ProfileRoutes.DeleteExperienceIntended` |
| routes/api/v1/profiles.js:251 | the same with `req.param.edu_id` for education entries | a profile with education entries [a, b] and a DELETE of a's id: b is removed, a stays | remove the entry whose id is `req.params.edu_id` | high, not executed | `ProfileRoutes.DeleteEducationRemovesWrongEntry` | `ProfileRoutes.DeleteEducationIntended` |
| routes/api/v1/profiles.js:225 | the stored entry reads `fieldofstudy`, while the validator requires `field_of_study` | body `{school: "MIT", degree: "BSc", field_of_study: "CS", from: "2010"}` passes validation and is stored with no field of study | store the validated `field_of_study` value | medium, not executed | `ProfileRoutes.FieldOfStudyDropped` | `ProfileRoutes.AddEducationIntended` |
| routes/api/v1/profiles.js:193-198 | both delete routes (also lines 249-254) splice at whatever `indexOf` returns, without checking that an entry has the id; with the key fixed to `req.params`, an unknown id gives -1 and `splice(-1, 1)` still removes the last entry | a profile with entries [a, b] and a DELETE of an id neither carries: b is removed | answer 404 and save nothing when no entry has the id, as the comment route does for an unknown comment (posts.js:172-174) | medium, not executed | `ProfileRoutes.UnknownIdRemovesLastEntry` | `ProfileRoutes.DeleteExperienceIntended` |
