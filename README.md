# E-FIR in Dafny

E-FIR is an incident-report (First Information Report, FIR) application. Its backend is an
Express/Mongoose server and its client a React app. Citizens register, log in, file a
report and read their own reports. Anyone can search for a report by its FIR number. Police
accounts list every report and move a report through the statuses 'Filed',
'Under Investigation', 'Resolved', 'Closed' and 'Rejected'.

This project models the core of both halves. Each module covers one source file.

- **Schemas** (`FirModel`, `UserModel`):
  - A FIR or user document is a datatype.
  - The Mongoose collections are the classes `FirCollection` and `UserCollection`, each
    holding a `seq` of documents in insertion order.
  - `save`/`create` check the required fields, the status enum and the unique indexes
    before anything is stored.
- **Handlers** (`FirRoutes`, `UserController`, `AdminController`, `AdminRoutes`):
  - Every error response and its order is modelled as written.
  - Each handler is a function (queries) or a method changing a collection (create, status
    update, registration).
- **Middleware** (`AuthMiddleware`, `AdminMiddleware`): the bearer-token check and the role gate.
- **Client forms** (`FormRules`, `AccountForm`, `RegisterPage`, `RegisterPolicePage`,
  `CompleteProfilePage`, `FirForm`, `RegisterFirPage`, `ProfilePage`):
  - Each form's `validateForm` is a method returning the `errors` object and the verdict.
  - Each `handleSubmit` is a method whose outcome says exactly what is sent, and when.
  - The profile page is a class holding its edit mode and form.
- **Session** (`App`): the root component's `user`, `isAuthenticated` and `loading` state,
  and the `localStorage` entry, as a class.

Shared pieces:

- `Text` writes out the JavaScript string built-ins used: `trim`, `\s`, `[0-9]`,
  `toString`, `slice(-8)` and `split(' ')`.
- `Wrappers` has `Option`, JavaScript truthiness and field lookup.
- `Http` has error responses with their status codes.
- `Mongo` has the outcome of a write.

Conventions:

- A request field is an `Option<string>`: `None` is `undefined`, and "truthy" means present
  and non-empty.
- Clocks, bcrypt and JWT are parameters (`now`, `hash`, `matches`, `sign`, `verify`).

Properties proved include:

- Registration and report creation reject in the source's order, and change nothing when
  they reject.
- A report's status history stays consistent with its status under any sequence of status
  updates.
- An owner always reads their own report and nobody else does.
- The public search view hides the complainant, the owner and the history.
- The email regex's rule reading is equivalent to the regex's shape.
- FIR numbers are "FIR" plus the timestamp mod 10^8, so they repeat every 10^8 ms.
- Every form is valid exactly when its error map is empty, exactly when its rules hold.
- What each form posts passes the server's required-field check.
- A reload after `login` keeps the session exactly when the token was truthy.
- A profile save keeps the session's token.

## Model

| member | source | states |
|---|---|---|
| Wrappers.OrDefault | backend/routes/firRoutes.js:54 | `field \|\| default`: the field when truthy, else the default |
| FirModel.ParseStatus | backend/models/Firnum.js:52-56 | the enum validator: a string is accepted only as the name of the status it returns |
| FirModel.ParseName | backend/models/Firnum.js:55 | each of the five status names is accepted and denotes that status |
| FirModel.DefaultStatusIsFiled | backend/models/Firnum.js:54 | the schema default 'Filed' is an enum member |
| FirModel.Construct | backend/models/Firnum.js:19-70 | `new FIR(input)`: status defaults to 'Filed', no history, no update date, `createdAt` is now, owner and accused name as given |
| FirModel.ConstructConforms | backend/models/Firnum.js:19-70 | a new document validates iff the seven required strings are truthy and the status is an enum member |
| FirModel.AppendStatus | backend/controllers/adminController.js:110-119 | one status change pushes exactly one entry, sets status and update date, and changes no other field |
| FirModel.AppendStatusPreserves | backend/controllers/adminController.js:110-121 | a change to an enum status keeps the history consistent and a valid document valid |
| FirModel.ApplyChangesHistory | backend/controllers/adminController.js:94-131 | after N changes the history is the old one plus exactly those N entries in order, the status is the last one's, and nothing else changed |
| FirModel.ApplyChangesConsistent | backend/controllers/adminController.js:94-131 | any number of enum status changes keeps the history consistent |
| FirModel.IndexOfId | backend/controllers/adminController.js:103 | `findById`: the position of the document with that `_id`, or none exists |
| FirModel.FindByNumber | backend/routes/firRoutes.js:39 | `findOne({ firNumber })`: a stored document with that number, or none exists |
| FirModel.Where | backend/routes/firRoutes.js:71 | `find(filter)`: exactly the stored documents the filter keeps, each as often as it is stored |
| FirModel.InsertByDate | backend/controllers/adminController.js:66 | inserting into a newest-first list keeps it newest first and adds exactly that document |
| FirModel.SortNewestFirst | backend/controllers/adminController.js:65-66 | `.sort({ createdAt: -1 })`: a permutation of the input, newest first |
| FirModel.FirCollection.constructor | backend/models/Firnum.js:72 | the collection starts empty and valid |
| FirModel.FirCollection.FindById | backend/routes/firRoutes.js:82 | the stored document with that `_id`, or none exists |
| FirModel.FirCollection.Insert | backend/models/Firnum.js:19-70 | save of a new document: refused unless it validates and its FIR number is unused, else appended; the collection stays valid |
| FirModel.FirCollection.Save | backend/controllers/adminController.js:121 | save of an existing document: validated, then it replaces the stored one with its `_id`; unique numbers are kept |
| FirModel.SameKeysNoCollision | backend/controllers/adminController.js:117-121 | a document keeping its FIR number cannot collide with another on save |
| UserModel.Construct | backend/models/User.js:4-35 | `User.create(input)`: role defaults to 'citizen', any given role is kept |
| UserModel.ConstructConforms | backend/models/User.js:4-35 | a new user validates iff name, email, phone, aadhar and password are truthy |
| UserModel.FindFirst | backend/controllers/userController.js:16 | `findOne(filter)`: a stored user the filter accepts, or none does |
| UserModel.FindFirstIsFirst | backend/routes/adminRoutes.js:15 | `findOne` returns the first stored user the filter accepts |
| UserModel.WithoutPassword | backend/middleware/authMiddleware.js:17 | `.select('-password')`: every field but the password |
| UserModel.Project | backend/controllers/userController.js:48-54 | the reply's user object holds exactly the listed fields with the stored values |
| UserModel.UserCollection.constructor | backend/models/User.js:37 | the collection starts empty and valid |
| UserModel.UserCollection.Create | backend/models/User.js:4-35 | refused unless the user validates and both email and aadhar are unused, else appended; the collection stays valid |
| FirNumber.FirNumberAt | E-FIR/src/components/fir/FIRForm.js:74 | the number is "FIR" followed by the last eight characters of the decimal timestamp, all digits |
| FirNumber.FirNumberDigits | E-FIR/src/components/fir/FIRForm.js:74 | the digits denote the timestamp mod 10^8; from eight-digit timestamps on the number has 11 characters |
| FirNumber.FirNumberCollision | E-FIR/src/pages/RegisterFIRPage.js:79 | two timestamps give the same FIR number iff they agree mod 10^8 |
| FirRoutes.NewFirInput | backend/routes/firRoutes.js:46-57 | status 'Filed', owner the requester, accused name given or 'Unknown' |
| FirRoutes.Create | backend/routes/firRoutes.js:8-66 | 400 on a missing required field, then 400 on a used number, each leaving the store unchanged; else exactly one report appended with the body's values; history stays consistent |
| FirRoutes.ListOwn | backend/routes/firRoutes.js:69-77 | exactly the requester's reports |
| FirRoutes.GetById | backend/routes/firRoutes.js:80-97 | 404 iff no report has the id, 403 for someone else's report, else the requester's own report |
| FirRoutes.OwnerReads | backend/routes/firRoutes.js:87-90 | in a valid store the owner always reads a report and everyone else gets 403 |
| FirRoutes.View | backend/routes/firRoutes.js:110-112 | the search view keeps the nine selected fields and `_id` |
| FirRoutes.ViewHidesPrivate | backend/routes/firRoutes.js:110-112 | the view does not depend on complainant, owner or history |
| FirRoutes.Search | backend/routes/firRoutes.js:100-124 | 400 on an empty number (unreachable through Express, where `/:id` takes `/search/`), 404 iff no report has it, else the view of a report with that number |
| UserController.RegisterPrecheck | backend/controllers/userController.js:11-24 | the ordered rejections: missing field, then used email, then used aadhar; none iff all fields are given and both are unused |
| UserController.RegisterUser | backend/controllers/userController.js:6-64 | a rejection leaves the table unchanged; else one citizen with the hashed password is added, and the reply has a token and no password |
| UserController.LoginUser | backend/controllers/userController.js:66-113 | 400 unless both fields are given; one 401 for unknown email and wrong password; success only for a stored user whose hash matches |
| UserController.LoginSucceedsIffCredentials | backend/controllers/userController.js:76-87 | with unique emails, login succeeds iff a stored user has that email and password |
| UserController.GetUserProfile | backend/controllers/userController.js:115-128 | the requester's record without password, 404 iff no such user |
| UserController.UpdateUserProfile | backend/controllers/userController.js:130-137 | the stub always answers 200 with its fixed message |
| AuthMiddleware.TokenOf | backend/middleware/authMiddleware.js:10 | `split(' ')[1]`: absent iff the header has no space, never contains a space |
| AuthMiddleware.TokenOfBearer | backend/middleware/authMiddleware.js:7-10 | for `Bearer <t>` with a space-free `t` the token read is `t` |
| AuthMiddleware.Protect | backend/middleware/authMiddleware.js:4-35 | 'no token' iff the header is missing or does not start with "Bearer"; 'token failed' iff no token or it does not verify; 'User not found' iff the token verifies to an id no stored user has; success only with the stored user it names, without password |
| AuthMiddleware.ProtectAdmits | backend/middleware/authMiddleware.js:4-26 | a bearer header verifying to a stored user's id admits exactly that user |
| AdminMiddleware.IsAdminOrPolice | backend/middleware/adminMiddleware.js:4-21 | 401 iff no user; else passes iff the role is 'admin' or 'police', otherwise 403 |
| AdminMiddleware.GateReadsOnlyRole | backend/middleware/adminMiddleware.js:12-14 | the gate's decision depends on the role alone |
| AdminController.AdminLogin | backend/controllers/adminController.js:7-56 | 400 unless both fields are given; 401 iff no police user has that email; success only for a police user whose hash matches |
| AdminController.AdminLoginSucceedsIffCredentials | backend/controllers/adminController.js:17-31 | with both fields given, login succeeds iff a police user has that email and the password matches its hash |
| AdminController.AdminLoginRejectsCitizens | backend/controllers/adminController.js:17-24 | an account with a non-police role never logs in here |
| AdminController.GetAllFirs | backend/controllers/adminController.js:59-74 | newest first; with a truthy status a permutation of exactly the reports with it, else a permutation of all |
| AdminController.GetFirDetail | backend/controllers/adminController.js:77-91 | the report with that `_id`, 404 iff none |
| AdminController.UpdateFirStatus | backend/controllers/adminController.js:94-131 | 400 without status, 404 for an unknown id, 500 for a non-enum status, each leaving the store unchanged; else exactly one entry `{status, comment or '', now}` is appended to that report |
| AdminController.RegisterPoliceUser | backend/controllers/adminController.js:134-185 | the same ordered rejections as citizen registration; else one 'police' user with the hashed password, reply without password or token |
| AdminRoutes.Login | backend/routes/adminRoutes.js:10-49 | no field check; 401 iff no police user matches the email filter, where an absent email matches every police user; 500 only for an absent password; success only for a matching police user |
| AdminRoutes.LoginWithoutEmail | backend/routes/adminRoutes.js:12-22 | a body with only a password logs in as the first stored police user when the password matches that user's hash |
| AdminRoutes.LoginSucceedsIffCredentials | backend/routes/adminRoutes.js:15-25 | with an email given, login succeeds iff a password is given and a police user has that email and a matching hash |
| AdminRoutes.LoginVariantsAgree | backend/routes/adminRoutes.js:10-49 | on a body with both fields the route and the controller admit the same accounts with the same reply |
| AdminRoutes.AllFirs | backend/routes/adminRoutes.js:52-65 | 403 iff the requester is not 'police'; else all reports, newest first |
| AdminRoutes.AdminPassesGateButNotRoutes | backend/routes/adminRoutes.js:55-57 | an 'admin' passes `isAdminOrPolice` but is refused by the inline role test |
| AdminRoutes.FirById | backend/routes/adminRoutes.js:68-86 | 403 for non-police before the lookup, then 404 iff no report has the id |
| AdminRoutes.UpdateStatus | backend/routes/adminRoutes.js:89-125 | 403, then 404, then 500 for an absent or non-enum status; else one entry `{status, comment, now}` appended as given |
| AdminRoutes.Register | backend/routes/adminRoutes.js:128-165 | 400 iff the email is used, or the email is absent and some user is stored; 500 for an absent password or a failed create (a used aadhar included); else one 'police' user, reply without phone or password |
| Text.Trim | E-FIR/src/pages/RegisterPage.js:35 | `trim()`: empty iff the input is all white space; a non-empty result neither starts nor ends with white space |
| Text.JsLength | E-FIR/src/pages/RegisterPage.js:66 | `length` in UTF-16 code units: between the number of characters and twice that |
| Text.JsLengthBmp | E-FIR/src/components/fir/FIRForm.js:48 | for text inside the Basic Multilingual Plane, `length` is the number of characters |
| Text.AstralLength | E-FIR/src/pages/RegisterPage.js:66 | three characters outside the Basic Multilingual Plane have a `length` of six |
| Text.Split | backend/middleware/authMiddleware.js:10 | `split(' ')`: at least one piece, none containing the separator |
| Text.JoinSplit | backend/middleware/authMiddleware.js:10 | joining the pieces with the separator gives back the input |
| FormRules.ShapeIsValid | E-FIR/src/pages/RegisterPage.js:40-45 | every string the email regex accepts meets the rule reading |
| FormRules.ValidIsShape | E-FIR/src/pages/RegisterPage.js:40-45 | every string meeting the rule reading is accepted by the email regex |
| FormRules.ValidEmailIffShape | E-FIR/src/pages/RegisterPage.js:40-45 | the email regex accepts exactly the strings with no white space, one '@' with something before it, and an inner '.' after it |
| FormRules.RequireText | E-FIR/src/components/fir/FIRForm.js:42-44 | `if (!v.trim())`: the message iff the value is blank |
| FormRules.RequireValue | E-FIR/src/components/fir/FIRForm.js:45 | `if (!v)`: the message iff the value is empty |
| FormRules.RequireDetail | E-FIR/src/components/fir/FIRForm.js:48-50 | the message iff the description's `length` is under 20 UTF-16 code units |
| FormRules.HandleChange | E-FIR/src/pages/RegisterPage.js:23-29 | the form takes the value; that field's truthy error becomes '', no other error changes, no key is added |
| FormRules.FieldOr | E-FIR/src/components/fir/FIRForm.js:11-12 | `user?.k \|\| ''`: the stored value, or '' when there is none |
| AccountForm.NameError | E-FIR/src/pages/RegisterPage.js:35-37 | a message iff the name is blank |
| AccountForm.EmailError | E-FIR/src/pages/RegisterPage.js:40-45 | a message iff the regex rejects the email; 'required' exactly for an empty one |
| AccountForm.PhoneError | E-FIR/src/pages/RegisterPage.js:48-53 | a message iff the phone is not 10 digits; 'required' exactly for an empty one |
| AccountForm.AadharError | E-FIR/src/pages/RegisterPage.js:56-61 | a message iff the aadhar is not 12 digits; 'required' exactly for an empty one |
| AccountForm.PasswordError | E-FIR/src/pages/RegisterPage.js:64-68 | a message iff the password's `length` is under 6 UTF-16 code units; 'required' exactly for an empty one |
| AccountForm.ConfirmError | E-FIR/src/pages/RegisterPage.js:71-75 | a message iff the confirmation is empty or differs from the password |
| AccountForm.Collect | E-FIR/src/pages/RegisterPage.js:32-76 | each field holds its own message, if any, and no other key is set |
| AccountForm.Validate | E-FIR/src/pages/RegisterPage.js:31-79 | each field gets its rule's message and no other key is set; valid iff no message iff every rule holds |
| AccountForm.RequestBody | E-FIR/src/pages/RegisterPage.js:93-99 | the body is the five account fields with the form's values, never `confirmPassword` |
| RegisterPage.InitialFormInvalid | E-FIR/src/pages/RegisterPage.js:9-16 | the empty initial form fails validation with the 'required' messages |
| RegisterPage.HandleSubmit | E-FIR/src/pages/RegisterPage.js:81-99 | each field's shown message is its rule's; a post happens iff the form is valid, and carries the five account fields only |
| RegisterPage.PostedBodyIsComplete | E-FIR/src/pages/RegisterPage.js:93-99 | what a valid form posts passes `registerUser`'s missing-field check with the form's values |
| RegisterPolicePage.HandleSubmit | E-FIR/src/pages/admin/RegisterPolicePage.js:83-114 | each field's shown message is its rule's; validation first, then the administrator's token; a post happens iff both pass, with `Bearer <token>` and without `confirmPassword` |
| RegisterPolicePage.HeaderReachesProtect | E-FIR/src/pages/admin/RegisterPolicePage.js:112 | the header sent passes `protect`'s prefix test and yields the page's token |
| CompleteProfilePage.PhoneError | E-FIR/src/pages/CompleteProfilePage.js:35-40 | a message iff the untrimmed phone is not 10 digits; 'required' exactly when it is blank |
| CompleteProfilePage.AadharError | E-FIR/src/pages/CompleteProfilePage.js:43-48 | a message iff the untrimmed aadhar is not 12 digits; 'required' exactly when it is blank |
| CompleteProfilePage.PaddedPhoneIsMalformed | E-FIR/src/pages/CompleteProfilePage.js:36-39 | ten digits behind a space get the format message, not the required one |
| CompleteProfilePage.Validate | E-FIR/src/pages/CompleteProfilePage.js:30-52 | one message per field; valid iff no message iff both numbers are well formed |
| CompleteProfilePage.HandleSubmit | E-FIR/src/pages/CompleteProfilePage.js:54-66 | `completeProfile(phone, aadhar)` is called with the typed values iff the form is valid |
| FirForm.InitialForm | E-FIR/src/components/fir/FIRForm.js:10-19 | the eight fields, name and phone from the user or '', the rest empty |
| FirForm.Collect | E-FIR/src/components/fir/FIRForm.js:39-50 | each checked field holds its own message, if any, and no other key is set |
| FirForm.Validate | E-FIR/src/components/fir/FIRForm.js:38-54 | each checked field gets its rule's message, the accused name none; valid iff no message iff every rule holds |
| FirForm.FirData | E-FIR/src/components/fir/FIRForm.js:73-76 | the body is the form plus the generated number; form fields win over the number's key |
| FirForm.HandleSubmit | E-FIR/src/components/fir/FIRForm.js:56-87 | each checked field's shown message is its rule's; validation before the token check; a post happens iff valid and a token is held, with `Bearer <token>` |
| FirForm.PostedBodyIsComplete | E-FIR/src/components/fir/FIRForm.js:73-87 | a valid form's body passes the create route's required check; an empty accused name is stored as 'Unknown' |
| RegisterFirPage.Collect | E-FIR/src/pages/RegisterFIRPage.js:38-46 | each checked field holds its own message, if any, and no other key is set |
| RegisterFirPage.Validate | E-FIR/src/pages/RegisterFIRPage.js:37-50 | type, date and location non-empty and description of 20 or more; valid iff no message iff every rule holds |
| RegisterFirPage.FirData | E-FIR/src/pages/RegisterFIRPage.js:78-87 | exactly eight keys: the number, the user's name and phone, four form fields, and the accused name or 'Unknown' |
| RegisterFirPage.HandleSubmit | E-FIR/src/pages/RegisterFIRPage.js:52-100 | the profile gate before validation, which keeps the old errors; then each checked field's shown message is its rule's; then the token; a post iff all pass |
| RegisterFirPage.PostedBodyIsComplete | E-FIR/src/pages/RegisterFIRPage.js:78-87 | the posted body passes the create route's required check; 'Unknown' is sent iff the field was empty or typed as 'Unknown' |
| ProfilePage.FormOf | E-FIR/src/pages/ProfilePage.js:16-25 | the form is the user's name, email and phone, or '' |
| ProfilePage.ChangedFields | E-FIR/src/pages/ProfilePage.js:43-52 | `name` iff the trimmed name differs from the stored one, `phone` likewise, trimmed values, never `email`; empty iff both agree |
| ProfilePage.MergedUserAgrees | E-FIR/src/pages/ProfilePage.js:55-56 | merging the diff into the user gives the trimmed name and phone and keeps every other field |
| ProfilePage.SaveReloadsTrimmed | E-FIR/src/pages/ProfilePage.js:16-25 | after a save the reloaded form shows the trimmed name and phone and the same email |
| ProfilePage.ResubmitSendsNothing | E-FIR/src/pages/ProfilePage.js:43-60 | after the merge, submitting the same form again finds nothing to send |
| ProfilePage.ProfileEditor.constructor | E-FIR/src/pages/ProfilePage.js:8-25 | not editing, form loaded from the user |
| ProfilePage.ProfileEditor.StartEditing | E-FIR/src/pages/ProfilePage.js:175 | editing on, form unchanged |
| ProfilePage.ProfileEditor.HandleChange | E-FIR/src/pages/ProfilePage.js:27-32 | one field takes the value, the mode is unchanged |
| ProfilePage.ProfileEditor.HandleSubmit | E-FIR/src/pages/ProfilePage.js:34-64 | a blank name aborts with no update and the mode unchanged; else editing ends and `updateUser` gets the diff iff it is non-empty |
| ProfilePage.ProfileEditor.UserChanged | E-FIR/src/pages/ProfilePage.js:16-25 | a present `user` reloads the form from it; an absent one leaves it; the mode is unchanged |
| ProfilePage.ProfileEditor.Cancel | E-FIR/src/pages/ProfilePage.js:133-141 | editing ends and the form is reset from the user |
| App.RestoreFrom | E-FIR/src/App.js:24-45 | signed in iff the entry parses to an object with a truthy token; any other non-empty entry is removed |
| App.LoginRecord | E-FIR/src/App.js:50-53 | the user's fields with `token` set to the given token; other keys as in `userData.user` |
| App.Merged | E-FIR/src/App.js:72-75 | the given keys take the new values; every other key of the user is kept |
| App.Session.constructor | E-FIR/src/App.js:19-21 | not signed in, no user, loading |
| App.Session.Restore | E-FIR/src/App.js:24-45 | the session becomes `RestoreFrom` of the stored entry and loading ends; memory and storage agree |
| App.Session.Login | E-FIR/src/App.js:48-61 | memory and storage hold the login record and the protected routes open |
| App.Session.Logout | E-FIR/src/App.js:64-68 | the entry is removed, no user, not signed in |
| App.Session.UpdateUser | E-FIR/src/App.js:71-78 | memory and storage hold the merged record; the sign-in flag is unchanged |
| App.Session.ProtectedRoute | E-FIR/src/App.js:81-95 | the spinner iff loading; the children iff loaded and signed in; else the redirect to login |
| App.RestoreAfterLogin | E-FIR/src/App.js:29-33 | a reload after `login` signs the same record back in iff the token given was truthy; otherwise the entry is dropped |
| App.RestoreAfterUpdate | E-FIR/src/App.js:71-78 | an update not naming `token` keeps it, so a reload still signs the updated record in |
| App.ProfileSaveKeepsSession | E-FIR/src/pages/ProfilePage.js:55-56 | a profile save keeps the session across a reload, holding the new trimmed name |

## Left out

- Success status codes are not modelled. `Ok` carries the reply body only, so the 201 of
  firRoutes.js:61, userController.js:46, adminController.js:168 and adminRoutes.js:152 and
  the 200 of the other handlers are not told apart. Error responses keep their codes.
- HTTP transport, Express routing, JSX rendering, navigation, toasts, loading spinners and
  console logging are out. Each handler's response is its return value.
- backend/server.js mounts neither the admin controller nor backend/routes/adminRoutes.js
  (backend/server.js:41-42). Both are modelled as written, as reference behaviour. Nothing
  here puts `isAdminOrPolice` in front of the controller.
- The police registration page posts to `/admin/register-police`, and no route defines it.
  The page is modelled up to the request it sends.
- bcrypt and JWT are uninterpreted function parameters: `hash`, `matches`, `sign` and `verify`.
  A token `verify` rejects, for a bad signature, expiry or malformed input, is `None`. The
  30-day expiry is not modelled.
- The clock is a parameter `now`. adminController.js:113 and :119 read the clock twice; the
  model uses one reading for both.
- Mongoose is not modelled below the level of a whole collection:
  - `populate` (adminController.js:67, :80) is not modelled: the report's `user` stays an id.
  - Cast errors (a malformed ObjectId or date string, answered 500 or 400) are not modelled.
  - Mongoose drops a filter key whose value is `undefined`, and the model does the same
    (`UserModel.FieldMatches`). The controllers never send such a filter, because their
    missing-field checks come first. The inline admin routes do: `/login` without an email
    looks up the first police user, and `/register` without an email finds any stored user.
  - Dates are strings on input and natural numbers for stored timestamps.
- The duplicate-key error 11000 (userController.js:59-61, adminController.js:180-182) can
  only come from a race between the pre-check and `create`. Every write here is atomic, so
  the model can reach that branch only through the `Refused(DuplicateKey)` path, which the
  pre-checks rule out.
- String `length` counts UTF-16 code units (`Text.JsLength`), as JavaScript does.
- `trim` and `\s` are ASCII only: space, tab, line feed, carriage return, vertical tab and
  form feed. The Unicode white space JavaScript also removes is not modelled.
- Request and stored JSON objects have string values only. A numeric or nested token or
  user field is not modelled. A stored `user` entry that does not parse to an object counts
  as `App.NotObject`.
- userRoutes.js, AuthContext.js (Firebase sign-in), the fetch-and-display pages and the
  presentational components are not part of this model.
- The status history starts empty. No initial 'Filed' entry is created, because the code
  creates none.
- `incidentType` is a free string, because the schema has no enum for it.
- The search view includes `_id`, because Mongoose's `select` does.
- The registration pages' `if (!adminUser)` redirect (RegisterPolicePage.js:130) is
  navigation only and is not modelled.
- Text.Trim: its contract says the result is empty exactly for blank input and has no
  white space at either end. It does not state that the result is the middle slice of
  the input.
- FirForm.PostedBodyIsComplete: requires the form to hold exactly its eight fields. A form
  given extra keys by `handleChange` would send them too.
- App.Session.Restore: requires `loading`. The effect runs once, on mount (its dependency
  list is empty).
- App.Session.Login, App.Session.UpdateUser: require `!loading`, because while loading only
  the spinner is rendered (App.js:102-111) and no page can call them.
