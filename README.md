# Hostel management: a verified model of the allocation core

This project models, in Dafny, the server-side core of a hostel management
application for a university campus:

- students sign in and state room preferences;
- the service matches them to rooms and swaps or re-assigns them on request;
- administrators decide change applications and swap requests, maintain the
  room catalogue, import students, publish notices and work through
  complaints.

What is modelled:

- **Room allocation** (`backend/controllers/hostelController.js` with the
  `Room`, `StudentProfile`, `SwapRequest` and `ChangeApplication` schemas):
  - The whole database is a value `AllocationState.Db`: rooms, profiles,
    swap requests and change applications, with the insertion orders that
    `find()` returns and a counter for fresh document ids.
  - Every handler is a transition function in `Allocation` that returns the
    new database and either a result or a `Failure`.
  - The class `HostelService.Hostel` holds the same collections as mutable
    fields. Its methods run the handler step by step, one database write at a
    time, and each one's `ensures` ties the new state to the transition
    function.
  - The invariant `AllocationState.Valid` says four things:
    - no room holds more occupants than its capacity;
    - a profile points at a room exactly when that room lists the student;
    - every catalogued id names a document;
    - every stored document passes its schema.

  `AllocationProofs` shows which handlers keep `Valid` and which do not.
- **Room matching** (`findMatchingRoom`): the Mongo query that is built from a
  profile, and the first room in catalogue order with a free bed.
- **Authentication and roles** (`authController.js`, both `requireAuth`
  middlewares, the role guards, the error handler, the input validators).
- **Student import** (the admin endpoints and the browser's CSV parser).
- **Notices and complaints**: their schemas and save hooks, the
  like/upvote/comment/view actions on one document (the classes
  `Notices.NoticeDoc` and `Complaints.ComplaintDoc`), the audience and access
  rules, and pagination.

JavaScript details are written out where they matter:

- truthiness of `''`, `0` and `undefined` (`Common.Truthy`, `NumberTruthy`);
- `String.prototype.trim` and `\s` (`Text`);
- `split` with a one-character separator;
- ASCII `toLowerCase`;
- `$addToSet` and `$pull` (`Common.AddToSet`, `Common.RemoveAll`);
- Mongoose validation, which runs on `save()`/`create()` but not on
  `findOneAndUpdate`.

Clocks, JWT signing and verification, bcrypt, Google token verification and
`Number(...)` conversion are parameters of the functions that use them.

## Model

| member | source | states |
|---|---|---|
| Rooms.DeriveBlockType | backend/models/Room.js:4-7 | within hostels 1-8 the block is "normal" exactly for 1 and 6 and "premium" for 2, 3, 4, 5, 7 and 8; every number outside 1-8 is "normal"; the result is always an allowed block type |
| Rooms.PreValidateDraft | backend/models/Room.js:27-35 | pre-validate fills `blockType` from the hostel number only when it is unset, and `capacity` from `seater` only when capacity is falsy; nothing else changes |
| Rooms.PreValidateIdempotent | backend/models/Room.js:27-35 | running the pre-validate hook twice is the same as running it once |
| Rooms.PreValidateFillsDefaults | backend/models/Room.js:9-35 | after the hook, a room with a hostel number has a valid block type, and a room with a seater value has a capacity |
| Rooms.AdmitKeepsCapacity | backend/models/Room.js:21 | `$addToSet` of a student into a room with a free bed keeps occupants within capacity |
| Rooms.RoomDocument.PreValidate | backend/models/Room.js:27-35 | the hook changes the room document in place to `PreValidateDraft` of its old fields |
| Profiles.PreferredHostelsValid | backend/models/StudentProfile.js:11-20 | the validator accepts an absent or empty list, and otherwise exactly the lists whose every entry is hostel 1-8 or a known named hostel |
| Profiles.AllValid | backend/models/StudentProfile.js:16 | `every` over the list: true iff each entry is valid |
| Profiles.NewProfile | backend/models/StudentProfile.js:5-30 | a new profile is pending and unassigned, has empty amenities by default and keeps the given preferences |
| SwapRequests.NewSwap | backend/models/SwapRequest.js:3-14 | a new request is pending and names both users and the reason; it passes the schema iff the seater snapshot is present and one of 1, 2, 3, 4, 6, 8 and the ac snapshot is present |
| ChangeApplications.DesiredHostelValid | backend/models/ChangeApplication.js:15-23 | `desiredHostel` is valid iff it is absent, a hostel number 1-8 or a known name |
| ChangeApplications.DecidingKeepsValid | backend/models/ChangeApplication.js:5-28 | changing status and admin note keeps a complete application complete |
| AllocationState.EmptyValid | backend/models/Room.js:9-25 | the empty database satisfies the allocation invariant |
| AllocationState.HoldsRoomIffListed | backend/controllers/hostelController.js:84-87 | under the invariant, a student's profile points at a room iff some room lists the student, and any room that lists the student is the one the profile names |
| AllocationState.AddOccupant | backend/controllers/hostelController.js:84 | `$addToSet` on one room's occupants changes that room only |
| AllocationState.PullOccupant | backend/controllers/hostelController.js:217 | `$pull` on one room's occupants changes that room only |
| AllocationState.SaveProfile | backend/controllers/hostelController.js:87 | `profile.save()` stores the profile iff it passes the schema, and otherwise changes nothing and fails with a validation error |
| Matcher.Numbers | backend/controllers/hostelController.js:21 | the numeric entries of a hostel list, exactly |
| Matcher.Names | backend/controllers/hostelController.js:22 | the named entries of a hostel list, exactly |
| Matcher.NonEmptyListHasEntry | backend/controllers/hostelController.js:20-30 | a non-empty preference list yields at least one `$or` clause |
| Matcher.HostelFilterOf | backend/controllers/hostelController.js:20-30 | no hostel filter is added for an absent or empty list |
| Matcher.BuildQuery | backend/controllers/hostelController.js:9-30 | the query requires the preferred seater and AC; it carries a block type iff the preference is truthy, and the amenities and hostel filter come from the profile |
| Matcher.HostelFilterMeaning | backend/controllers/hostelController.js:20-30 | a room passes the hostel filter iff some listed hostel names it, by number or by name |
| Matcher.QueryMeansEligible | backend/controllers/hostelController.js:9-30 | a room satisfies the built query iff it is eligible for the profile |
| Matcher.Candidates | backend/controllers/hostelController.js:32 | the rooms `find(query)` returns are exactly the catalogued rooms that satisfy the query, in catalogue order |
| Matcher.FirstWithSpace | backend/controllers/hostelController.js:33-37 | returns a candidate with a free bed; it returns none iff no candidate has one |
| Matcher.FirstFit | backend/controllers/hostelController.js:8-38 | the match is an eligible room with a free bed; there is no match iff no eligible room has space |
| Matcher.FirstFitIsFirstIn | backend/controllers/hostelController.js:32-37 | the loop returns the earliest satisfying room with space |
| Matcher.FirstFitIsFirst | backend/controllers/hostelController.js:8-38 | the match is the first eligible room with a free bed in catalogue order |
| Matcher.FindMatchingRoom | backend/controllers/hostelController.js:8-38 | the loop over the query's rooms returns `FirstFit`: an eligible room with space, or none |
| Allocation.Place | backend/controllers/hostelController.js:84-87 | the room gains the student and the profile is saved assigned; if the profile fails the schema, the occupant stays added and a validation error is returned |
| Allocation.AutoAssign | backend/controllers/hostelController.js:73-94 | errors: preferences not set (400), already assigned (409), no matching room (404); on success the first fitting room gains the student and the profile points at it |
| Allocation.PendingUsers | backend/controllers/hostelController.js:351 | the selected users are exactly the stored profiles with status `pending` and no room, and no more than the profiles listed |
| AllocationProofs.PendingUsersInOrder | backend/controllers/hostelController.js:351 | the selected users appear at strictly increasing positions of the profile storage order, so the batch visits them in that order |
| Allocation.Snapshot | backend/controllers/hostelController.js:351 | the profiles loaded by the query, in the order of the users |
| Allocation.BatchFrom | backend/controllers/hostelController.js:353-364 | the report has one entry per loaded profile, in order |
| Allocation.BatchAutoAssign | backend/controllers/hostelController.js:349-370 | the report has one entry per pending user, in order |
| Allocation.RequestSwap | backend/controllers/hostelController.js:109-144 | errors: missing target (400), either student without a room (400), bed types differ (400); on success a pending request with the first room's seater/ac is stored under a fresh id and the requester is marked `swap_pending` |
| Allocation.ExchangeRooms | backend/controllers/hostelController.js:262-281 | fails unless both students hold a room; a missing first room document is a server error before any write, a missing second one a server error after `fromUser` has been pulled from the first room; otherwise the rooms trade occupants and the profiles trade room pointers, both set `assigned` |
| Allocation.DecideSwap | backend/controllers/hostelController.js:250-289 | rejects a decision other than approve/reject, and answers 404 for an unknown id; reject stores `rejected`; approve stores `approved` first, then exchanges rooms |
| Allocation.ApplyChange | backend/controllers/hostelController.js:147-177 | required fields are checked per kind; past those checks it succeeds iff the application passes the schema; on success exactly one new pending application is stored under a fresh id, carrying the user, the body's name, registration number, reason, kind and desired seater, AC and hostel, with no admin note |
| Allocation.ApplyToPreferences | backend/controllers/hostelController.js:204-211 | bed-type approval overwrites seater and AC. Hostel approval replaces the list with the desired hostel, and derives the block for a numeric hostel. Nothing else changes |
| Allocation.Rematch | backend/controllers/hostelController.js:214-228 | re-matching never touches the catalogue, swaps or applications and can only fail validation |
| Allocation.DecideApplication | backend/controllers/hostelController.js:191-236 | invalid decision (400), unknown id (404); reject stores status and note; approving for a user without a profile saves the application then fails |
| Allocation.FirstMatching | backend/controllers/hostelController.js:302-304 | finds a catalogued room matching the upsert filter, or reports that none matches |
| Allocation.UpsertBlockType | backend/controllers/hostelController.js:295-297 | the block type is derived from the hostel number when given, else the body's |
| Allocation.UpsertCapacity | backend/controllers/hostelController.js:305-307 | capacity is the body's if truthy, else the seater |
| Allocation.UpdatedRoom | backend/controllers/hostelController.js:305-308 | an update keeps the occupants and writes block type and capacity |
| Allocation.InsertedRoom | backend/controllers/hostelController.js:308 | an upserted room starts empty and matches its own filter |
| Allocation.UpsertRoom | backend/controllers/hostelController.js:292-314 | succeeds iff a hostel number or a truthy hostel name is given and a block type is derived from the number or given; failure changes nothing; on success the first room in storage order matching the filter is updated in place (occupants kept), or, when none matches, a new empty room is appended under a fresh id; the written block type is the derived one, the written capacity is `capacity || seater` (kept when both are absent); nothing else changes |
| Allocation.AvailabilityOf | backend/controllers/hostelController.js:328-340 | occupied count; available is `max(0, capacity - occupied)` when capacity is set, positive iff the room has space |
| Allocation.ListAvailability | backend/controllers/hostelController.js:317-346 | fails with a server error exactly when a truthy `hostelNumber` or `seater` converts to `NaN`; otherwise every listed row is a room matching the filters with its availability, and every such room is listed |
| Allocation.ListFrom | backend/controllers/hostelController.js:327-340 | the same, over a given catalogue order |
| Allocation.DerivedPreferredBlock | backend/controllers/hostelController.js:45-49 | an explicit block wins; otherwise a block is derived iff the first preferred hostel is a number |
| Allocation.PreferencesApplied | backend/controllers/hostelController.js:51-63 | given fields overwrite the profile, and its room and status are kept; a new profile is pending |
| Allocation.SetPreferences | backend/controllers/hostelController.js:41-70 | the upsert stores the applied profile without validating and changes nothing else |
| Allocation.SetPreferencesValidated | backend/controllers/hostelController.js:41-70 | the corrected upsert stores the applied profile iff it passes the schema, else changes nothing |
| AllocationProofs.UnassignedNotListed | backend/controllers/hostelController.js:78 | under the invariant a student without a room is in no room's occupants |
| AllocationProofs.ListedOnlyInOwnRoom | backend/controllers/hostelController.js:84-87 | an assigned student is listed in their own room and in no other |
| AllocationProofs.PlaceKeepsValid | backend/controllers/hostelController.js:84-87 | placing an unassigned student with a valid profile into a room with space keeps the invariant |
| AllocationProofs.ReleaseKeepsValid | backend/controllers/hostelController.js:215-221 | pulling an assigned student out and saving the profile as pending keeps the invariant |
| AllocationProofs.AutoAssignKeepsValid | backend/controllers/hostelController.js:73-94 | auto-assign keeps the invariant and fails only with the three documented errors |
| AllocationProofs.ApplyToPreferencesKeepsSchema | backend/controllers/hostelController.js:204-212 | applying a complete application to a valid profile yields a valid profile |
| AllocationProofs.RematchUnassigned | backend/controllers/hostelController.js:222-228 | re-matching an unassigned student keeps the invariant. Their preferences are untouched. Either they get an eligible room, or no eligible room has space |
| AllocationProofs.RematchKeepsValid | backend/controllers/hostelController.js:214-228 | the same for an assigned student, who is first released |
| AllocationProofs.DecideApplicationKeepsValid | backend/controllers/hostelController.js:191-236 | deciding keeps the invariant; it fails only with the three documented errors, and with the server error only when approving for a user without a profile |
| AllocationProofs.ApproveApplicationRematches | backend/controllers/hostelController.js:199-228 | approval stores `approved`, applies the change to the profile and re-matches the student against the new preferences |
| AllocationProofs.ApprovePathShape | backend/controllers/hostelController.js:199-228 | once the decided application and the rewritten preferences pass their schemas, approval answers with the re-match of the rewritten profile, in the store that holds the decided application |
| AllocationProofs.ApprovedRematch | backend/controllers/hostelController.js:204-228 | on a valid store the rewrite and re-match never fail and keep the invariant; the student keeps the rewritten preferences and gets an eligible room, or stays `pending` with every eligible room full |
| AllocationProofs.DecideApplicationIgnoresStatus | backend/controllers/hostelController.js:195-201 | the outcome does not depend on the application's current status: a decided application can be decided again |
| AllocationProofs.ApplyChangeKeepsValid | backend/controllers/hostelController.js:147-177 | filing an application keeps the invariant |
| AllocationProofs.RequestSwapKeepsValid | backend/controllers/hostelController.js:109-144 | requesting a swap keeps the invariant |
| AllocationProofs.ExchangedFacts | backend/controllers/hostelController.js:270-273 | pull then add trades one occupant for another without duplicates or size change |
| AllocationProofs.ReshuffledFacts | backend/controllers/hostelController.js:270-273 | when both students share a room, the four writes leave the same set and size |
| AllocationProofs.ExchangeDifferentShape | backend/controllers/hostelController.js:268-281 | for two students in two different existing rooms, the first room's occupants lose `fromUser` and gain `toUser`, the second's lose `toUser` and gain `fromUser`, the two profiles trade pointers and become `assigned`, and nothing else in the store changes |
| AllocationProofs.ExchangeDifferentRooms | backend/controllers/hostelController.js:262-281 | swapping students of two different rooms succeeds and keeps the invariant |
| AllocationProofs.ExchangeSameRoom | backend/controllers/hostelController.js:262-281 | swapping two students of the same room keeps the invariant |
| AllocationProofs.ApprovedSwapKeepsValid | backend/controllers/hostelController.js:262-281 | the exchange keeps the invariant and succeeds iff both students hold a room |
| AllocationProofs.ApprovedSwapExchanges | backend/controllers/hostelController.js:268-281 | after the exchange each student holds the other's former room and room sizes are unchanged |
| AllocationProofs.DecideSwapKeepsValid | backend/controllers/hostelController.js:250-289 | deciding a swap keeps the invariant and fails only with the documented errors |
| AllocationProofs.ApproveOnceExchanges | backend/controllers/hostelController.js:258-281 | approving a request whose two students both hold a room succeeds, stores `approved` and exchanges their rooms |
| AllocationProofs.ExchangeIgnoresSwaps | backend/controllers/hostelController.js:262-281 | the exchange neither reads nor writes the swap requests |
| AllocationProofs.DecideSwapSavesStatusFirst | backend/controllers/hostelController.js:258-266 | approving a swap whose students lack rooms answers 400 but has already stored `approved` |
| AllocationProofs.ApproveOnce | backend/controllers/hostelController.js:258-281 | approving a swap of two assigned students stores `approved` and exchanges their rooms |
| AllocationProofs.ReapprovingSwapsBack | backend/controllers/hostelController.js:254-281 | approving the same request twice swaps the students back to their original rooms |
| AllocationProofs.InsertRoomKeepsValid | backend/controllers/hostelController.js:308 | inserting an empty room keeps the invariant |
| AllocationProofs.UpsertKeepsValid | backend/controllers/hostelController.js:292-314 | an upsert keeps the invariant when the new capacity is at least the matched room's occupant count |
| AllocationProofs.UpsertCanOverfill | backend/controllers/hostelController.js:305-307 | some upsert lowers a room's capacity below its occupants, breaking the invariant |
| AllocationProofs.SetPreferencesKeepsConsistent | backend/controllers/hostelController.js:51-63 | the unvalidated upsert keeps pointers and occupants consistent |
| AllocationProofs.SetPreferencesValidatedKeepsValid | backend/controllers/hostelController.js:41-70 | the validated upsert keeps the whole invariant |
| AllocationProofs.AutoAssignOrphansOccupant | backend/controllers/hostelController.js:84-87 | when the profile fails the schema, auto-assign leaves the student in the room's occupants while the profile has no room |
| AllocationProofs.PreferencesWithoutFoodOrphan | backend/controllers/hostelController.js:51-87 | concrete case: preferences without food preference, then auto-assign, break consistency; the validated upsert refuses them |
| AllocationProofs.PreferencesThenAssignKeepsValid | backend/controllers/hostelController.js:41-94 | after the validated upsert, auto-assign keeps the invariant and never fails validation |
| AllocationProofs.BatchKeepsValid | backend/controllers/hostelController.js:353-364 | the batch loop never fails on a valid store, keeps the invariant and changes only occupants and profiles |
| AllocationProofs.BatchReportsRooms | backend/controllers/hostelController.js:353-364 | each report entry is the room now recorded in that student's profile, and a room it names is eligible for the student; students the loop did not load keep their profiles |
| AllocationProofs.PendingUsersNoDup | backend/controllers/hostelController.js:351 | the pending users are distinct |
| AllocationProofs.BatchAutoAssignKeepsValid | backend/controllers/hostelController.js:349-370 | the batch keeps the invariant, never fails and leaves assigned students' profiles unchanged |
| AllocationProofs.BatchAutoAssignKeepsOthers | backend/controllers/hostelController.js:349-370 | students who are not pending and unassigned keep their profiles exactly |
| AllocationProofs.BatchAutoAssignReport | backend/controllers/hostelController.js:353-367 | the report lists each pending user in order with the eligible room now recorded in their profile, or none |
| HostelService.PrependAll | backend/controllers/hostelController.js:352-364 | prepending the entries already reported keeps the outcome's database and error |
| HostelService.PrependNothing | backend/controllers/hostelController.js:352 | an empty prefix changes nothing |
| HostelService.BatchSkipsAt | backend/controllers/hostelController.js:355-362 | a profile without a match adds a null entry and moves on |
| HostelService.BatchPlacesAt | backend/controllers/hostelController.js:355-362 | a matched profile is placed and reported with its room |
| HostelService.BatchStopsAt | backend/controllers/hostelController.js:356-368 | a failing profile save ends the batch with the error |
| HostelService.Hostel.constructor | backend/models/Room.js:9-25 | the service starts with an empty, valid database |
| HostelService.Hostel.AddToRoom | backend/controllers/hostelController.js:84 | the `$addToSet` write, in place |
| HostelService.Hostel.PullFromRoom | backend/controllers/hostelController.js:217 | the `$pull` write, in place |
| HostelService.Hostel.SaveProfileDoc | backend/controllers/hostelController.js:87 | `profile.save()`, in place |
| HostelService.Hostel.PlaceStudent | backend/controllers/hostelController.js:84-87 | the occupant write then the profile save, as `Place` |
| HostelService.Hostel.SetPreferences | backend/controllers/hostelController.js:41-70 | the corrected upsert, which validates the applied profile before storing it (not the source as written, see Findings), keeping the invariant |
| HostelService.Hostel.AutoAssignRoom | backend/controllers/hostelController.js:73-94 | auto-assign in place, keeping the invariant, with only the documented errors |
| HostelService.Hostel.AssignEach | backend/controllers/hostelController.js:353-364 | the `for` loop over pending profiles, equal to `BatchFrom` |
| HostelService.Hostel.BatchAutoAssign | backend/controllers/hostelController.js:349-370 | the batch in place, keeping the invariant, always succeeding |
| HostelService.Hostel.CreateSwap | backend/controllers/hostelController.js:128-134 | stores the request under a fresh id |
| HostelService.Hostel.MarkSwapPending | backend/controllers/hostelController.js:137 | sets the requester's status to `swap_pending` |
| HostelService.Hostel.RequestSwap | backend/controllers/hostelController.js:109-144 | the swap request in place, keeping the invariant |
| HostelService.Hostel.OpenSwap | backend/controllers/hostelController.js:113-137 | the checks and writes of the request, as `RequestSwap` |
| HostelService.Hostel.ExchangeRoomsOf | backend/controllers/hostelController.js:262-281 | the four occupant writes and two profile saves, including the `$pull` made before a missing second room fails, as `ExchangeRooms` |
| HostelService.Hostel.DecideSwap | backend/controllers/hostelController.js:250-289 | the decision in place, keeping the invariant, with only the documented errors |
| HostelService.Hostel.ApplyChange | backend/controllers/hostelController.js:147-177 | filing in place, keeping the invariant |
| HostelService.Hostel.RematchStudent | backend/controllers/hostelController.js:214-228 | release then re-match, as `Rematch` |
| HostelService.Hostel.DecideApplication | backend/controllers/hostelController.js:191-236 | the decision in place, keeping the invariant, with only the documented errors |
| HostelService.Hostel.UpsertRoom | backend/controllers/hostelController.js:292-314 | the upsert in place; keeps the invariant when the capacity still fits the occupants |
| HostelService.Hostel.WriteRoom | backend/controllers/hostelController.js:302-308 | the `findOneAndUpdate` write, as `UpsertRoom` |
| Common.RemoveAll | backend/controllers/hostelController.js:217 | `$pull`: every other element stays and the value is gone |
| Common.AddToSet | backend/controllers/hostelController.js:84 | `$addToSet`: the elements plus the value, growing by at most one |
| Common.ToggleMembership | backend/controllers/noticeController.js:347-365 | the toggle: the value's membership flips and every other element's is kept |
| Common.RemoveAllKeepsNoDup | backend/controllers/hostelController.js:217 | `$pull` keeps a duplicate-free array duplicate-free |
| Common.RemoveAllLength | backend/controllers/hostelController.js:217 | `$pull` on a duplicate-free array shrinks it by one iff the value was in it |
| Common.AddToSetKeepsNoDup | backend/controllers/hostelController.js:84 | `$addToSet` keeps a duplicate-free array duplicate-free and grows it by one iff the value was new |
| Common.ToggleTwiceRestores | backend/controllers/noticeController.js:347-365 | toggling a value that was absent, twice, restores the array |
| Common.RemoveAllAppended | backend/controllers/hostelController.js:217 | pulling a just-added value restores the array |
| Common.ToggleLength | backend/controllers/complaintController.js:235-252 | a toggle keeps the array duplicate-free and changes its length by one |
| Auth.StudentDomain | backend/controllers/authController.js:20 | the student domain is never empty (it defaults to `vitbhopal.ac.in`) |
| Auth.DecideRole | backend/controllers/authController.js:16-22 | admin iff the lower-cased email is allow-listed. Student iff it is not, and the text after its first `@` is the student domain. Otherwise no role |
| Auth.DecideRoleIgnoresCase | backend/controllers/authController.js:17 | the decision does not depend on letter case |
| Auth.DecideRoleOfAddress | backend/controllers/authController.js:19-20 | for a non-admin address `local@host`, student iff the lower-cased host is the domain |
| Auth.DomainOfAddress | backend/controllers/authController.js:19 | `split('@')[1]` of `local@host` is the host |
| Auth.SecondAtIgnored | backend/controllers/authController.js:19 | `local@domain@anything` is decided as a student: only the text between the first two `@` counts |
| Auth.NoAtNoStudent | backend/controllers/authController.js:19-21 | an email without `@` is never a student |
| Auth.GoogleSignIn | backend/controllers/authController.js:25-57 | missing token (400), unverified email (401), role not allowed (403); on success the lower-cased email is the only key that can be added |
| Auth.Register | backend/controllers/authController.js:60-84 | missing credentials (400), role not allowed (403), already registered (409); on success exactly one new account is added |
| Auth.PasswordSignIn | backend/controllers/authController.js:87-110 | missing credentials (400); unknown email, an account without a password hash, or a password the hash does not match (401); a stored email the role policy now refuses (403); success only after a hash match; a failure changes nothing and login never adds or removes an account |
| Auth.SignInSyncsRole | backend/controllers/authController.js:44-47 | after Google or password login, the stored role and the returned role both equal the freshly decided role |
| Auth.GoogleSignInKeepsAccountsValid | backend/controllers/authController.js:35-47 | Google login keeps every account keyed by its lower-cased email |
| Auth.RegisterKeepsAccountsValid | backend/controllers/authController.js:67-73 | registration keeps the account directory well keyed |
| Auth.PasswordSignInKeepsAccountsValid | backend/controllers/authController.js:91-100 | login keeps the account directory well keyed |
| Auth.RegisterTwiceConflicts | backend/controllers/authController.js:67-69 | registering the same email again answers 409 and changes nothing |
| Auth.UserDirectory.constructor | backend/controllers/authController.js:35-47 | the directory starts empty and valid |
| Auth.UserDirectory.GoogleLogin | backend/controllers/authController.js:25-57 | Google login in place, as `GoogleSignIn` |
| Auth.UserDirectory.RegisterAccount | backend/controllers/authController.js:60-84 | registration in place, as `Register` |
| Auth.UserDirectory.Login | backend/controllers/authController.js:87-110 | login in place, as `PasswordSignIn` |
| Admin.AddOne | backend/controllers/adminController.js:4-31 | missing email, branch or batch (400) and an existing email (400) change nothing; otherwise a student account under the lower-cased email is added |
| Admin.AddOneKeepsAccountsValid | backend/controllers/adminController.js:17-24 | adding a student keeps the directory well keyed |
| Admin.AddStudent | backend/controllers/adminController.js:4-31 | the single add in place |
| Admin.BulkCounts | backend/controllers/adminController.js:42-78 | added plus failed equals the number of entries, one error per failure, and the directory grows by exactly the added count |
| Admin.BulkSkipsIncomplete | backend/controllers/adminController.js:51-55 | an entry missing required fields adds one failure with "Missing required fields" and changes nothing else |
| Admin.BulkKeepsAccountsValid | backend/controllers/adminController.js:48-78 | the bulk loop keeps the directory well keyed |
| Admin.BulkAddStudents | backend/controllers/adminController.js:34-85 | a missing or empty list answers 400 and changes nothing; otherwise the `for` loop equals `Bulk` |
| CsvImport.Normalise | frontend/src/pages/admin/AdminStudents.jsx:57 | one header per column |
| CsvImport.CellAt | frontend/src/pages/admin/AdminStudents.jsx:64-68 | only the `batch` column is converted to a number; a missing cell is undefined (NaN for batch); other cells are trimmed |
| CsvImport.LineRow | frontend/src/pages/admin/AdminStudents.jsx:61-69 | a kept line always has a truthy email |
| CsvImport.BuildRow | frontend/src/pages/admin/AdminStudents.jsx:64-68 | the `forEach` over headers builds `RowOf` |
| CsvImport.RowsStep | frontend/src/pages/admin/AdminStudents.jsx:60-70 | one more line appends at most that line's row |
| CsvImport.ParseLine | frontend/src/pages/admin/AdminStudents.jsx:61-69 | the body of the loop for one line equals `LineRow` |
| CsvImport.ParseLines | frontend/src/pages/admin/AdminStudents.jsx:60-70 | the `for` loop over data lines equals `Rows` |
| CsvImport.ParseCsv | frontend/src/pages/admin/AdminStudents.jsx:52-74 | the parser's result equals `ParsedStudents` of the text |
| CsvImport.RowsBound | frontend/src/pages/admin/AdminStudents.jsx:60-70 | no more rows than data lines |
| CsvImport.ParsedBound | frontend/src/pages/admin/AdminStudents.jsx:56-70 | at most one student per newline in the text |
| CsvImport.RowsHaveEmail | frontend/src/pages/admin/AdminStudents.jsx:69 | every parsed student has a truthy email |
| CsvImport.RowsAppend | frontend/src/pages/admin/AdminStudents.jsx:60-70 | the rows of two blocks of lines are the rows of each, in order |
| CsvImport.OneLine | frontend/src/pages/admin/AdminStudents.jsx:61-69 | a line that is blank after trimming adds no row; any other line adds its row exactly when that row has a truthy email |
| CsvImport.RowOfKeys | frontend/src/pages/admin/AdminStudents.jsx:64-68 | a row's keys are exactly the headers |
| CsvImport.RowOfLastColumn | frontend/src/pages/admin/AdminStudents.jsx:64-68 | a key's value is the cell of its last column (later duplicate headers win) |
| CsvImport.OnlyBatchIsNumber | frontend/src/pages/admin/AdminStudents.jsx:66 | a cell is a number iff its header is `batch` |
| CsvImport.NamesNormalised | frontend/src/pages/admin/AdminStudents.jsx:57 | every header is already trimmed and lower case |
| Validation.IsValidEmail | frontend/temp_repo/backend/utils/validation.js:3-8 | non-strings and `""` are invalid; otherwise valid iff the trimmed text matches the pattern |
| Validation.EmailPatternMeaning | frontend/temp_repo/backend/utils/validation.js:6-7 | the pattern holds iff the text has no whitespace and exactly one `@` with something before it, and the part after it has a `.` that is neither its first nor its last character |
| Validation.PaddedEmail | frontend/temp_repo/backend/utils/validation.js:7 | padding with spaces does not change validity |
| Validation.TrimPadded | frontend/temp_repo/backend/utils/validation.js:7 | `trim` removes the padding |
| Validation.IsStrongPassword | frontend/temp_repo/backend/utils/validation.js:10-19 | non-strings and `""` are weak; a string is strong iff it has at least 8 characters, a digit and one of the characters of the special set |
| Validation.LongPasswordNeedsBothClasses | frontend/temp_repo/backend/utils/validation.js:14-18 | a password lacking a digit, or lacking a special character, is weak at any length |
| Validation.LettersOnlyPasswordWeak | frontend/temp_repo/backend/utils/validation.js:14-18 | a password made only of letters is weak at any length |
| Validation.StrongPasswordExtends | frontend/temp_repo/backend/utils/validation.js:14-18 | adding characters at either end keeps a strong password strong |
| Middleware.ExtractToken | frontend/temp_repo/backend/middleware/index.js:6-11 | a token comes from a truthy header or cookie; without a `Bearer ` header it is the cookie |
| Middleware.BearerRoundTrip | frontend/temp_repo/backend/middleware/index.js:8-9 | the token written after `Bearer ` is the token extracted |
| Middleware.HeaderTakesPrecedence | frontend/temp_repo/backend/middleware/index.js:8-9 | with a `Bearer ` header the cookie is ignored |
| Middleware.CookieFallback | frontend/temp_repo/backend/middleware/index.js:9-10 | without one, a non-empty cookie is the token |
| Middleware.Authenticate | frontend/temp_repo/backend/middleware/index.js:14-34 | no truthy token gives the no-token message; success iff the verifier accepts, with its payload; failures carry a non-empty message |
| Middleware.EmptyBearerRejected | frontend/temp_repo/backend/middleware/index.js:8-22 | `Authorization: Bearer ` with nothing after it is rejected even when a cookie is set |
| Middleware.Exchange.constructor | frontend/temp_repo/backend/middleware/index.js:14 | a request starts with no user and no role header |
| Middleware.Exchange.RequireAuth | frontend/temp_repo/backend/middleware/index.js:14-34 | success attaches the payload and echoes its role in `X-User-Role`; failure answers 401 and attaches nothing |
| Middleware.Exchange.RequireAuthStandalone | backend/auth/requireAuth.js:3-37 | the same decision without the role header |
| Middleware.RequireRole | frontend/temp_repo/backend/middleware/index.js:37-44 | continue or 403 "Insufficient role" |
| Middleware.IsAdmin | frontend/temp_repo/backend/middleware/roleCheck.js:3-8 | continue or 403 "Admin access required" |
| Middleware.IsStudent | frontend/temp_repo/backend/middleware/roleCheck.js:10-15 | continue or 403 "Student access required" |
| Middleware.RequireRoleMeaning | frontend/temp_repo/backend/middleware/index.js:39-41 | a request passes iff there is a user holding one of the listed roles |
| Middleware.RequireRoleWidens | frontend/temp_repo/backend/middleware/index.js:37-44 | listing more roles never shuts anyone out |
| Middleware.GuardsAgree | frontend/temp_repo/backend/middleware/roleCheck.js:3-15 | `isAdmin`/`isStudent` pass exactly when `requireRole('admin')`/`requireRole('student')` do |
| Middleware.NoUserPassesBothGuards | frontend/temp_repo/backend/middleware/roleCheck.js:3-15 | nobody passes both guards and a request without a user passes neither |
| Middleware.ErrorHandler | frontend/temp_repo/backend/middleware/index.js:65-71 | always a rejection; a truthy status, code and message pass through unchanged; otherwise the status is 500, the code `ServerError` and the message "Something went wrong" (the status is 500 iff the error's status is falsy or 500) |
| Notices.PreSave | backend/models/Notice.js:167-178 | the hook stamps `publishedAt` iff publication was modified on and no stamp exists, sets `isUrgent` for urgent priority and changes nothing else |
| Notices.PreSaveIdempotent | backend/models/Notice.js:167-178 | running the hook twice is the same as running it once |
| Notices.PreSaveKeepsStored | backend/models/Notice.js:167-178 | the hook keeps the stored notice's invariants (urgent priority is flagged urgent) |
| Notices.NormalTags | backend/controllers/noticeController.js:30-36 | tags are normalised one by one |
| Notices.CreateNotice | backend/controllers/noticeController.js:7-52 | falsy title or content fails validation; a created notice is stored with the caller as author |
| Notices.CreatedDefaults | backend/controllers/noticeController.js:22-36 | a created notice takes schema defaults: priority `medium`, audience `all`, not pinned, not published |
| Notices.CreatedFresh | backend/controllers/noticeController.js:7-52 | a new notice has no reads, likes or comments and no views; it is stamped iff published, and urgent iff its priority is urgent |
| Notices.Viewed | backend/controllers/noticeController.js:222-230 | a view counts once more, and a read receipt is added iff the user had none |
| Notices.ViewedAgain | backend/controllers/noticeController.js:222-230 | a second view only bumps the count |
| Notices.ViewedKeepsReceiptsDistinct | backend/controllers/noticeController.js:222-230 | each user has at most one read receipt |
| Notices.Toggled | backend/controllers/noticeController.js:281-285 | toggling flips publication, and the first publication stamps `publishedAt` |
| Notices.ToggledThriceKeepsFirstStamp | backend/controllers/noticeController.js:281-285 | re-publishing keeps the first publication time |
| Notices.Liked | backend/controllers/noticeController.js:347-365 | a like toggles the user's membership and nothing else |
| Notices.LikedCount | backend/controllers/noticeController.js:347-365 | a like list without repeats keeps none, and the count moves by one |
| Notices.LikedTwiceRestores | backend/controllers/noticeController.js:347-365 | like then unlike by a reader who had not liked restores the notice |
| Notices.Field | backend/controllers/noticeController.js:251-255 | a field read back carries its own key |
| Notices.AssignFrame | backend/controllers/noticeController.js:251-255 | assigning one field changes no other |
| Notices.AssignOverwrites | backend/controllers/noticeController.js:251-255 | assigning a field twice keeps the second value |
| Notices.ApplyUpdatesFrame | backend/controllers/noticeController.js:251-255 | an update changes only the keys it names |
| Notices.LastAssignmentWins | backend/controllers/noticeController.js:251-255 | the later value of a repeated key wins |
| Notices.UndefinedSkipped | backend/controllers/noticeController.js:252-254 | an undefined value is skipped |
| Notices.AudienceFilter | backend/controllers/noticeController.js:95-112 | the audience clauses admit a notice iff it reaches the student: all, students, their hostel or their room |
| Notices.ActiveForIsStudentListing | backend/models/Notice.js:181-217 | the notice model's static and the controller's student listing with no query (`backend/controllers/noticeController.js:71-112`) admit the same notices |
| Notices.IsActive | backend/models/Notice.js:151-155 | an active notice is published; a published notice without expiry is active; one whose expiry is not after now is inactive; active iff published and unexpired |
| Notices.Unexpired | backend/controllers/noticeController.js:75-81 | no expiry counts as unexpired; otherwise unexpired iff the expiry is after now |
| Notices.ActiveEarlier | backend/models/Notice.js:151-155 | activity only ends: active at a time means active at every earlier time |
| Notices.Reaches | backend/controllers/noticeController.js:97-112 | `all` and `students` notices always reach a student; a hostel or room notice reaches them only through their room's (non-zero) hostel number or their room; a student without room information sees only `all` and `students` notices; no notice outside the audience enum reaches anyone |
| Notices.Listed | backend/controllers/noticeController.js:71-117 | a student is listed only published notices that reach them, and only active ones unless `includeExpired` is truthy; other roles see every notice when no category or priority is given; category and priority filter exactly |
| Notices.ActiveFor | backend/models/Notice.js:181-212 | the notices the static selects are the active ones that reach the user |
| Notices.ActiveNoticesQuery | backend/models/Notice.js:181-212 | the query built clause by clause (`isPublished`, the three expiry clauses, the audience clauses pushed per piece of room information) admits exactly the active notices that reach the user |
| Notices.NoticeDoc.LikeCount | backend/models/Notice.js:136-138 | the number of likes, zero exactly when there are none |
| Notices.NoticeDoc.CommentCount | backend/models/Notice.js:141-143 | the number of comments, zero exactly when there are none |
| Notices.NoticeDoc.ReadCount | backend/models/Notice.js:146-148 | the number of read receipts, zero exactly when there are none |
| Notices.NoticeDoc.constructor | backend/models/Notice.js:1-133 | a document wraps a stored notice |
| Notices.NoticeDoc.AssignField | backend/controllers/noticeController.js:251-255 | one `notice[key] = value`, in place |
| Notices.NoticeDoc.PreSaveHook | backend/models/Notice.js:167-178 | the hook, in place |
| Notices.NoticeDoc.View | backend/controllers/noticeController.js:201-237 | students get 404 for an unpublished notice; otherwise the view is recorded in place |
| Notices.NoticeDoc.TogglePublish | backend/controllers/noticeController.js:272-297 | toggles in place and returns the new state |
| Notices.NoticeDoc.Like | backend/controllers/noticeController.js:337-370 | toggles the like and returns the count and whether the user now likes it |
| Notices.CommentOutcome | backend/controllers/noticeController.js:311-322 | 403 exactly when a student comments on an unpublished notice; otherwise the caller's trimmed comment when it passes the schema, a validation error when it does not |
| Notices.CommentKeepsSchema | backend/controllers/noticeController.js:321-322 | pushing a valid comment keeps the notice within its schema, so the save succeeds |
| Notices.NoticeDoc.AppendComment | backend/controllers/noticeController.js:321-322 | the comment is appended, nothing else changes and the invariant holds |
| Notices.NoticeDoc.AddComment | backend/controllers/noticeController.js:300-334 | the outcome is `CommentOutcome`; only an accepted comment is appended, and a refused one leaves the notice unchanged |
| Notices.NoticeDoc.Update | backend/controllers/noticeController.js:240-269 | the assigned notice is saved through the hook iff it passes the schema; otherwise nothing changes |
| Complaints.PreSave | backend/models/Complaint.js:139-144 | the hook stamps `resolvedAt` iff status was modified to resolved and no stamp exists; nothing else changes |
| Complaints.PreSaveIdempotent | backend/models/Complaint.js:139-144 | running the hook twice is the same as running it once |
| Complaints.CreateComplaint | backend/controllers/complaintController.js:7-57 | a created complaint passes the schema and belongs to the caller; failure is a validation error |
| Complaints.CreateNeedsRequiredFields | backend/controllers/complaintController.js:7-57 | missing title, description or category fails |
| Complaints.CreatedDefaults | backend/controllers/complaintController.js:34-46 | a new complaint is open, with priority `medium` unless given, no upvotes, comments or resolution |
| Complaints.CreatedOrigin | backend/controllers/complaintController.js:21-32 | a non-anonymous complaint of an assigned student takes the room and hostel from the assignment; otherwise the body's hostel |
| Complaints.GetComplaint | backend/controllers/complaintController.js:117-144 | 404 iff not found; 403 iff a student asks for someone else's complaint; otherwise the complaint |
| Complaints.MayAccess | backend/controllers/complaintController.js:135-137 | a student may open exactly the complaints they filed; every other role may open any |
| Complaints.ComplaintListed | backend/controllers/complaintController.js:74-84 | a student's listing holds only their own complaints; with no filters a complaint is listed iff the caller may open it; a status filter matches exactly |
| Complaints.Origin | backend/controllers/complaintController.js:21-32 | an anonymous complaint, or one from a student without a room, keeps the body's hostel with no room; otherwise the room, hostel number and hostel name come from the student's room |
| Complaints.ComplaintDoc.UpvoteCount | backend/models/Complaint.js:122-124 | the number of upvotes, zero exactly when there are none |
| Complaints.ComplaintDoc.CommentCount | backend/models/Complaint.js:127-129 | the number of comments, zero exactly when there are none |
| Complaints.ListingAgreesWithAccess | backend/controllers/complaintController.js:77-84 | a complaint that is listed to a caller can be opened by them, and one they can open appears in the unfiltered list |
| Complaints.Upvoted | backend/controllers/complaintController.js:235-252 | an upvote toggles the user's membership and nothing else |
| Complaints.UpvotedTwiceRestores | backend/controllers/complaintController.js:235-252 | upvote then un-upvote by a user who had not upvoted restores the complaint |
| Complaints.UpvotedCount | backend/controllers/complaintController.js:235-252 | an upvote list without repeats keeps none, and the count moves by one |
| Complaints.StatusAssigned | backend/controllers/complaintController.js:159-168 | truthy fields overwrite (notes trimmed); resolving stamps time and resolver; nothing else changes |
| Complaints.ResolvedAgainRestamps | backend/controllers/complaintController.js:163-166 | resolving twice re-stamps with the later time and resolver |
| Complaints.EmptyStatusBodyChangesNothing | backend/controllers/complaintController.js:159-168 | an empty or all-empty-string body changes nothing |
| Complaints.ComplaintDoc.constructor | backend/models/Complaint.js:1-119 | a document wraps a valid complaint |
| Complaints.ComplaintDoc.PreSaveHook | backend/models/Complaint.js:139-144 | the hook, in place |
| Complaints.ComplaintDoc.Upvote | backend/controllers/complaintController.js:225-258 | toggles the upvote in place and returns the count and whether the user now upvotes |
| Complaints.CommentOutcome | backend/controllers/complaintController.js:197-209 | 403 exactly when the caller may not access the complaint; otherwise the caller's trimmed comment, marked as an admin comment exactly for admins, when it passes the schema, and a validation error when it does not |
| Complaints.CommentKeepsSchema | backend/controllers/complaintController.js:208-209 | pushing a valid comment keeps the complaint within its schema, so the save succeeds |
| Complaints.ComplaintDoc.AppendComment | backend/controllers/complaintController.js:208-209 | the comment is appended, nothing else changes and the invariant holds |
| Complaints.ComplaintDoc.AddComment | backend/controllers/complaintController.js:186-222 | the outcome is `CommentOutcome`; only an accepted comment is appended, and a refused one leaves the complaint unchanged |
| Complaints.ComplaintDoc.AssignStatusFields | backend/controllers/complaintController.js:159-168 | the field assignments, in place |
| Complaints.ComplaintDoc.AssignWorkflow | backend/controllers/complaintController.js:159-160 | status and assignee, in place |
| Complaints.ComplaintDoc.AssignNotes | backend/controllers/complaintController.js:161-162 | admin notes and resolution, trimmed, in place |
| Complaints.ComplaintDoc.SetAdminNotes | backend/controllers/complaintController.js:161 | the trimmed admin notes |
| Complaints.ComplaintDoc.SetResolution | backend/controllers/complaintController.js:162 | the trimmed resolution |
| Complaints.ComplaintDoc.UpdateStatus | backend/controllers/complaintController.js:147-183 | the assigned complaint is saved through the hook iff it passes the schema; otherwise nothing changes |
| Pagination.Skip | backend/controllers/noticeController.js:127 | page 1 skips nothing; a page from 1 up with a non-negative limit skips a non-negative count; a page below 1 with a positive limit gives a negative skip |
| Pagination.PageCount | backend/controllers/noticeController.js:142 | `Math.ceil(total / limit)`: the fewest pages of `limit` that hold every result, 0 iff there are none |
| Pagination.PagesCoverResults | backend/controllers/noticeController.js:127-142 | every result index lies on exactly one page within the page count |

## Left out

- I/O, the HTTP layer and concurrency: each handler runs alone, on a database held as a value. Interleaved requests are not modelled.
- JWT signing and verification, bcrypt and Google ID-token verification are parameters. The refresh, logout and `me` endpoints are not modelled.
- `loginLimiter` and `notFound` are not modelled: they are rate limiting and a fixed 404 response, with no state of the core.
- Listing handlers are not modelled beyond their filters and page counts: pinned-first sorting, `sortBy`, and the `skip`/`limit` slicing of results. This covers `getAllNotices`, the notice and complaint statistics, `listApplications`, `listSwapRequests`, `getProfile` and `getDashboardStats`.
- `deleteNotice` and `deleteComplaint` are not modelled (document removal only).
- The notice and complaint document classes assume the document exists. A `findById` that finds nothing, which answers 404, is the `None` case of `Complaints.GetComplaint` only.
- Notice attachments and `notificationSent` are not modelled (no rule reads them).
- `authController.js` imports `../../models/User.js`, a file outside the backend directory; that file is not part of this model. Accounts carry only the fields the controllers read and write.
- `backend/models/User.js` declares no `branch` or `batch` path, so the admin inserts keep only email, name, phone and role.
- `email.toLowerCase()` on a non-string email throws, answering 500. The model takes emails as strings.
- `Number(...)` and `parseInt` are a parameter returning an integer or nothing. Fractional numbers are not modelled, except in the availability listing, where the parameter separates an integer, a fraction (which matches no stored number) and `NaN` (which makes the query throw).
- `String.length` counts UTF-16 units. The model counts characters.
- `toLowerCase` is modelled for ASCII letters only.
- The CSV file is read by a `FileReader` in the browser. The model starts from the text.
- Notices.NoticeDoc.Update: `Object.keys(updates).forEach` assigns the fields and `save()` validates them. This is modelled as a list of assignments followed by one validation.
- HostelService.Hostel.UpsertRoom: keeps the invariant only when the new capacity still fits the matched room's occupants, because the source does not check this (see `AllocationProofs.UpsertCanOverfill`).
- Allocation.SetPreferences: models `findOneAndUpdate` without validators, as written. The service class uses `Allocation.SetPreferencesValidated` (see Findings).
- HostelService.Hostel.SetPreferences: stores preferences through the corrected, validated upsert (`Allocation.SetPreferencesValidated`), not the unvalidated `findOneAndUpdate` of `backend/controllers/hostelController.js:51-63` as written (see Findings).
- Notices.NoticeDoc.LikeCount: the `likes ? likes.length : 0` guard for an absent array is not modelled, because a loaded document always has its arrays (Mongoose defaults them to empty); the same holds for the other count virtuals of notices and complaints.

## Findings

| source | as written | input that shows it | evidently intended | confidence | as-written member | corrected member |
|---|---|---|---|---|---|---|
| backend/controllers/hostelController.js:51-63 | `setPreferences` upserts the profile with `findOneAndUpdate`, which skips schema validation. A profile without the required `foodPreference` is stored. `autoAssignRoom` then adds the student to a room (line 84) before `profile.save()` (line 87) rejects the profile, leaving an occupant whose profile points at no room | preferences `{ preferredSeater: 2, preferredAC: false }` with no `foodPreference`, then auto-assign with one free 2-seater non-AC room | preferences are validated when stored, so a room's occupants always match the profiles that point at it | not executed | AllocationProofs.PreferencesWithoutFoodOrphan | AllocationProofs.PreferencesThenAssignKeepsValid |
