# Municipal vehicle impound backend — Dafny model

This project models the business logic of a Laravel backend for a municipal vehicle impound (fourrière). It is written in Dafny and states the logic's properties as verified contracts and lemmas. The parts modelled:

- **Fees.** There are four separate fee formulas:
  - the settings-driven engine with a threshold penalty (`FeeEngine`);
  - the payment controller's tariff-by-vehicle-type total, which drives the automatic `ready_for_release` transition (`Tariff`);
  - the two flat 2000/10000 storage quotes with a clamped balance (`Quotes`);
  - the public quote (`Quotes`).

  Lemmas relate them. With default settings and at most 30 days, the engine and the flat quotes agree; past 30 days they drift apart.
- **Vehicle records** (`Fleet`):
  - deletion guarded by procedures and payments;
  - photo-list appends;
  - the public status updates by id and by plate.
- **Authorization** (`Roles`): the CheckRole middleware, the notification, procedure and vehicle policies, and the `admin`/`operator`/`viewer` gates.
- **State guards over collections:**
  - the last-admin and last-active-admin guards of user management (`AdminUsers`);
  - the cached system-settings merge (`SystemSettings`);
  - notification read state (`Inbox`).
- **Dashboard post-processing** (`Dashboard`): the twelve-month payments report, and the recent-activity feed that merges three latest-k lists into one top-k list.
- **Pure classifiers and string functions:** the API exception-to-status mapping (`ErrorHandler`), and the file service's base64-prefix and `public/` path handling (`Files`).

Each controller action is a pure function from the relevant state to a status code and the new state. Database queries become input sequences or maps. The elapsed days since impound are an input. Random file names and the current time are parameters.

**Two role representations.** The source reads a user's `role` in two incompatible ways:

- CheckRole and the procedure and vehicle policies compare it with `UserRole` enum cases.
- The user-management controller reads `->value`, which exists only on an enum case.
- The notification policy, the gates and the settings controller compare it with the string `'admin'` using `===`.

An enum case is never identical to a string. So whichever form the attribute takes at run time, one family of checks rejects every user. `Roles.RoleAttr` keeps both forms, plus a null role, so that each check is stated as written. `Roles.AdminChecksAreDisjoint` shows that no user counts as an administrator for both families. `SystemSettings.EnumAdminIsRefused` shows the settings update refusing an enum-typed administrator. Reading `->value` on a non-enum role raises a PHP warning, which Laravel turns into an exception answered with 500. The model reports 500 there.

The vehicle-type key used by the tariff is an opaque string. The table is keyed by enum case names (`MOTORCYCLE`), while the `VehicleType` enum's values are French labels. `Tariff.LabelsNeverMatchTheTable` states what happens if labels are stored: every vehicle is charged the fallback row.

The fee engine's settings are read through the `Setting` model, whose `json` cast already decodes the `value` column. `getSetting` then decodes it a second time. The engine works only when the column holds JSON-encoded text, as the unit tests store it. A column holding the object itself casts to a PHP array, which `json_decode` refuses with a TypeError (`FeeEngine.ObjectValuedSettingFails`).

The system-settings update merges with `array_merge`. PHP turns a JSON member name such as `"5"` into the integer key 5, and `array_merge` appends integer-keyed values and renumbers them rather than overwriting. The model keeps the integer-keyed part of the stored array separately, so the update is idempotent only without such members (`SystemSettings.UpdateIdempotentIff`).

## Model

| member | source | states |
|---|---|---|
| Entities.CompletedPaidAppend | app/Http/Controllers/PaymentController.php:293-301 | recording a payment raises the vehicle's completed total by its amount exactly when it is that vehicle's completed payment |
| Entities.CompletedPaidIgnores | app/Http/Controllers/PaymentController.php:162-164 | a payment for another vehicle, or one not `completed`, leaves the completed total unchanged |
| Entities.CompletedPaidIsSumOfCounted | app/Http/Controllers/VehiclePaymentsController.php:63-65 | the completed total is the sum of a list of amounts that corresponds one to one, in ledger order, to the rows that are the vehicle's completed payments: each such row is counted exactly once and no other row is |
| Entities.AllPaidSplits | app/Http/Controllers/VehicleController.php:349-350 | the all-status total is the completed total plus the vehicle's pending and failed amounts |
| Entities.PaidTotalsNonNegative | app/Http/Controllers/VehicleController.php:349-350 | with non-negative amounts, 0 ≤ completed total ≤ all-status total |
| FeeEngine.GetSetting | app/Services/FeeCalculationService.php:55-66 | a TypeError iff the cast value is an array (the `json` cast already decoded an object or list); otherwise the `amount` of the second decode when it is an object with a non-null amount, else the default |
| FeeEngine.ReadAmount | app/Services/FeeCalculationService.php:14-15 | an array-valued setting fails with the decode TypeError; a setting without an amount resolves to its default; an amount resolves to itself when it is an integer, else fails |
| FeeEngine.Breakdown | app/Services/FeeCalculationService.php:23-36 | storage = days × daily rate; penalty = max(0, days − threshold) × rate; total = storage + admin fee + penalty |
| FeeEngine.CalculateFees | app/Services/FeeCalculationService.php:11-46 | succeeds iff all four settings resolve to integers, and then yields the breakdown over the resolved settings; any array-valued fee setting makes it fail; a failure names one of the four keys and its real cause |
| FeeEngine.DefaultsWhenUnset | app/Services/FeeCalculationService.php:14-27 | with none of the four keys present the rates are 2000, 10000, 30 and 1000 |
| FeeEngine.NoPenaltyUpToThreshold | app/Services/FeeCalculationService.php:29-33 | days ≤ threshold (threshold day included) gives no penalty |
| FeeEngine.PenaltyPastThreshold | app/Services/FeeCalculationService.php:30-33 | past the threshold the penalty is (days − threshold) × rate |
| FeeEngine.TotalNonDecreasing | app/Services/FeeCalculationService.php:36 | with non-negative rates the total due never decreases as days grow |
| FeeEngine.BreakdownNonNegative | app/Services/FeeCalculationService.php:23-36 | with non-negative rates and fee every component is non-negative and total ≥ admin fee |
| FeeEngine.TenDayScenario | tests/Unit/Services/FeeCalculationServiceTest.php:49-54 | with the settings stored as the test stores them (JSON text, cast back to that text), 10 days at 2000/10000 gives 20000 / 0 / 30000 |
| FeeEngine.ThirtyFiveDayScenario | tests/Unit/Services/FeeCalculationServiceTest.php:101-106 | 35 days with threshold 30 and rate 1000 gives 70000 / 5000 / 85000 |
| FeeEngine.ObjectValuedSettingFails | app/Services/FeeCalculationService.php:63 | a `daily_storage_fee` column holding the object `{"amount": 2000}` itself makes the calculation fail, whatever the decoder |
| Tariff.RowFor | app/Http/Controllers/PaymentController.php:323-324 | a listed type key selects its own row; any other or absent key selects the 30000/5000 fallback |
| Tariff.VehicleTotalDue | app/Http/Controllers/PaymentController.php:330-333 | total ≥ removal fee, and total − removal = days × daily rate of the selected row |
| Tariff.ListedTypesUseTheirRow | app/Http/Controllers/PaymentController.php:313-322 | for each of the eight keys, total = that row's removal + days × daily; the table has exactly those keys |
| Tariff.UnlistedTypeFallsBack | app/Http/Controllers/PaymentController.php:324 | an unlisted or absent type is charged 30000 + days × 5000 |
| Tariff.LabelsNeverMatchTheTable | app/Enums/VehicleType.php:7-15 | none of the enum's label values is a table key, so each would be charged the fallback row |
| Tariff.OtherCaseFallsBack | app/Http/Controllers/PaymentController.php:324 | the `OTHER` type has no row and falls back |
| Tariff.VehicleTotalDueNonDecreasing | app/Http/Controllers/PaymentController.php:330-333 | the tariff total never decreases as days grow |
| Tariff.RecordPayment | app/Http/Controllers/PaymentController.php:293-305 | the payment is always appended; the vehicle becomes ready_for_release iff the new payment is a completed release fee and the completed total reaches the total due, else it is untouched |
| Tariff.ReleaseThreshold | app/Http/Controllers/PaymentController.php:295-303 | a completed release fee releases the vehicle iff earlier completed payments plus its amount reach the total due |
| Tariff.OtherPaymentsLeaveVehicle | app/Http/Controllers/PaymentController.php:156-169 | a payment that is not a completed release fee is recorded and leaves the vehicle unchanged |
| Tariff.CreateVehiclePayment | app/Http/Controllers/PaymentController.php:278-308 | invalid requests (including a `notes` that is neither absent, null nor a string) get 422 with nothing written; valid ones get 201, append exactly the requested payment, and the vehicle is released iff the release rule fires (or it already was) |
| Tariff.NegativeAmountRefused | app/Http/Controllers/PaymentController.php:280-286 | a negative amount is refused with 422 and the ledger is unchanged |
| Tariff.NonStringNoteRefused | app/Http/Controllers/PaymentController.php:284 | a note present with a value that is neither null nor a string is refused with 422 and nothing is written, whatever the other fields |
| Quotes.Balance | app/Http/Controllers/VehiclePaymentsController.php:68 | balance ≥ 0; balance = 0 iff paid ≥ total; balance ≤ total when both are non-negative; a positive balance is exactly what is missing |
| Quotes.Quote | app/Http/Controllers/VehiclePaymentsController.php:50-60 | storage = days × 2000, total = storage + 10000, no penalty; balance is zero iff the amount paid covers the total |
| Quotes.CompletedOnlyQuote | app/Http/Controllers/VehiclePaymentsController.php:47-80 | flat total, and amount paid = the vehicle's completed payments only |
| Quotes.AllPaymentsQuote | app/Http/Controllers/VehicleController.php:333-365 | flat total, and amount paid = every payment of the vehicle whatever its status |
| Quotes.QuoteVariantsCompared | app/Http/Controllers/VehicleController.php:349-353 | same total; all-status paid = completed paid + other statuses; with non-negative amounts its balance is never larger |
| Quotes.PendingPaymentDivergence | app/Http/Controllers/VehicleController.php:349-353 | one pending 5000 payment: balance 10000 in the completed-only quote, 5000 in the all-status quote |
| Entities.FirstWithPlate | app/Http/Controllers/PublicVehicleController.php:149 | the position of the first row in query order carrying the plate (no earlier row carries it), and nothing iff no row carries it |
| Quotes.PublicFees | app/Http/Controllers/PublicVehicleController.php:147-180 | 404 iff no vehicle has the plate; otherwise a vehicle with that plate, the requested days reported back, storage = days × 2000 and total = storage + 10000 |
| Quotes.PublicAgreesWithStorageQuotes | app/Http/Controllers/PublicVehicleController.php:157-168 | the public total equals both storage quotes' totals, whatever the payments |
| Quotes.EngineMatchesFlatUpToThreshold | app/Services/FeeCalculationService.php:14-36 | with every setting absent and days ≤ 30 the engine's total equals days × 2000 + 10000 |
| Quotes.EngineExceedsFlatPastThreshold | app/Services/FeeCalculationService.php:26-36 | with every setting absent and days > 30 the engine charges (days − 30) × 1000 more than the flat quotes |
| Fleet.Destroy | app/Http/Controllers/VehicleController.php:235-247 | 404 for an unknown id; 422 and no change with procedures or payments; otherwise 204 with exactly that vehicle removed |
| Fleet.AppendPhotos | app/Http/Controllers/VehicleController.php:265-272 | the existing list (empty when null) is a prefix and the new paths follow in upload order |
| Fleet.AppendPhotosTwice | app/Http/Controllers/VehicleController.php:265-272 | two uploads in a row equal one upload of both batches in order |
| Fleet.StoredPaths | app/Http/Controllers/VehicleController.php:267-270 | one stored path per upload, in upload order |
| Fleet.UploadPhotos | app/Http/Controllers/VehicleController.php:256-275 | 404 for an unknown vehicle; 422 and no change for an invalid upload set; else the photo list is extended |
| Fleet.UpdatePhotos | app/Http/Controllers/VehicleController.php:207-214 | the photo part of update: with files attached the new list is the old one (empty when null) followed by the stored paths in upload order; without files the photos are left alone; the photo step touches no other field |
| Fleet.PublicUpdate | app/Http/Controllers/PublicVehicleController.php:21-48 | 404 for an unknown id; 400 and no change outside the five statuses; otherwise only the status changes |
| Fleet.FirstIdWithPlate | app/Http/Controllers/PublicVehicleController.php:87 | with `order` listing exactly the table's ids, the id of the first vehicle in that order carrying the plate, or none iff no vehicle of the table carries it |
| Fleet.PublicUpdateByPlate | app/Http/Controllers/PublicVehicleController.php:85-118 | 404 for an unknown plate; 400 with nothing changed for a status outside the whitelist; 200 iff the plate is found and the status is accepted, and then the status is set, the description is replaced only when the request carries one, and nothing else changes |
| Fleet.StatusWhitelist | app/Http/Controllers/PublicVehicleController.php:28-35 | an omitted status means `claimed`, which is accepted; `ready_for_release` is not accepted |
| Roles.StringToUserRole | app/Http/Middleware/CheckRole.php:46-54 | exactly `admin`, `agent`, `finance` map to a role, whose value is that string |
| Roles.CheckRole | app/Http/Middleware/CheckRole.php:17-41 | 401 without a user; pass for an empty list or the ADMIN case; otherwise pass iff some listed string maps to the user's role; a logged-in user who does not pass always gets 403, never 401 |
| Roles.AnyListedRoleIff | app/Http/Middleware/CheckRole.php:31-38 | the loop passes iff some position of the list matches the user's role |
| Roles.UnknownRoleStringGrantsNothing | app/Http/Middleware/CheckRole.php:48-53 | an unknown role string never matches a user with a role, and alone it gives 403 to non-admins |
| Roles.NullRoleMatchesUnknownString | app/Http/Middleware/CheckRole.php:33-35 | a user with a null role passes for an unknown role string (null === null) |
| Roles.MoreRolesNeverRevoke | app/Http/Middleware/CheckRole.php:31-38 | extending a non-empty role list never turns a pass into a denial |
| Roles.EmptyListIsNoRestriction | app/Http/Middleware/CheckRole.php:26-28 | the empty list admits a finance user whom the list `agent` refuses |
| Roles.NotificationPolicyFacts | app/Policies/NotificationPolicy.php:16-74 | viewAny always; view iff update iff owner; create iff restore iff forceDelete; delete iff owner or create; update and restore imply delete |
| Roles.ProcedurePolicyFacts | app/Policies/ProcedurePolicy.php:17-76 | view always; create iff update iff manageDocuments; delete iff restore iff forceDelete; delete implies update; finance may only view |
| Roles.VehiclePolicyFacts | app/Policies/VehiclePolicy.php:17-68 | view always; create iff update; delete iff restore iff forceDelete; delete implies update; an agent may update but not delete |
| Roles.GatesNested | app/Providers/AuthServiceProvider.php:42-52 | admin ⇒ operator ⇒ viewer; each gate holds iff the role string is in its list; agent, finance and enum roles pass none |
| Roles.AdminChecksAreDisjoint | app/Providers/AuthServiceProvider.php:42-44 | no user passes both the enum-based admin checks and the string-based ones |
| AdminUsers.EnsureAdmin | app/Http/Controllers/Admin/UserController.php:32-38 | allowed iff there is a user whose role is the ADMIN case; 403 without a user or for any other enum role; 500 when the role is not an enum case (a string or null), since `->value` fails |
| AdminUsers.DestroyUser | app/Http/Controllers/Admin/UserController.php:203-227 | 404 unknown, then the admin guard; 204 iff allowed, the target's role readable, not the last admin and without notifications or payments; an allowed request on a target with an enum role is otherwise refused with 422 (last admin, or notifications or payments), and one whose role is not an enum case gets 500; a refusal changes nothing; at least one admin remains |
| AdminUsers.LastActiveAdminCanBeDeleted | app/Http/Controllers/Admin/UserController.php:208-210 | with one active and one inactive admin, the active one can be deleted, leaving no active admin |
| AdminUsers.ToggleActive | app/Http/Controllers/Admin/UserController.php:280-301 | 200 iff allowed and not deactivating the last active admin; an allowed request on a target with an enum role is otherwise refused with 400, and one whose role is not an enum case gets 500; a refusal changes nothing; only `is_active` flips; at least one active admin remains |
| AdminUsers.ToggleTwiceRestores | app/Http/Controllers/Admin/UserController.php:297-298 | two permitted toggles restore the directory |
| AdminUsers.ApplyUpdate | app/Http/Controllers/Admin/UserController.php:177-183 | the password is replaced by the hash of a non-empty new one and kept otherwise; other fields take the request's values when present |
| AdminUsers.UpdateUser | app/Http/Controllers/Admin/UserController.php:170-186 | 404 unknown, then the admin guard; on success only the target account changes |
| AdminUsers.UpdateKeepsPasswordUnlessGiven | app/Http/Controllers/Admin/UserController.php:177-181 | without a usable password the stored hash is unchanged |
| AdminUsers.GetRoles | app/Http/Controllers/Admin/UserController.php:248-258 | for administrators, every role case's value, each mapping back to its case; others get the guard's status |
| SystemSettings.Index | app/Http/Controllers/SettingController.php:42-57 | returns the cached array, or caches and returns the six defaults |
| SystemSettings.NonNull | app/Http/Controllers/SettingController.php:130-132 | keeps exactly the request entries whose value is not null, string-keyed and integer-keyed alike, with their values |
| SystemSettings.Merge | app/Http/Controllers/SettingController.php:130-132 | string keys of both arrays, request values winning and other keys keeping their base value; integer-keyed values are never overwritten but appended after the base's, renumbered from 0 |
| SystemSettings.MergeKeepsPositions | app/Http/Controllers/SettingController.php:130-132 | position by position, the merged integer-keyed entries hold the base's values first and then the request's, in order |
| SystemSettings.Update | app/Http/Controllers/SettingController.php:98-141 | 400 and no change when validation fails; then 403 and no change unless the role is the string `admin`; otherwise non-null string-keyed request values override the cached or default settings, non-null integer-keyed ones are appended, and the result is cached |
| SystemSettings.UpdateTwice | app/Http/Controllers/SettingController.php:130-135 | sending the same update again keeps the string-keyed settings and appends the request's non-null integer-keyed values once more |
| SystemSettings.UpdateIdempotentIff | app/Http/Controllers/SettingController.php:130-135 | a repeated update stores the same array iff the request has no non-null value under an integer key |
| SystemSettings.NumericMemberDecoded | app/Http/Controllers/SettingController.php:131 | the JSON member `"5"` lands in `$request->all()` under the integer key 5, not as a string key |
| SystemSettings.NumericKeyIsAppended | app/Http/Controllers/SettingController.php:130-132 | that request replaces nothing: on the defaults its value becomes entry 0, the string-keyed settings stay the defaults, and sending it again adds entry 1 |
| SystemSettings.IndexShowsLastUpdate | app/Http/Controllers/SettingController.php:135 | after a successful update, index returns exactly the updated map |
| SystemSettings.NullKeepsPrevious | app/Http/Controllers/SettingController.php:130-132 | a null request value keeps the previous setting |
| SystemSettings.UnlistedKeysAreStored | app/Http/Controllers/SettingController.php:130-132 | a non-numeric member the validator does not list is stored as sent |
| SystemSettings.EnumAdminIsRefused | app/Http/Controllers/SettingController.php:115-117 | a caller whose role is the ADMIN enum case gets 403 even with a valid request |
| SystemSettings.DefaultsAgree | app/Http/Controllers/SettingController.php:46-53 | the defaults of index equal the defaults of update |
| SystemSettings.StoreIsSeparateFromFeeEngine | app/Services/FeeCalculationService.php:15 | the cached `admin_fee` is not the engine's `administrative_fee` key |
| Inbox.Index | app/Http/Controllers/NotificationController.php:40-53 | every listed notification is the caller's (and unread when filtering); every such notification is listed |
| Inbox.GetUnreadCount | app/Http/Controllers/NotificationController.php:151-159 | the count of the caller's notifications with null read_at; zero iff none of the caller's is unread |
| Inbox.UnreadCountMatchesIndex | app/Http/Controllers/NotificationController.php:45-47 | the unread count equals the length of the unread-filtered inbox |
| Inbox.MarkAllAsRead | app/Http/Controllers/NotificationController.php:123-131 | the caller's unread notifications get `now`; all other rows, and already-read ones, are unchanged |
| Inbox.MarkAllLeavesNothingUnread | app/Http/Controllers/NotificationController.php:126-128 | afterwards the caller's unread count is 0 |
| Inbox.MarkAllKeepsOthersCounts | app/Http/Controllers/NotificationController.php:126-128 | other users' unread counts are unchanged |
| Inbox.MarkAsRead | app/Http/Controllers/NotificationController.php:98-103 | 404 for an unknown id; 403 unless the caller owns it; otherwise read_at := now for that row only |
| Inbox.MarkAsReadRestamps | app/Services/NotificationService.php:121-126 | an already-read notification is stamped again with the new time |
| Inbox.Show | app/Http/Controllers/NotificationController.php:74-78 | 404 for an unknown id; the notification with 200 when the caller owns it; 403 and nothing otherwise |
| Dashboard.FirstWhere | app/Http/Controllers/DashboardController.php:142 | finds an amount iff some row has that month, and it is the amount of the first such row |
| Dashboard.PaymentsByMonth | app/Http/Controllers/DashboardController.php:139-148 | exactly 12 entries, January to December, each the month's grouped amount or 0 |
| Dashboard.ReportMatchesMonthTotals | app/Http/Controllers/DashboardController.php:128-146 | each month's entry is the sum of that month's payments in the year (0 without any) |
| Dashboard.OtherYearsIgnored | app/Http/Controllers/DashboardController.php:133 | a payment of another year changes no row of the report |
| Dashboard.Insert | app/Http/Controllers/DashboardController.php:227 | inserting into a latest-first list keeps it latest first and adds exactly that item (as multisets) |
| Dashboard.SortDesc | app/Http/Controllers/DashboardController.php:227 | the result is ordered latest first and is a permutation of the input (same multiset) |
| Dashboard.CountAboveSort | app/Http/Controllers/DashboardController.php:227 | sorting keeps the number of items later than any time |
| Dashboard.CountAboveTake | app/Http/Controllers/DashboardController.php:229 | the first k items of a latest-first list hold min(k, n) of the items later than any time |
| Dashboard.RecentActivities | app/Http/Controllers/DashboardController.php:178-232 | at most `limit` items (default 10), latest first, each from one of the three tables |
| Dashboard.RecentActivitiesAreLatest | app/Http/Controllers/DashboardController.php:186-229 | for every time t, the feed has min(limit, number of rows of all three tables later than t) items later than t |
| ErrorHandler.HandleApiException | app/Exceptions/Handler.php:48-86 | model not found 404; not-found HTTP 404 before other HTTP errors, which keep their status; authorization 403 with message or `Unauthorized`; validation 422 with errors; else 500, detail only in debug |
| ErrorHandler.NotFoundCheckedFirst | app/Exceptions/Handler.php:56-79 | a NotFoundHttpException answers `Endpoint not found`, while a plain 404 HttpException keeps its message |
| ErrorHandler.NotFoundSources | app/Exceptions/Handler.php:50-79 | the answer is 404 iff model not found or an HTTP error with 404 or of the not-found class |
| ErrorHandler.NoDetailWithoutDebug | app/Exceptions/Handler.php:82-85 | outside debug mode no error detail is returned |
| ErrorHandler.Renderable | app/Exceptions/Handler.php:37-42 | answers iff the path is under `api/` or the request wants JSON, with the handler's response |
| ErrorHandler.WebRequestsFallThrough | app/Exceptions/Handler.php:38-41 | a web path not asking for JSON is not handled; an `api/` path is |
| Files.IndexOf | app/Services/FileService.php:142 | the first position of the character, or none iff it does not occur |
| Files.ExtractBase64Content | app/Services/FileService.php:139-146 | the result is always a suffix of the input, and the input itself without the prefix |
| Files.ExtractAfterPrefix | app/Services/FileService.php:141-142 | for any non-empty word-character subtype, the prefix is recognised and exactly the text after it is returned |
| Files.PrefixThenExtract | app/Services/FileService.php:141-142 | a recognised input is `data:image/` + a word-character subtype + `;base64,` + the returned text |
| Files.StripPublicIdentity | app/Services/FileService.php:29 | a path without `public/` is returned unchanged |
| Files.StoredName | app/Services/FileService.php:22 | a given non-falsy name is kept; a missing, empty or `0` name becomes the random name with the extension |
| Files.StoreFileAsWritten | app/Services/FileService.php:20-30 | the file is stored under `public/` + dir + `/` + name; the returned path is no longer than the key minus `public/` |
| Files.StoreBase64FileAsWritten | app/Services/FileService.php:121-131 | stored under `public/` + dir + `/` + random + `.` + ext; the payload is the extracted base64 text |
| Files.StripPublicLosesInnerDirectory | app/Services/FileService.php:29 | a file stored at `public/public/x.png` is reported as `x.png`, which does not address it |
| Files.StripLeading | app/Services/FileService.php:29 | removes only a leading `public/`, so prepending it restores the input |
| Files.StoreFile | app/Services/FileService.php:20-30 | `public/` + the returned path is the storage key, and the returned path is dir + `/` + name |
| Files.StoreBase64File | app/Services/FileService.php:121-131 | `public/` + the returned path is the storage key; the payload is the extracted base64 text |
| Files.AsWrittenAgreesWithoutInnerPublic | app/Services/FileService.php:29 | when dir and name hold no `public/`, the code as written and the corrected rewrite return the same path |
| Files.DeleteFiles | app/Services/FileService.php:73-82 | the result's keys are exactly the input paths; a path maps to true iff it existed and was given once; all given paths are gone afterwards |

## Left out

- The clock. Carbon's `diffInDays` and `DateTime::diff` are not modelled. The whole days since impound are a natural-number input, and timestamps are opaque integers.
- Money amounts are integers (XOF). Fractional amounts, numeric strings and booleans in settings or requests are not modelled.
- Eloquent queries, pagination, `LIKE` search and eager loading. Query results are input sequences or maps, in table order. The order of rows with equal `created_at` is left to the database; the model uses a stable order.
- Framework behaviour outside the visible source:
  - route-model binding is modelled as a 404 for an unknown id;
  - `storeAs`'s trimming of slashes around the key is not modelled.
- File storage, base64 decoding, QR codes, `md5`, `uniqid` and `Str::random`. Random names and the existing-file set are parameters. `Storage::delete` is assumed to succeed on an existing key.
- Mail, Twilio, queued notifications, Blade views and the resource transformers. These are delivery and presentation only.
- Authentication (hashing, Sanctum tokens). A hashed password is modelled as `Hashed(plain)`.
- The User model, `UserRole.php` and `VehicleStatus.php` are not part of this model. The role cases are assumed to be `admin`, `agent` and `finance`, and the vehicle statuses the lower-case strings used elsewhere in the source.
- StorePaymentRequest and UpdateUserRequest are not part of this model. `store`'s release rule is modelled through `Tariff.RecordPayment`, without its validation. User updates take any field combination.
- User `index`, `store` and `show`: listing, search and creation only read or insert rows, with nothing beyond the admin guard to state.
- The cache lifetimes (`60 * 24` seconds) are not modelled. The cache is present or absent.
- Loose `in_array` comparison of a null or non-string status is not modelled: the status input is a string or absent.
- A negative or non-numeric `limit` for recent activities is not modelled: the limit is a natural number.
- Roles.CheckRole: `empty($roles)` is modelled for an empty list only.
- FeeEngine.CalculateFees: PHP would multiply numeric strings and floats; the model treats any non-integer amount as a failure. Which failing key is reported follows the read order, not the line where PHP would throw.
- FeeEngine.GetSetting: the second `json_decode` of text is the `decode` parameter; no JSON parser is modelled.
- ErrorHandler.Renderable: states the callback as written. The framework's `render` runs `prepareException` before the `renderable` callbacks. So a model-not-found exception reaches the callback as a NotFoundHttpException, answered "Endpoint not found". An authorization exception reaches it as an AccessDeniedHttpException, answered by the HTTP branch with its message. The model-not-found and authorization branches of Handler.php:50-66 do not run for them. This conversion is framework code and is not modelled.
- Tariff.CreateVehiclePayment: the recorded payment keeps vehicle, amount, type, method and status; the `notes`, `reference` and `user_id` columns it also writes are not modelled, and `notes` is only validated.
- Fleet.UpdatePhotos: only the photo step of `update` is modelled. `$vehicle->update($data)` also writes every other validated UpdateVehicleRequest field, and that request class is not part of this model.
- SystemSettings.Merge: the order of the string keys in the stored array, and so in the JSON answer, is not modelled.
- SystemSettings.Update: the e-mail syntax check is the `emailOk` parameter, not a model of Laravel's `email` rule. String lengths count characters.
- Inbox.Index: `latest()` ordering and the 15-per-page pagination are not modelled; the inbox is in table order. `$request->boolean` is modelled for lower-case spellings only.

## Findings

| source | as written | input that shows it | evidently intended | confidence | as-written member | corrected member |
|---|---|---|---|---|---|---|
| app/Services/FileService.php:29 | `str_replace('public/', '', $path)` removes every `public/`, not only the leading storage prefix | directory `public`: the file stored at `public/public/x.png` is returned as `x.png`, and `deleteFile('x.png')` then looks at `public/x.png` | drop only the leading `public/`, so that `public/` + returned path is the stored key | low: no directory the source passes contains `public/`; not executed | Files.StoreFileAsWritten (with Files.StripPublicLosesInnerDirectory) | Files.StoreFile |
