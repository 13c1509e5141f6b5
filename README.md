# csi-backend registration core, in Dafny

This project models the core of the csi-backend Express service. That core covers:

- event registration for solo events and for teams;
- joining a team by code;
- payments through a gateway with signed verification;
- password reset by mailed token;
- the event listing grouped into upcoming, ongoing and past;
- the executive committee grouped by team;
- the LeetCode leaderboard;
- attendance at the check-in desk.

The PostgreSQL database is a `Db.Store` object. It holds one finite map per table, from primary key to row. Its invariant `Valid` gathers these rules:

- the schema's constraints: foreign keys, UNIQUE keys, CHECK constraints and triggers;
- the rules the handlers keep among themselves: a team never outgrows its event, a registration is paid exactly when its payment is completed, and every team lead holds a registration for the team's event.

Each handler is one atomic method on the store. It works on a copy of the tables and commits them only when it succeeds, so every refusal leaves the store unchanged. The loops of the source are methods with loop invariants:

- the team-code triggers;
- the bucketing in the event listing;
- the grouping of the executive committee;
- the in-place sort of the leaderboard.

The pure mappings are functions with lemmas.

Modules, one per core source file:

- `Http`: the reply shape, refusal reasons and status codes;
- `Text`: JavaScript's `trim`, SQL's `TRIM`, case mapping and decimals;
- `Schema`: the rows, constraints and triggers of `src/database/init.ts`;
- `Db`: the store and its invariants;
- `RegistrationController`;
- `RegistrationService`;
- `PaymentController`;
- `PasswordReset`;
- `EventsController`;
- `ExecomController`;
- `LeaderboardController` and `LeaderboardRoute`;
- `AppController`.

Conventions:

- Keys (UUIDs) are natural numbers. A fresh key comes from the store's `nextId`.
- Timestamps are integer milliseconds, and the current time is a parameter.
- Fees and amounts are integer paise.
- Randomness, the mailer, the payment gateway and the LeetCode API are parameters.
- Hashes and the gateway's HMAC are uninterpreted functions.

## Model

| member | source | states |
|---|---|---|
| Http.Status | src/controllers/registration/registration.controller.ts:13-105 | each refusal carries its status: 404 for the not-found reasons, 500 for server errors and leaderboard failures, 400 otherwise |
| Text.TrimProperties | src/controllers/registration/registration.controller.ts:220-245 | JavaScript's `trim` leaves a contiguous slice of its input with no white space at either end; the result is empty exactly when the input is all white space |
| Text.TrimIdempotent | src/controllers/registration/registration.controller.ts:366 | trimming twice is trimming once |
| Text.PgTrimOfTrimmed | src/database/init.ts:174 | SQL's `TRIM` leaves a name that JavaScript's `trim` produced unchanged, so the length CHECK sees the handler's length |
| Text.Utf16Length | src/controllers/auth/password-reset.controller.ts:179 | JavaScript's `length` counts UTF-16 code units: between the number of characters and twice it, and equal to it exactly when no character is above U+FFFF |
| Text.AstralCountsTwice | src/controllers/auth/password-reset.controller.ts:179 | four emoji have length 8 |
| Text.AllAstralDoubles | src/controllers/auth/password-reset.controller.ts:179 | a string of characters above U+FFFF has twice as many UTF-16 code units as characters |
| Text.LowerIdempotent | src/controllers/auth/password-reset.controller.ts:26 | lower-casing twice is lower-casing once |
| Text.DecimalRoundTrip | src/controllers/registration/registration.controller.ts:326-336 | reading back the decimal spelling of a number gives the number |
| Text.SplitSuffixOfNumbered | src/controllers/registration/registration.controller.ts:326-349 | the suffix a generated name `base (n)` carries is read back as exactly `n` |
| Schema.SoloEventLogic | src/database/init.ts:91-117 | after the trigger a solo event never requires a team name; it changes only that flag, and only for solo events |
| Schema.SoloEventLogicMeetsNameCheck | src/database/init.ts:70-73 | an event row with valid sizes and strictly ordered times meets every CHECK of `events` once the trigger has run |
| Schema.NewRegistration | src/database/init.ts:196-206 | a new registration is absent and unpaid, stamped now, with the given student, event, food and accommodation |
| Schema.CodeFromRolls | src/database/init.ts:121-133 | one character per roll, each the alphabet character the roll selects, so every character is in `A-Z0-9` |
| Schema.GenerateTeamCode | src/database/init.ts:121-133 | the loop spells exactly the rolls' code; a length of 6 gives a code matching `^[A-Z0-9]{6}$` |
| Schema.AssignTeamCode | src/database/init.ts:136-162 | a returned code is a valid code unused in the event, from the first attempt that drew a free code; no code is returned exactly when all 10 attempts drew used codes |
| Db.AddLinkCounts | src/database/init.ts:227-231 | linking a new registration adds one member to its team and none to any other team |
| Db.FreshTeamHasLeadOnly | src/controllers/registration/registration.controller.ts:267-289 | a fresh team linked to a fresh registration has exactly one member |
| Db.TeamNamesIn | src/controllers/registration/registration.controller.ts:318-324 | the loop lists exactly the names of the event's teams |
| Db.AddRegistrationKeeps | src/database/init.ts:196-206 | an unpaid registration under a fresh key, for an existing user and event and a (student, event) pair not yet taken, keeps the foreign keys, UNIQUE(student_id, event_id), the leads' registrations, the team links and the payment invariants |
| Db.AddTeamKeeps | src/database/init.ts:166-174 | a team under a fresh key keeps the team invariants when its event exists, its name fits, its code and lower-cased name are free in the event, and its lead is registered for the event |
| Db.AddLinkKeeps | src/database/init.ts:227-271 | linking an unlinked registration to a team of its own event keeps the link invariants, provided the event is not solo and the team has room; the team gains exactly that member |
| Db.AddTeamWithLeadKeeps | src/database/init.ts:166-271 | a lead's registration, the new team and their link keep the team and link invariants, and the team has one member |
| Db.AddMemberKeeps | src/database/init.ts:227-271 | a new registration linked to a team of its event that has room keeps the team and link invariants |
| Db.RewriteRegistrationKeeps | src/database/init.ts:196-206 | rewriting a registration without changing its student or event keeps the registration, team and link invariants |
| Db.EmptyTablesOk | src/database/init.ts:196-231 | empty tables over valid users and events meet every invariant |
| Db.InsertRegistrationKeeps | src/database/init.ts:196-206 | inserting a valid unpaid registration under the next key keeps every invariant |
| Db.InsertTeamWithLeadKeeps | src/database/init.ts:166-271 | the three inserts that create a team keep every invariant when the name fits and the code and name are free in the event |
| Db.InsertMemberKeeps | src/database/init.ts:227-271 | joining a non-solo team of the registration's event that has room keeps every invariant |
| Db.Store.Commit | src/controllers/payment/payment.controller.ts:88 | COMMIT: the store's tables become the transaction's copy, which must keep every invariant |
| Db.Store.constructor | src/database/init.ts:28-271 | a new database has the given users and events, empty tables and every invariant |
| RegistrationController.WindowRefusal | src/controllers/registration/registration.controller.ts:63-77 | no refusal exactly when now lies in the window, both ends inclusive and a missing bound open; "not started" is reported before "ended" |
| RegistrationController.CurrentRegistrationCount | src/controllers/registration/registration.controller.ts:159-177 | a solo event counts its registrations; a team event counts only its teams that have a member, which is never more than its teams |
| RegistrationController.TeamCountAtMostRegistrations | src/controllers/registration/registration.controller.ts:159-177 | a team event's count never exceeds its registrations |
| RegistrationController.PreCountRefusal | src/controllers/registration/registration.controller.ts:13-91 | the checks before the capacity check, in source order: no refusal exactly when they all pass; missing ids come first, and neither "full" nor a server error can arise here |
| RegistrationController.RegisterRefusal | src/controllers/registration/registration.controller.ts:13-105 | with the capacity count read as intended (see Findings): no refusal exactly when the request is admissible; missing ids come first, then a missing event, a duplicate registration and a full event, each with its witness |
| RegistrationController.RegisterRefusalAsWritten | src/controllers/registration/registration.controller.ts:95-104 | as written: no refusal exactly when the earlier checks pass and the event has no cap, since the capped path's count query always fails; never "full" |
| RegistrationController.CappedRegistrationFailsAsWritten | src/controllers/registration/registration.controller.ts:158-177 | past the earlier checks, a capped event is a 500 as written, where the intended check never answers 500; an uncapped event is admitted by both |
| RegistrationController.EmptyCappedEventRefusedAsWritten | src/controllers/registration/registration.controller.ts:158-177 | an event capped at 50 with no registrations admits the caller as intended and is a 500 as written |
| RegistrationController.ExistingRegistrationAlwaysRefused | src/controllers/registration/registration.controller.ts:79-91 | an existing (user, event) registration is always refused, paid or not, so there is no resume path |
| RegistrationController.CheckRequiredTeamName | src/controllers/registration/registration.controller.ts:220-245 | accepted exactly when present, not blank, 1 to 100 UTF-16 code units once trimmed, and all characters in `[\w\s\-_()]`; gives the trimmed name, which then fits the CHECK |
| RegistrationController.AstralTeamNameTooLong | src/controllers/registration/registration.controller.ts:228-236 | a name of more than 50 characters above U+FFFF is refused for its length, since each counts twice |
| RegistrationController.MaxSuffix | src/controllers/registration/registration.controller.ts:326-336 | the largest suffix in the base's family, 0 for none; every member's suffix is at most it, and a positive maximum is attained |
| RegistrationController.GeneratedTeamName | src/controllers/registration/registration.controller.ts:316-349 | the base itself exactly when no stored name carries a suffix of the base and none equals the base ignoring case |
| RegistrationController.GeneratedBaseWhenNoFamily | src/controllers/registration/registration.controller.ts:339-342 | with no stored name in the base's family the base itself is offered |
| RegistrationController.GeneratedNumbered | src/controllers/registration/registration.controller.ts:339-345 | when the base or a suffixed name is stored, the offered name is the base numbered one past the largest suffix; read ignoring case it belongs to the base's family, and its suffix exceeds every stored member's suffix by exactly one more than the maximum |
| RegistrationController.GeneratedNameIsFresh | src/controllers/registration/registration.controller.ts:316-349 | when the stored names are lower case, the generated name collides with none of them, even ignoring case |
| RegistrationController.BaseNameFresh | src/controllers/registration/registration.controller.ts:339-342 | when no stored name matches the base ignoring case, the base is free |
| RegistrationController.NumberedNameFresh | src/controllers/registration/registration.controller.ts:326-343 | the base numbered one past the largest suffix is free |
| RegistrationController.NoneNumberedAboveMax | src/controllers/registration/registration.controller.ts:318-343 | no stored name is the lower-cased base numbered one past the maximum |
| RegistrationController.NumberedSuffix | src/controllers/registration/registration.controller.ts:326-336 | `lb (k)` carries the suffix `k` |
| RegistrationController.NumberedInFamily | src/controllers/registration/registration.controller.ts:318-324 | for a lower-case base, `lb (k)` is in the family of `lb` |
| RegistrationController.LowerOfNumbered | src/controllers/registration/registration.controller.ts:343 | lower-casing `base (n)` lower-cases only the base |
| RegistrationController.NoahFamily | src/controllers/registration/registration.controller.ts:318-336 | with `Noah` and `Noah (1)` stored, no suffix is read back (largest suffix 0) while the base is held |
| RegistrationController.GeneratedNameCanCollide | src/controllers/registration/registration.controller.ts:316-349 | with a mixed-case base the suffix is not read back, so a third "Noah" is offered "Noah (1)", which is already taken |
| RegistrationController.GetRegistrationStatus | src/controllers/registration/registration.controller.ts:562-656 | not registered exactly when no row exists; otherwise the row's id, paid flag, attendance and time, the event's name and fee, team or solo by `max_team_size`, and payment required exactly when the fee is positive; team information is given exactly for a team event whose row is linked to a team of a known event, and then carries that team's id, name and code, its member count, the lead flag, the team event's maximum and minimum sizes, and fullness as count ≥ maximum |
| RegistrationController.HandleSoloRegistration | src/controllers/registration/registration.controller.ts:179-206 | inserts exactly one registration with the column defaults under the next key; a user missing from `users` is a server error with nothing changed |
| RegistrationController.SettleTeamName | src/controllers/registration/registration.controller.ts:220-265 | a required name passes the checks and must be free ignoring case; otherwise the generated name over the event's team names is used |
| RegistrationController.NewTeamInserted | src/controllers/registration/registration.controller.ts:267-312 | after the three inserts the new team exists with the caller as lead and its only member, and every invariant holds |
| RegistrationController.CreateTeam | src/controllers/registration/registration.controller.ts:267-289 | commits the lead's registration, the team with its assigned code, and the link |
| RegistrationController.InsertTeam | src/controllers/registration/registration.controller.ts:267-289 | the reply follows the database's checks in order: a missing user, no free code drawn in ten attempts or a name breaking the length CHECK is a server error, a name taken ignoring case is a unique violation, and otherwise the insert succeeds; on success the team is inserted as above |
| RegistrationController.HandleTeamRegistration | src/controllers/registration/registration.controller.ts:209-313 | a required name's refusals in order, then a taken name; otherwise the generated name; for the settled name the reply is exactly the inserts' outcome, so a valid free name with a user and a free code registers; on success one registration, one team led by the caller and one link, paid event or not |
| RegistrationController.RegisterForEvent | src/controllers/registration/registration.controller.ts:5-157 | the reply is the first refusal of the checks, in source order, with the store unchanged; an admissible request succeeds on the solo path exactly when the user exists, and on the team path exactly as the team path's outcome says; on success the solo path runs exactly when `max_team_size` is 1, and `paymentRequired` is fee > 0 |
| RegistrationController.RegisteredStatus | src/controllers/registration/registration.controller.ts:562-656 | after registering, the status reports the new row as unpaid, absent and stamped now |
| RegistrationController.SanitizeCode | src/controllers/registration/registration.controller.ts:366 | the result is the trimmed code with its ASCII letters in upper case: as long as the trimmed code, no lower-case ASCII letter |
| RegistrationController.SanitizedCodeIsTrimmedUpper | src/controllers/registration/registration.controller.ts:366 | the sanitized code has no white space at either end, spells the trimmed code ignoring case, and sanitizing it again changes nothing |
| RegistrationController.JoinRequestRefusal | src/controllers/registration/registration.controller.ts:358-372 | no refusal exactly when all three fields are given and the sanitised code is six characters of `A-Z0-9`; a missing field is reported first |
| RegistrationController.JoinPreCountRefusal | src/controllers/registration/registration.controller.ts:388-452 | the checks before the member count: no refusal exactly when the event takes teams, is active and open, and the caller is neither registered for it nor the team's lead |
| RegistrationController.JoinTeamRefusal | src/controllers/registration/registration.controller.ts:388-472 | with the member count read as intended (see Findings): no refusal exactly when the window is open, the caller is not registered for the event, does not lead the team, and the team has room |
| RegistrationController.JoinTeamRefusalAsWritten | src/controllers/registration/registration.controller.ts:454-459 | as written every join is refused, never as "team full": the count query always fails |
| RegistrationController.JoinNeverSucceedsAsWritten | src/controllers/registration/registration.controller.ts:454-459 | as written no join succeeds, and a join the intended checks admit is a 500 |
| RegistrationController.TeamWithCodeUnique | src/database/init.ts:173 | UNIQUE(event_id, team_code): a code finds at most one team of an event |
| RegistrationController.OwnTeamUnreachable | src/controllers/registration/registration.controller.ts:446-452 | the own-team refusal never fires: a lead's registration trips the duplicate check first |
| RegistrationController.JoinTeam | src/controllers/registration/registration.controller.ts:351-560 | request refusals first, then a missing team; for the team the code finds, the reply is the join checks' refusal, else a server error for a missing user, else success; on success one registration and one link, the team gains exactly one member and stays within `max_team_size`, and `teamIsFull` is current ≥ max |
| RegistrationService.ValidateEventAccess | src/services/registration.service.ts:20-82 | the event row exactly when it exists, has valid sizes, is active and is inside its window; a missing event is a 404, and bad sizes come next |
| RegistrationService.CheckExistingRegistration | src/services/registration.service.ts:84-96 | a refusal exactly when (user, event) already has a row |
| RegistrationService.ValidateAgreesWithController | src/services/registration.service.ts:20-82 | the service's event checks refuse exactly as the controller's do |
| RegistrationService.ServiceRegistrationCount | src/services/registration.service.ts:98-119 | always the number of registrations, because the team flag is overwritten before it is read |
| RegistrationService.ServiceCountIgnoresTeams | src/services/registration.service.ts:98-119 | for a team event, the service counts what the controller counts for a solo event |
| RegistrationService.ServiceGeneratedTeamName | src/services/registration.service.ts:310-340 | a server error exactly when a stored name matches the backslash pattern; otherwise the base when it is free ignoring case, else `base (1)` |
| RegistrationService.ServiceNameRepeats | src/services/registration.service.ts:310-340 | with `bob` and `bob (1)` stored, the service offers `bob (1)` again |
| RegistrationService.ControllerNumbersPastSuffix | src/controllers/registration/registration.controller.ts:316-349 | for the same names the controller offers `bob (2)` |
| RegistrationService.FoodOrDefault | src/services/registration.service.ts:164-168 | an absent or empty preference becomes 'No food', and any other preference is kept |
| RegistrationService.AccommodationOrNull | src/services/registration.service.ts:164-168 | an absent or zero accommodation id is NULL, and any other id is kept |
| RegistrationService.AccommodationData | src/services/registration.service.ts:164-198 | the accommodation is echoed only for a non-zero id that the lookup finds |
| RegistrationService.RandomTeamCode | src/services/registration.service.ts:249 | at most six characters, each a drawn base-36 digit upper-cased |
| RegistrationService.ServiceRegistration | src/services/registration.service.ts:164-168 | the row stores the defaulted food and accommodation, unpaid and absent |
| RegistrationService.SoloEventRegistration | src/services/registration.service.ts:156-201 | fails, with nothing changed, exactly when a foreign key or UNIQUE(student, event) would be violated; otherwise one row is inserted and echoed |
| RegistrationService.ServiceTeamName | src/services/registration.service.ts:213-236 | a non-blank supplied name, trimmed, with no length or character check; otherwise the generated one |
| RegistrationService.CommitTeam | src/services/registration.service.ts:239-266 | commits the lead's registration, the team and the link once every constraint holds |
| RegistrationService.ServiceTeamReply | src/services/registration.service.ts:285-306 | the reply names the new registration and team, the caller as lead and only member, and the event's sizes and fee |
| RegistrationService.ServiceInsertTeam | src/services/registration.service.ts:239-266 | the inserts succeed exactly when every foreign key, unique key, the name CHECK and the solo-event link trigger hold; on success the three rows are added |
| RegistrationService.ServiceTeamRegistration | src/services/registration.service.ts:203-307 | a supplied non-blank name that is taken is refused; a free supplied name, or a generated one, registers exactly when the three inserts' constraints hold; a failing generator's error is the reply; on success the team has the supplied trimmed name or the generated one, and the drawn code |
| RegistrationService.HandleRegistrationFlow | src/services/registration.service.ts:121-154 | the solo path exactly when `max_team_size` is 1, the team path when it is larger, and a 500 otherwise; a duplicate registration always fails; a solo registration succeeds exactly when the user and event exist and the user is not yet registered; a team registration's reply is the team path's outcome (a taken supplied name refused, else success exactly when the inserts' constraints hold) |
| PaymentController.PaymentOf | src/database/init.ts:214 | the registration's payment row, if any |
| PaymentController.PaymentOfUnique | src/database/init.ts:214 | under UNIQUE(registration_id) the payment found is the only one |
| PaymentController.InitiateRefusal | src/controllers/payment/payment.controller.ts:19-64 | missing ids first, then a registration that is not the caller's (404), a free event, a paid registration; no refusal exactly when all pass |
| PaymentController.InitiateSparesCompleted | src/controllers/payment/payment.controller.ts:58-64 | an order that passes the checks never touches a completed payment |
| PaymentController.Reordered | src/controllers/payment/payment.controller.ts:80-86 | the upsert's DO UPDATE sets a new order and amount and makes the payment pending again, keeping the gateway ids |
| PaymentController.UpsertPendingKeeps | src/controllers/payment/payment.controller.ts:80-86 | ordering an unpaid registration keeps every invariant |
| PaymentController.UpsertPendingRow | src/controllers/payment/payment.controller.ts:80-86 | afterwards the registration has exactly one payment, pending, with the new order and amount; nothing else changes |
| PaymentController.Upsert | src/controllers/payment/payment.controller.ts:80-86 | the handler's upsert is the insert-or-update above |
| PaymentController.InitiatePayment | src/controllers/payment/payment.controller.ts:12-115 | each refusal in order with nothing changed; past the checks the reply succeeds exactly when the gateway creates the order for the fee in paise, and a failing gateway is a server error; on success the pending upsert |
| PaymentController.CompletedRow | src/controllers/payment/payment.controller.ts:176-180 | the verified row records the gateway's payment id and signature and is completed |
| PaymentController.CompletedPaymentsOk | src/controllers/payment/payment.controller.ts:162-190 | completing with the gateway's own signature keeps the payment invariants, with the registration now paid |
| PaymentController.CompletePaymentKeeps | src/controllers/payment/payment.controller.ts:176-190 | verification keeps every invariant |
| PaymentController.CompletePaymentPays | src/controllers/payment/payment.controller.ts:176-190 | afterwards the registration is paid and its payment completed; no other payment or registration changes |
| PaymentController.VerifyPayment | src/controllers/payment/payment.controller.ts:117-215 | missing fields exactly when a field is absent; 404 exactly when no order is the caller's; a completed order is "already verified" (and that reply needs one); a pending order succeeds exactly with the HMAC of `order|payment`; on success exactly the completion |
| PaymentController.GetPaymentStatus | src/controllers/payment/payment.controller.ts:217-278 | found exactly when the registration is the caller's; `paymentRequired` is fee > 0; details exist exactly when a payment row does; paid implies completed |
| PasswordReset.LookupEmailLowered | src/controllers/auth/password-reset.controller.ts:26 | the address looked up is lower case |
| PasswordReset.LookupEmailIdempotent | src/controllers/auth/password-reset.controller.ts:26 | normalising twice is normalising once |
| PasswordReset.AccountOf | src/controllers/auth/password-reset.controller.ts:26-36 | the account holding the address, if one does |
| PasswordReset.AccountOfUnique | src/database/init.ts:40 | under UNIQUE(email) the account found is the only one |
| PasswordReset.WithoutTokensOf | src/controllers/auth/password-reset.controller.ts:50-54 | exactly the other users' tokens remain, unchanged |
| PasswordReset.IssueTokenKeeps | src/controllers/auth/password-reset.controller.ts:50-61 | issuing a token to an existing user keeps every invariant |
| PasswordReset.IssueTokenLeavesOne | src/controllers/auth/password-reset.controller.ts:50-61 | afterwards the user's only token is the new, unused one; other users' tokens are as before |
| PasswordReset.RequestPasswordReset | src/controllers/auth/password-reset.controller.ts:8-96 | a missing address is a 400; an unknown address gets the same answer and changes nothing; a known one gets a single fresh token, expiring in 15 minutes, mailed raw, with a rollback and a 500 if the mail fails |
| PasswordReset.MailedTokenIsLive | src/controllers/auth/password-reset.controller.ts:41-61 | the mailed token's hash finds the new, unused row until its 15 minutes run out |
| PasswordReset.VerifyResetToken | src/controllers/auth/password-reset.controller.ts:99-158 | "token required" exactly when none is given; invalid exactly when no unused token has the hash; a live token is valid up to and including its expiry and expired after it |
| PasswordReset.ResetRequestRefusal | src/controllers/auth/password-reset.controller.ts:165-184 | missing fields first, then a mismatch, then a short password; no refusal exactly when the passwords match and are at least 8 UTF-16 code units long |
| PasswordReset.AstralPasswordLongEnough | src/controllers/auth/password-reset.controller.ts:179-184 | four emoji pass the length check, as JavaScript counts them |
| PasswordReset.UseTokenKeeps | src/controllers/auth/password-reset.controller.ts:198-241 | a new password and a spent token keep every invariant |
| PasswordReset.UseTokenSpends | src/controllers/auth/password-reset.controller.ts:198-241 | afterwards the used token is not live and no token became live; only the token's user changes, and only its password |
| PasswordReset.ResetPassword | src/controllers/auth/password-reset.controller.ts:161-260 | request refusals first with nothing changed; invalid exactly when no unused token matches; a live unexpired token resets and an expired one is refused as expired, which needs one; on success the bcrypt hash is stored and that live, unexpired token is spent |
| EventsController.BucketOf | src/controllers/event/events.controller.ts:104-110 | upcoming exactly when now < start, ongoing exactly when start ≤ now ≤ end, past otherwise |
| EventsController.RegOpenMatchesWindow | src/controllers/event/events.controller.ts:66 | with both bounds set, `regOpen` is exactly the window registration enforces |
| EventsController.OpenEndedWindowShownClosed | src/controllers/event/events.controller.ts:66 | without an end the listing shows registration closed while registering is accepted |
| EventsController.CapOf | src/controllers/event/events.controller.ts:63 | a NULL cap reads as 0 |
| EventsController.UncappedNeverFull | src/controllers/event/events.controller.ts:68 | an event without a cap is never shown full |
| EventsController.FullMatchesCapacityCheck | src/controllers/event/events.controller.ts:63-68 | for a positive cap, shown full exactly when registration is refused for capacity; a negative cap refuses every registration while never being shown full |
| EventsController.RegistrationsCount | src/controllers/event/events.controller.ts:36-47 | a solo event counts its registrations, any other event all its teams |
| EventsController.ShownCountCoversCapacityCount | src/controllers/event/events.controller.ts:36-47 | the count shown is never below the count registration checks against the cap |
| EventsController.Views | src/controllers/event/events.controller.ts:71-101 | one entry per row, in row order |
| EventsController.InBucketMembers | src/controllers/event/events.controller.ts:104-110 | a bucket holds entries of the list in that bucket, and every such entry |
| EventsController.BucketsPartition | src/controllers/event/events.controller.ts:104-110 | the three buckets together hold each entry exactly as often as the list does |
| EventsController.BucketKeepsOrder | src/controllers/event/events.controller.ts:49-110 | each bucket keeps the query's start-time order |
| EventsController.IdsPartition | src/controllers/event/events.controller.ts:104-110 | the buckets' ids together are the list's ids, each as often as it occurs |
| EventsController.BucketsOfQuery | src/controllers/event/events.controller.ts:31-110 | over rows listing every event once in start order, each event appears in exactly one bucket, once, as its own view with its count; every bucket holds only its own entries, in start order |
| EventsController.GetEvents | src/controllers/event/events.controller.ts:31-118 | the loop pushes each row's entry onto its bucket, in row order, so every event is listed exactly once, in the bucket its dates pick, and each bucket is in start order |
| ExecomController.SplitAtDash | src/controllers/execom/execom.controller.ts:55-57 | one or two dash-free parts; a single part exactly when there is no dash, and then it is the whole title |
| ExecomController.SplitAtDashParts | src/controllers/execom/execom.controller.ts:55-57 | with two parts the title starts with the first part, a dash and the second part, followed by the end or another dash |
| ExecomController.SplitRejoins | src/controllers/execom/execom.controller.ts:55-57 | with one dash, joining the parts gives the title back; text after a second dash is dropped |
| ExecomController.SplitJoined | src/controllers/execom/execom.controller.ts:55-57 | splitting two dash-free parts joined by a dash gives the parts |
| ExecomController.MissingPositionIsUnknown | src/controllers/execom/execom.controller.ts:55 | a member without a title is team `Unknown` with role `Unknown` |
| ExecomController.UndashedPositionIsTeam | src/controllers/execom/execom.controller.ts:55-57 | a title without a dash is the trimmed team name, and the role is unknown |
| ExecomController.CapitalizeIdempotent | src/controllers/execom/execom.controller.ts:65 | capitalising a capitalised role changes nothing |
| ExecomController.CapitalizeKeepsLetters | src/controllers/execom/execom.controller.ts:65 | ignoring case, the capitalised role is the role in the title |
| ExecomController.MemberOf | src/controllers/execom/execom.controller.ts:61-66 | the member carries the row's name, batch, image and link and the capitalised role, with no position or year |
| ExecomController.RowFiledOnce | src/controllers/execom/execom.controller.ts:52-67 | each row is listed under its own team exactly once, under no other team, and a team's rows keep their order |
| ExecomController.Group | src/controllers/execom/execom.controller.ts:54-67 | the loop's keys are exactly the teams named, and each team's list holds its members in row order |
| ExecomController.GroupByTeam | src/controllers/execom/execom.controller.ts:54-67 | the same grouping over the rows' teams and members |
| ExecomController.GetExecomByYear | src/controllers/execom/execom.controller.ts:27-78 | a 404 exactly when there are no rows; otherwise the year and every team with its members in row order; a team named `academic_year` overwrites the year |
| LeaderboardController.SumCountsAppend | src/controllers/leaderboard/leaderboard.controller.ts:30-35 | the sum of two lists joined is the sum of their sums |
| LeaderboardController.TotalSolved | src/controllers/leaderboard/leaderboard.controller.ts:30-35 | the sum of the counts, 0 without a list, never negative for non-negative counts |
| LeaderboardController.Stats | src/controllers/leaderboard/leaderboard.controller.ts:43-51 | one stat per user, in user order, with the database name and the fetched total |
| LeaderboardController.StableSortSorted | src/controllers/leaderboard/leaderboard.controller.ts:53 | the sorted stats are highest first |
| LeaderboardController.StableSortPerm | src/controllers/leaderboard/leaderboard.controller.ts:53 | the sort only reorders |
| LeaderboardController.StableSortKeepsTies | src/controllers/leaderboard/leaderboard.controller.ts:53 | users with the same count keep their order |
| LeaderboardController.StableOrderIsUnique | src/controllers/leaderboard/leaderboard.controller.ts:53 | two sequences sorted highest first with the same order within every tie are equal, so any stable sort by the comparator gives the same list |
| LeaderboardController.SortStats | src/controllers/leaderboard/leaderboard.controller.ts:53 | the array is sorted in place into the stable descending order of its old contents |
| LeaderboardController.InsertInto | src/controllers/leaderboard/leaderboard.controller.ts:53 | one insertion pass puts `a[i]` into the sorted prefix and leaves the rest of the array alone |
| LeaderboardController.Ranked | src/controllers/leaderboard/leaderboard.controller.ts:55-59 | entry i has rank i + 1, the database name and the points of the i-th stat |
| LeaderboardController.RankedPointsDescend | src/controllers/leaderboard/leaderboard.controller.ts:53-59 | ranked from sorted stats, points never rise down the list |
| LeaderboardController.Top | src/controllers/leaderboard/leaderboard.controller.ts:54 | the first fifteen, or all when there are fewer |
| LeaderboardController.TopDominates | src/controllers/leaderboard/leaderboard.controller.ts:54 | of sorted stats, everyone shown solved at least as many as anyone left out |
| LeaderboardController.GetLeaderboard | src/controllers/leaderboard/leaderboard.controller.ts:38-69 | a 500 with some failing fetch's message exactly when a fetch fails; otherwise the top fifteen of the stable sort, ranked |
| LeaderboardController.ShownAreUsers | src/controllers/leaderboard/leaderboard.controller.ts:43-58 | every entry shown is a user's stat, each user at most once |
| LeaderboardRoute.GetLeaderboard | src/routes/leaderboard.ts:41-88 | a 500 exactly when a fetch fails; otherwise every user, stably sorted and ranked, with no truncation |
| LeaderboardRoute.ControllerIsPrefix | src/routes/leaderboard.ts:49-68 | the controller's list is the first fifteen entries of the route's, with the same ranks |
| AppController.TeamNameOf | src/controllers/app/app.controller.ts:26-27 | a team name exactly when the registration's link and its team row both exist |
| AppController.DetailsOf | src/controllers/app/app.controller.ts:12-51 | `present` exactly when the attendance is present; user columns are NULL exactly when the user row is missing; team and event likewise; food as stored |
| AppController.DetailsOfValidStore | src/controllers/app/app.controller.ts:12-51 | in a valid store the user and event are always found, and a team exists exactly when the registration is linked |
| AppController.GetAttendanceDetails | src/controllers/app/app.controller.ts:4-58 | a 400 exactly when `regId` is missing; a 404 exactly when no such registration exists; otherwise its details |
| AppController.MarkPresent | src/controllers/app/app.controller.ts:68-73 | only that registration changes, and only its attendance, which becomes present |
| AppController.MarkPresentKeeps | src/controllers/app/app.controller.ts:68-73 | marking present keeps every invariant |
| AppController.MarkPresentIdempotent | src/controllers/app/app.controller.ts:68-73 | marking twice is marking once |
| AppController.MarkedShowsPresent | src/controllers/app/app.controller.ts:41-73 | afterwards the details report present, and nothing else they report changes |
| AppController.MarkAttendancePresent | src/controllers/app/app.controller.ts:60-84 | a 400 exactly when `regId` is missing; a 404 exactly when no row exists, with nothing changed in either case; otherwise exactly the update, reporting success |

## Left out

- Concurrency: SERIALIZABLE isolation, `FOR UPDATE` locks and the SQLSTATE 40001 retry are not modelled. Each handler is one atomic step, and the 23505 path is a uniqueness constraint that would be violated. The two count queries that put `FOR UPDATE OF` beside `COUNT` fail outright; they are under Findings.
- RegistrationController.RegisterForEvent: uses the capacity count as intended (`RegisterRefusal`); as written a capped event past the earlier checks is a 500 (`RegisterRefusalAsWritten`, see Findings).
- RegistrationController.JoinTeam: uses the member count as intended (`JoinTeamRefusal`); as written every join past the earlier checks is a 500 (`JoinTeamRefusalAsWritten`, see Findings).
- RegistrationController.JoinTeam: the `Joined` reply leaves out the `teamMembers` roster (ids and names, 487-501) and the lead's name (`teamLead.name`, 516-519) that the source returns; it keeps the lead's id.
- RegistrationController.SanitizeCode: upper-cases ASCII letters only; JavaScript's `toUpperCase` also maps other letters, some to two characters (`ß` to `SS`), so the source's code can be longer than the trimmed code.
- Cryptography: HMAC-SHA256, SHA-256 and bcrypt are uninterpreted functions (`Store.sign` and function parameters). JWT authentication is outside the core: the caller's id arrives as a parameter.
- Randomness: the bytes of the reset token, `random()` in `generate_team_code` and `Math.random` in the service's team code are parameters.
- External I/O: the mailer's outcome, the payment gateway's order call and the LeetCode fetch are parameters. Console logging is dropped.
- Floating point: fees are integer paise, so `Math.round(fee * 100)` is exact. LeetCode counts are integers; a non-numeric count (NaN) is not modelled.
- Dates: `formatDate`, `formatTime` and `durationDays` in the listing depend on locale and time zone and are not modelled. The listing's columns copied straight from the row are not modelled either.
- Request shapes: body fields are absent or strings. A non-string field, or a malformed UUID that PostgreSQL rejects with a 500, is not modelled.
- Case mapping: `Lower` and `Upper` map ASCII letters only. Unicode case mapping is not modelled.
- RegistrationController.CheckRequiredTeamName: the character class `\w` is taken as ASCII letters, digits and `_`, which is what JavaScript's `\w` means. The rest of the regular-expression engine is not modelled.
- RegistrationController.GeneratedTeamName: the source splices `LOWER(base)` into two regular expressions without escaping it (318-331); the model matches the base literally. A base with metacharacters therefore behaves differently: `.` matches any character and `(jr)` is a group, so the source can miss a family member (and offer a taken name) or count a foreign one. A base with an unbalanced `(` or `[` makes the query fail with a 500 in the source, and so does a stored suffix above 2147483647, which overflows `::int` (331). The model offers a name in all these cases.
- RegistrationController.MaxSuffix: reads suffixes literally and as unbounded numbers, for the reasons in the line above.
- RegistrationService.ServiceGeneratedTeamName: SQL's regular expressions are modelled only for the one pattern the service builds. Regular-expression metacharacters in a team name's base are taken literally.
- RegistrationService.ServiceTeamRegistration: the `teamMembers` list of the request is ignored, as the service ignores it.
- Accommodations: the foreign key `REFERENCES accommodations(id)` (`src/database/init.ts:205`) names a column the table does not have (its key is `accommodation_id`, :79), so PostgreSQL rejects `CREATE TABLE registrations` and `initDB` fails on a fresh database. The model assumes `registrations` was created without that foreign key. The lookup is a map of the store.
- Nullable event columns: `fee_amount`, `min_team_size` and `max_team_size` may be NULL (`src/database/init.ts:62-70`), and `check_team_sizes` lets a NULL through; the model's `Event` holds plain integers. A NULL fee reads as NaN in `initiatePayment`, which `feeAmount <= 0` does not refuse, so an order for NaN is attempted. NULL sizes are refused as an invalid configuration by the registration checks. `Schema.EventRowOk` demands non-null sizes, which is stronger than the CHECK.
- PasswordReset.VerifyResetToken: the source takes the first row the token query returns, with no ORDER BY. When several live tokens share a hash, the model leaves open which one is used and states the outcome only when all of them agree.
- PasswordReset.ResetPassword: the same first-row choice among tokens sharing a hash is left open, as in the line above.
- PaymentController.VerifyPayment: when several of the caller's payments share an order id, the source takes the first row and the model leaves open which; it states the outcome only when all of them are completed, or none is.
- PasswordReset.RequestPasswordReset: the transaction the unknown-address path leaves open is not modelled, only its effect (no change). The columns of `password_reset_tokens` are inferred from the queries, since `src/database/init.ts` does not create that table.
- ExecomController.GetExecomByYear: JSON key order is not modelled. A team named after an `Object.prototype` property such as `constructor` would make `grouped[team].push` throw; that is not modelled. The query's join, filter and ORDER BY are not modelled either: the rows arrive in query order. `getYears` and `getExecom` are not part of this model.
- LeaderboardController.GetLeaderboard: `Promise.all` reports the first rejection to settle. The model reports the message of some failing user, which one left open. A failing database query is not modelled.
- LeaderboardController.SortStats: V8's `Array.prototype.sort` is stable but its algorithm is not specified, so the model sorts by insertion. `StableOrderIsUnique` shows that every stable sort by this comparator gives the same list.

## Findings

| source | as written | input that shows it | evidently intended | confidence | as-written member | corrected member |
|---|---|---|---|---|---|---|
| src/controllers/registration/registration.controller.ts:158-177 | the capacity count is `SELECT COUNT(…) … FOR UPDATE OF t` (or `OF r`); PostgreSQL refuses a locking clause beside an aggregate (SQLSTATE 0A000), and the catch answers 500 | an active, open event with `max_registrations` 50 and no registrations: the caller gets a 500 | count without the lock, as the service's copy of the count does (`src/services/registration.service.ts:98-119`), and refuse as full once the count reaches the cap | not executed | RegistrationController.RegisterRefusalAsWritten | RegistrationController.RegisterRefusal |
| src/controllers/registration/registration.controller.ts:454-459 | the member count is `SELECT COUNT(*) … FOR UPDATE OF r`, refused by PostgreSQL beside the aggregate, so the catch answers 500 | any join that passes the duplicate check (the own-team check before it never fires): the caller gets a 500 and `joinTeam` never succeeds | count the team's members without the lock and refuse as full only at `max_team_size` | not executed | RegistrationController.JoinTeamRefusalAsWritten | RegistrationController.JoinTeamRefusal |
