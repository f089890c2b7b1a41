# Clubify backend — a Dafny model

Clubify is the HTTP backend of a club-management application. It stores six MongoDB
collections: users, clubs, memberships, events, event registrations and payments. Its route
handlers:

- create and look up users, whose roles are admin, club manager and member;
- let managers create clubs, which an admin approves, rejects or leaves pending;
- enrol users in clubs;
- publish events and register users for them, with a duplicate check and an attendee limit;
- record payments;
- reconcile the database when the payment processor reports on a payment intent through its
  webhook.

Four middleware guards identify the caller by email and admit or refuse the request by role.

This project models those handlers and guards, and the `capitalize` helper of the server entry
point. It proves what they promise: error answers and their order, uniqueness of the
(user, club) and (event, user) pairs, the attendee limit, listing contents and order, paging
coverage, webhook idempotence and the guard hierarchy.

Layout:

- `tables.dfy` (module `Tables`): a collection is a `Table<T>`, a map from identifiers to
  documents plus the next free identifier. Identifier order stands for MongoDB's natural
  order. The file defines `find`, `findOne`, `countDocuments`, `insertOne`, `updateOne`,
  `deleteOne`, `deleteMany`, a stable sort and `skip`/`limit`.
- `records.dfy`: the documents (`Records`), JavaScript truthiness of optional request fields,
  and the consistency predicates each collection keeps. Handler answers live in `Http`.
- `store.dfy`: the `Database` object whose six collection fields the handlers reassign.
- One file per route module: `users.dfy`, `clubs.dfy`, `memberships.dfy`, `events.dfy`,
  `registrations.dfy` (the handlers and the three joined listings), `payments.dfy` and
  `stripe.dfy`.
- `auth.dfy`: the guards. `text.dfy`: `capitalize`.

State-changing handlers are module-level methods that take the `Database` and name the fields they write in their `modifies` frame (for example ``modifies db`registrations``). Each one states:

- its answer for every branch;
- the new state of the collection it writes;
- that the database's consistency predicate is kept.

Read-only handlers and aggregation pipelines are functions. Each listing is stated in three
parts:

- which rows appear: an if-and-only-if against the `$match` and the `$unwind` joins;
- how many rows appear;
- their order, plus each row's projected fields.

## Model

| member | source | states |
|---|---|---|
| Users.UserWithEmail | routes/users.js:11 | `findOne({email})` finds a user with that email, and finds none only when no user has it |
| Users.UserWithEmailIsUnique | routes/users.js:10-15 | with unique emails, the user found for an email is the one user holding it |
| Users.NewEmailKeepsUsersOk | routes/users.js:17-27 | inserting a member under an email not yet taken keeps emails unique and roles valid |
| Users.CreatedUserIsFound | routes/users.js:17-27 | after a member is inserted under a fresh email, the collection stays consistent and a lookup by that email finds exactly the new row |
| Users.CreateUser | routes/users.js:4-33 | an existing email answers that user's id and changes nothing; a new one inserts a member with photo defaulting to "" and answers 201; afterwards the email resolves to the answered id |
| Users.CreateUserTwice | routes/users.js:4-33 | a repeated creation answers the first call's id as existing, and the table grows by at most one user |
| Users.UpdateUserRole | routes/users.js:54-81 | invalid role → 400 with the role list, unknown id → 404, otherwise only that user's role changes |
| Users.GetUserByEmail | routes/users.js:36-51 | 404 exactly when no user has the email, otherwise a stored user with that email |
| Users.GetAllUsers | routes/users.js:84-93 | every user, each once, in natural order |
| Users.GetUsersByRole | routes/users.js:96-112 | 400 exactly for a role outside the three, otherwise exactly the users with that role |
| Auth.RequestEmail | middleware/auth.js:11 | the email is the first truthy one of query, body and header, and is absent only when none is truthy |
| Auth.Caller | middleware/auth.js:18 | the user document for the email, present exactly when some user has it |
| Auth.VerifyRole | middleware/auth.js:10-29 | no email → 401 "User email not provided"; unknown email → 401 "User not found"; otherwise admitted with that user |
| Auth.VerifyAdmin | middleware/auth.js:32-51 | no email → 401; admitted exactly when the caller exists and is an admin; otherwise 403 "Access denied. Admin required." |
| Auth.VerifyClubManager | middleware/auth.js:54-73 | no email → 401; admitted exactly when the caller is a club manager or an admin; otherwise 403 |
| Auth.VerifyMember | middleware/auth.js:76-95 | no email → 401; admitted exactly when the caller's role is one of the three; otherwise 403 "Access denied. Valid user required." |
| Auth.GuardsAreRankThresholds | middleware/auth.js:41-85 | each role guard admits exactly the callers `verifyRole` admits whose rank (admin 3, club manager 2, member 1) reaches its threshold |
| Auth.GuardHierarchy | middleware/auth.js:32-95 | admitted by the admin guard ⇒ admitted by the manager guard ⇒ by the member guard ⇒ by `verifyRole`, always with the same user |
| Auth.MemberGuardIsRoleGuard | middleware/auth.js:18-21 | when every stored role is valid, `verifyMember` and `verifyRole` admit the same callers with the same user |
| Text.Upper | index.js:18 | ASCII lower-case letters become upper case, every other character is unchanged, and no result is lower case |
| Text.Lower | index.js:18 | ASCII upper-case letters become lower case, every other character is unchanged |
| Text.LowerAll | index.js:18 | same length, each character lowered |
| Text.Capitalize | index.js:16-19 | absent or empty input is returned as is; otherwise same length, first character upper-cased, the rest lower-cased |
| Text.LowerAllIdempotent | index.js:18 | lowering twice is lowering once |
| Text.CapitalizeIdempotent | index.js:16-19 | capitalising a capitalised string changes nothing |
| Text.CapitalizedShape | index.js:16-19 | the result starts with no lower-case letter and has no upper-case letter after it |
| Clubs.CreateClub | routes/clubs.js:4-35 | a falsy manager email → 400 and no change; otherwise a pending club with that manager and fee defaulting to 0 is inserted and answered 201 |
| Clubs.ClubOrderOf | routes/clubs.js:65-81 | "oldest", "highestFee" and "lowestFee" select their orders and nothing else does; anything else is newest first |
| Clubs.GetAllClubs | routes/clubs.js:38-90 | exactly the clubs the filter admits (approved only unless `admin=true`, search, category), each once, each pair in the order `sortBy` selects |
| Clubs.KeyOrderIsListingOrder | routes/clubs.js:84 | sorting by the chosen key puts every pair of clubs in the listing order |
| Clubs.PublicListingIsApprovedClubs | routes/clubs.js:43-50 | without `admin`, search or category, exactly the approved clubs are listed |
| Clubs.AdminListingIsEveryClub | routes/clubs.js:43-50 | with `admin=true` and nothing else, every club is listed, pending and rejected ones included |
| Clubs.GetClubsByStatus | routes/clubs.js:93-121 | 400 exactly for an invalid status; otherwise exactly the clubs in that status that match search and category, in natural order |
| Clubs.GetClubsByManager | routes/clubs.js:124-135 | exactly the clubs the email manages, in natural order |
| Clubs.UpdateClubStatus | routes/clubs.js:138-163 | invalid status → 400 with the list, unknown club → 404, otherwise only that club's status changes |
| Clubs.UpdatedClub | routes/clubs.js:170-179 | the manager and the status can never change through an update; for each of name, description, category, location, banner, fee and creation time, a given value replaces the stored one and an absent one keeps it; an update with no other fields leaves the club unchanged |
| Clubs.UpdateClub | routes/clubs.js:166-190 | unknown club → 404; otherwise that club becomes its patched version and no other club changes |
| Clubs.DeleteClub | routes/clubs.js:193-211 | unknown club → 404; otherwise only that club is removed, and its memberships, events and payments stay |
| Memberships.DuplicateCheckFindsMembership | routes/memberships.js:11-18 | the duplicate check finds a row exactly when the (user, club) pair has a membership, whatever its status |
| Memberships.NewMemberKeepsMembershipsOk | routes/memberships.js:20-29 | inserting a membership for a pair that has none keeps one membership per pair |
| Memberships.MemberAfterInsert | routes/memberships.js:29 | after the insert, the pair is a member, so a second creation is refused |
| Memberships.SamePairsKeepMembershipsOk | routes/memberships.js:142-145 | changing statuses (to valid ones) or removing rows keeps one membership per pair |
| Memberships.CreateMembership | routes/memberships.js:4-35 | an existing pair → 400 and no change; otherwise an active membership with no expiry and payment id defaulting to null is inserted and answered 201 |
| Memberships.UpdateMembershipStatus | routes/memberships.js:131-156 | invalid status → 400, unknown id → 404, otherwise only that membership's status changes |
| Memberships.DeleteMembership | routes/memberships.js:159-177 | unknown id → 404, otherwise only that membership is removed |
| Memberships.UserView | routes/memberships.js:47-74 | a user's membership row carries its club's name, description, category, location and fee |
| Memberships.GetMembershipsByUser | routes/memberships.js:38-83 | the user's memberships whose club exists, in natural order, each projected with its club's details |
| Memberships.ClubView | routes/memberships.js:95-119 | a club's membership row carries its member's name and photo |
| Memberships.GetMembershipsByClub | routes/memberships.js:86-128 | the club's memberships whose member has a user document, in natural order, each with the member's name and photo |
| Registrations.DuplicateCheckFindsRegistration | routes/eventRegistrations.js:18-25 | the duplicate check finds a row exactly when the (event, user) pair has a registration, cancelled ones included |
| Registrations.AdmittedRegistrationKeepsCapacity | routes/eventRegistrations.js:27-48 | a registration admitted below the limit takes exactly one more seat and never takes the event past a truthy `maxAttendees` |
| Registrations.RegisteredAfterInsert | routes/eventRegistrations.js:48 | after the insert the pair is registered, so a second registration is refused |
| Registrations.NewAttendeeKeepsRegistrationsOk | routes/eventRegistrations.js:39-48 | inserting a registration for a pair that has none keeps one registration per pair |
| Registrations.SamePairsKeepRegistrationsOk | routes/eventRegistrations.js:232-235 | changing statuses (to valid ones) or removing rows keeps one registration per pair |
| Registrations.RegisterForEvent | routes/eventRegistrations.js:4-54 | unknown event → 404; an existing pair → 400; a full event → 400; in every other case the answer is 201 with the next id, and exactly a registered row with the event's club, the payment id or null and the time is inserted |
| Registrations.UpdateRegistrationStatus | routes/eventRegistrations.js:221-246 | invalid status → 400, unknown id → 404, otherwise only that registration's status changes |
| Registrations.DeleteRegistration | routes/eventRegistrations.js:249-267 | unknown id → 404, otherwise only that registration is removed |
| RegistrationListings.UserView | routes/eventRegistrations.js:68-103 | a user's registration row carries its event's title, date and location and its club's name |
| RegistrationListings.UserRegistrationIds | routes/eventRegistrations.js:61-106 | exactly the user's registrations whose event and club exist, each once, earliest event first |
| RegistrationListings.GetRegistrationsByUser | routes/eventRegistrations.js:57-115 | those rows' projections in that order; event dates never decrease down the list |
| RegistrationListings.GetRegistrationsByUserAsWritten | routes/eventRegistrations.js:61-106 | as the pipeline is written, the same projections in natural order |
| RegistrationListings.AsWrittenListingIgnoresEventDate | routes/eventRegistrations.js:105 | as written, a user who first registered for a later event and then for an earlier one gets the later event first |
| RegistrationListings.EventView | routes/eventRegistrations.js:125-150 | an event's registration row carries its attendee's name and photo |
| RegistrationListings.GetRegistrationsByEvent | routes/eventRegistrations.js:118-159 | the event's registrations whose attendee has a user document, in natural order, each with name and photo |
| RegistrationListings.ClubView | routes/eventRegistrations.js:172-206 | a club's registration row carries the event's title and the attendee's name and photo |
| RegistrationListings.ClubRegistrationIds | routes/eventRegistrations.js:166-209 | exactly the club's registrations whose event and attendee exist, each once, latest registration first, rows with no registration time last |
| RegistrationListings.GetRegistrationsByClub | routes/eventRegistrations.js:162-218 | those rows' projections in that order |
| Events.NewEvent | routes/events.js:20-35 | the date is `eventDate` when truthy (present and not 0), else `date` when truthy, else now, stored under both names; `isPaid` is true only when given true; fee defaults to 0; a falsy `maxAttendees` means no limit |
| Events.CreateEvent | routes/events.js:4-43 | the new event is inserted, without checking that its club exists, and answered 201 |
| Events.EventFieldOf | routes/events.js:51-58 | a falsy `sortBy` or "eventDate" sorts by `eventDate`; "date", "createdAt" and "eventFee" each select their own field, each if and only if; any other name gives the key that leaves the order unchanged |
| Events.OffsetIsProduct | routes/events.js:62 | the events page `page` skips number `(page - 1) * limit` |
| Events.OffsetMonotone | routes/events.js:62 | later pages skip at least as many events |
| Events.TotalPages | routes/events.js:71 | `ceil(total / limit)` is the fewest pages of `limit` events that hold `total` events |
| Events.SortedEvents | routes/events.js:59-61 | exactly the events of the club filter, each once, ordered ascending or descending by the requested field |
| Events.GetAllEvents | routes/events.js:46-79 | `page` and `limit` default to 1 and 10; below 1 → 500; otherwise the window after the skipped events, the total, the current page and `ceil(total / limit)` |
| Events.EveryEventHasAPage | routes/events.js:59-71 | every matching event appears on page `k / limit + 1`, which is within the page count, at position `k % limit` |
| Events.RequestedPage | routes/events.js:48-75 | a page and a limit of at least 1 are answered with that window of the sorted listing, its page count, the page number and the total |
| Events.PageCoversPosition | routes/events.js:62-71 | position `k` of a listing lies on page `k / limit + 1`, which is counted, at offset `k % limit` |
| Events.PositionOnPage | routes/events.js:62-71 | a position past a page's offset and before its end lies on that page, and that page is counted |
| Events.DivisionSplit | routes/events.js:62 | position `k` is `k % limit` events into page `k / limit + 1` |
| Events.CoveredPosition | routes/events.js:71 | a position before the end of the last counted page belongs to a counted page |
| Events.TwelveEventsMakeThreePages | routes/events.js:71 | 12 events in pages of 5 make 3 pages; page 2 holds the sixth to the tenth event and page 3 the last two |
| Events.GetEventsByClub | routes/events.js:82-97 | exactly the club's events, each once, earliest first |
| Events.GetEventById | routes/events.js:100-116 | 404 exactly for an unknown id, otherwise the stored event |
| Events.UpdatedEvent | routes/events.js:120-133 | for each of title, description, event date, date, location, paid flag, fee, attendee limit and creation time, a given value replaces the stored one and an absent one keeps it; the club stays (a patched `clubId` is listed under Left out); `date` and `eventDate` are patched independently |
| Events.RescheduleLeavesDate | routes/events.js:128-133 | moving `eventDate` alone leaves the old `date`, so the two disagree afterwards |
| Events.UpdateEvent | routes/events.js:119-144 | unknown event → 404; otherwise that event becomes its patched version |
| Events.DeleteEvent | routes/events.js:147-169 | unknown event → 404 and no change; otherwise the event and every registration for it are removed, and no registration for it remains |
| Payments.CreatePayment | routes/payments.js:4-47 | the type is checked first (400 with the type list), then the status (400 with the status list); otherwise the payment is inserted and answered 201 |
| Payments.UpdatePaymentStatus | routes/payments.js:167-192 | invalid status → 400, unknown id → 404, otherwise only that payment's status changes |
| Payments.ClubNameOf | routes/payments.js:61-83 | the club name is present exactly when the payment's club exists |
| Payments.EventTitleOf | routes/payments.js:69-85 | the event title is present exactly when the payment's event exists |
| Payments.UserNameOf | routes/payments.js:129-140 | the payer's name is present exactly when a user has the email |
| Payments.NewestFirst | routes/payments.js:93 | exactly the matching payments, each once, newest first |
| Payments.GetPaymentsByUser | routes/payments.js:50-103 | the payer's payments, newest first, each with its club name and event title |
| Payments.GetAllPayments | routes/payments.js:106-164 | every payment exactly once, newest first, with payer, club and event names |
| Payments.AllListed | routes/payments.js:106-164 | a listing holding every payment once is as long as the collection |
| Payments.GetPaymentsByClub | routes/payments.js:195-238 | the club's payments, newest first, each with the payer's name |
| Stripe.CreateEventPaymentIntent | routes/stripe.js:5-41 | a missing event id, email or amount → 400; an unknown event → 404; otherwise a USD intent request for the amount in cents carrying the event and payer |
| Stripe.CreateMembershipPaymentIntent | routes/stripe.js:44-80 | the same checks against the clubs, with an intent request carrying the club and payer |
| Stripe.MarkPayment | routes/stripe.js:137-145 | only the first payment recorded for the intent takes the status; with none recorded nothing changes |
| Stripe.MarkPaymentKeepsPaymentsOk | routes/stripe.js:137-145 | marking with a valid status keeps every payment status valid |
| Stripe.MarkPaymentIdempotent | routes/stripe.js:137-145 | marking twice is marking once |
| Stripe.Succeeded | routes/stripe.js:131-192 | the intent's payment becomes completed; only the kind of record it paid for can change |
| Stripe.Failed | routes/stripe.js:195-212 | the intent's payment becomes failed; registrations and memberships stay |
| Stripe.SucceededRegisters | routes/stripe.js:149-167 | after a successful event payment the payer is registered for the event |
| Stripe.SucceededEnrols | routes/stripe.js:170-189 | after a successful membership payment the payer has a membership of the club |
| Stripe.SucceededKeepsLedgerOk | routes/stripe.js:131-192 | a successful payment keeps one registration and one membership per pair and valid statuses |
| Stripe.SucceededIdempotent | routes/stripe.js:131-192 | a redelivered success report changes nothing more |
| Stripe.FailedIdempotent | routes/stripe.js:195-212 | a redelivered failure report changes nothing more |
| Stripe.SucceededIgnoresCapacity | routes/stripe.js:149-167 | a successful payment for an event that is already full still takes a seat beyond `maxAttendees` |
| Stripe.EnsureRegistration | routes/stripe.js:149-167 | the webhook's registration (no club, no registration time) is inserted unless the pair has one |
| Stripe.EnsureMembership | routes/stripe.js:170-189 | the webhook's active membership is inserted unless the pair has one |
| Stripe.HandleSuccessfulPayment | routes/stripe.js:131-192 | the database's payments, registrations and memberships become exactly `Succeeded` of the old ones, consistency kept |
| Stripe.HandleFailedPayment | routes/stripe.js:195-212 | the database becomes exactly `Failed` of the old one |
| Stripe.HandleWebhook | routes/stripe.js:97-128 | a bad signature → 400 "Webhook Error: …" and no change; otherwise acknowledged, succeeded and failed intents are reconciled, and other event types change nothing |

## Left out

- Identifiers: the model uses natural numbers for identifiers. It does not parse `ObjectId`s, so malformed ids, and the 500 answers they and driver failures cause, are not modelled.
- Errors inside the webhook helpers: the success and failure helpers log and swallow their errors, so a partial update after a failed write is not modelled.
- Concurrency: the handlers run as if alone. Interleaved requests can race the duplicate and capacity checks, and that is not modelled. The webhook does not await its helpers before acknowledging, and the model runs them to completion first.
- Regular expressions: the club search's case-insensitive test is the parameter `matches`.
- Payment processor:
  - the payment-intent API calls are replaced by the `IntentRequest` the handler would send;
  - the signature check is an optional error message given to `HandleWebhook`;
  - `getPaymentIntent` only reads from the processor, and is not modelled.
- Stripe.CreateEventPaymentIntent, Stripe.CreateMembershipPaymentIntent and Payments.CreatePayment: amounts are integers. The source parses them as floating-point numbers; for the intents it also multiplies by 100 and rounds to cents. None of that is modelled.
- Stripe.IntentMetadata: metadata with a type but no id is not represented; the model's metadata always carries the id its type needs.
- Timestamps: `updatedAt`, memberships' `joinedAt` (set on creation), the webhook membership's `joinedDate` and the webhook rows' `createdAt` are not modelled. `createdAt` of users, clubs, events and payments and `registeredAt` of registrations are given as a parameter `now`.
- Sort ties: sorts are stable over natural order; MongoDB leaves the order of equal keys unspecified.
- Events.EventFieldOf: a `sortBy` that names any other field is modelled as a sort that changes nothing, as it would be for a field no document has.
- Events.GetAllEvents: every `page` or `limit` below 1 after the defaults is answered 500. For a negative `limit` on the first page, MongoDB would answer instead of failing.
- Events.NewEvent: `isPaid` is an optional boolean, so other truthy values, and dates given as strings to parse, are not modelled.
- Patches: an event patch may also carry `clubId`, and both patch bodies may carry arbitrary extra fields. The model's patches have the document's own fields only.
- Projections: listing rows carry the whole stored record next to the joined fields, not the exact projected field set.
- Joins: a `$lookup` on an email that several users share would repeat the row once per user. The model joins the first such user, which is the same whenever emails are unique (`UsersOk`).
- initDatabase in middleware/auth.js is plumbing: the guards read the users collection handed to them.
- Text.Capitalize: case mapping covers ASCII letters only; other characters are kept as they are.
- Server plumbing: the server setup, routing and connection code of index.js are not part of this model.

## Findings

| source | as written | input that shows it | evidently intended | confidence | as-written member | corrected member |
|---|---|---|---|---|---|---|
| routes/eventRegistrations.js:105 | `$sort` on `event.eventDate` runs after the `$project` stage has dropped `event`, so every row sorts on a missing key and the listing comes back in insertion order | a user registers first for an event on day 20, then for one on day 10; the list shows day 20 first | the user's registrations ordered by their event's date, earliest first | not executed | RegistrationListings.GetRegistrationsByUserAsWritten, RegistrationListings.AsWrittenListingIgnoresEventDate | RegistrationListings.GetRegistrationsByUser |
