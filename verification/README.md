# meetapp-api admission logic in Dafny

A model of the request-handling core of a meetup-management REST API. Users
sign up and edit their profile; organizers create, edit, cancel and list
their meetups; anyone browses the meetups of a given day; users subscribe to
other people's upcoming meetups and list the meetups they subscribed to.

Every controller action is a chain of guard clauses in a fixed order
followed by at most one change to one table. The model keeps that shape:

- `Db.Database` is the database: the users, meetups and
  meetup_subscriptions tables as sequences of rows in id order, the mail job
  queue, and the id each table gives its next row. `Valid()` holds the table
  invariants: ids strictly increasing and below the next id, no two users
  with one non-empty email, no (user, meetup) pair subscribed twice.
- The state-changing actions are methods that modify the database. These
  are `SubscriptionController.Store`, `MeetupController.Store`/`Update`/`Delete`
  and `UserController.Store`/`Update`. Each `ensures` names the error every
  guard produces, in the source's order. It also says that an error changes
  nothing, and gives the exact new table contents on success.
- The three read-only `index` actions are functions over the table
  sequences. They filter, order and paginate with offset `(page - 1) * limit`.
- The clock is a parameter `now`, in milliseconds like a JavaScript date. So
  are the password check (`checkPassword`) and a database failure on delete
  (`destroyFails`).

The subscription overlap query is modelled clause by clause
(`SubscriptionController.Clashes`). Its three inclusive clauses catch a
meetup that starts or ends inside the candidate, or lies inside it. They do
not catch a meetup that strictly encloses the candidate. So a user's
subscribed meetups are not guaranteed to be pairwise disjoint in time, and
the model proves that such an overlapping pair is admitted
(`EnclosedMeetupAdmitted`).

The third clause is redundant only for meetups that do not end before they
start. `update` never re-checks dates, so such meetups can exist
(`UpdateMayInvertDates`). For them, the third clause alone catches the
clash (`ThirdClauseCatchesInvertedMeetup`).

## Model

| member | source | states |
|---|---|---|
| `Meetups.Past` | src/app/models/Meetup.js:14-19 | the virtual `past` attribute: true exactly when the start lies strictly before the clock |
| `Meetups.StartingNowIsNotPast` | src/app/models/Meetup.js:14-19 | `past` is a strict comparison: a meetup starting exactly now is not past |
| `Meetups.PastIsDerived` | src/app/models/Meetup.js:15-18 | `past` is computed from `start_date` and the clock only: rows with equal starts agree on it |
| `Meetups.PastIsPermanent` | src/app/models/Meetup.js:17 | once past, a meetup stays past as the clock advances |
| `Tables.Organizer` | src/app/models/Meetup.js:30 | the `organizer` association resolves `user_id` to that user's public fields, or to nothing when no row has that id |
| `Tables.MeetupIndex` | src/app/controllers/SubscriptionController.js:39-43 | findByPk: the index of the row with that id, or -1 exactly when no row has it |
| `Tables.UserIndex` | src/app/controllers/UserController.js:62 | findByPk on users: the index of the row with that id, or -1 exactly when none has it |
| `Tables.EmailTaken` | src/app/controllers/UserController.js:22 | `findOne` by email finds a row exactly when some row of the users table holds that email |
| `Tables.Subscribed` | src/app/controllers/SubscriptionController.js:62-69 | `findOne` by (meetup, user) finds a row exactly when some subscription row has that user and that meetup |
| `Tables.AddUserKeepsEmailsUnique` | src/app/controllers/UserController.js:22-26 | inserting a user whose email nobody holds keeps non-empty emails unique, and all emails unique when they were |
| `Tables.ReplaceUserKeepsEmailsUnique` | src/app/controllers/UserController.js:64-70 | rewriting a row keeps emails unique when the new email is the row's own or held by nobody |
| `Tables.ReplaceUserKeepsFilledEmailsUnique` | src/app/controllers/UserController.js:64-80 | rewriting a row keeps non-empty emails unique when the new email is the row's own, empty, or held by nobody |
| `Tables.AddSubscriptionKeepsPairsUnique` | src/app/controllers/SubscriptionController.js:62-73 | inserting a pair that is not yet subscribed keeps (user, meetup) pairs unique |
| `Query.Paginate` | src/app/controllers/AvailableController.js:23-24 | a page holds at most `limit` rows, taken in order from offset `(page - 1) * limit` |
| `Query.NextPageFollows` | src/app/controllers/MeetupController.js:13-14 | page `p + 1` starts where page `p` ends, and is non-empty only if page `p` is full |
| `Query.RowOnItsPage` | src/app/controllers/AvailableController.js:23-24 | with a positive limit, every row appears on page `i / limit + 1` at position `i % limit` |
| `SubscriptionController.Clashes` | src/app/controllers/SubscriptionController.js:88-113 | the three clauses of the overlap query; whatever they match overlaps the candidate, unless the matched meetup ends before it starts |
| `SubscriptionController.ThirdClauseRedundant` | src/app/controllers/SubscriptionController.js:88-113 | for a meetup that does not end before it starts, the query matches exactly when its start or its end lies in the candidate's range |
| `SubscriptionController.ThirdClauseCatchesInvertedMeetup` | src/app/controllers/SubscriptionController.js:99-112 | for a meetup that ends before it starts, the third clause can match where the first two do not |
| `SubscriptionController.TouchingEndpointsClash` | src/app/controllers/SubscriptionController.js:90-98 | the range test is inclusive: meetups that only touch at an endpoint clash |
| `SubscriptionController.EnclosingMeetupMissed` | src/app/controllers/SubscriptionController.js:88-113 | a meetup strictly enclosing the candidate overlaps it yet is not matched |
| `SubscriptionController.ClashesAreOverlapsButEnclosures` | src/app/controllers/SubscriptionController.js:88-113 | for well-ordered ranges, the query matches exactly the overlapping meetups that do not strictly enclose the candidate |
| `SubscriptionController.ClashingSubscriptions` | src/app/controllers/SubscriptionController.js:79-117 | the query returns exactly the requester's subscription rows whose meetup exists and matches the three clauses |
| `SubscriptionController.Admits` | src/app/controllers/SubscriptionController.js:41-124 | all five guards pass: the meetup exists, is not past, is not the requester's, is not yet subscribed, and no meetup the requester attends clashes with it |
| `SubscriptionController.ClashBlocks` | src/app/controllers/SubscriptionController.js:119-124 | a subscribed meetup that starts or ends inside the candidate's range makes the request fail |
| `SubscriptionController.EnclosedMeetupAdmitted` | src/app/controllers/SubscriptionController.js:38-155 | a user subscribed to `e` is admitted to a candidate strictly inside `e`: two overlapping subscriptions can coexist |
| `SubscriptionController.Store` | src/app/controllers/SubscriptionController.js:38-156 | not found gives 400, past 400, own meetup 401, already subscribed 401, clash 401, in that order; an error changes nothing. Success appends exactly one row (requester, meetup) and one SubscriptionMail job, advances the subscription id counter, and changes nothing else. Pairs stay unique |
| `SubscriptionController.InsertByStart` | src/app/controllers/SubscriptionController.js:17 | inserting into a start-ordered list keeps it ordered and adds exactly that row |
| `SubscriptionController.SortByStart` | src/app/controllers/SubscriptionController.js:17 | the result is ordered by ascending start and is a permutation of the input |
| `SubscriptionController.Index` | src/app/controllers/SubscriptionController.js:10-36 | lists exactly the meetups that start after now and that the requester subscribed to, ascending by start, no row more often than in the table |
| `MeetupController.Complete` | src/app/controllers/MeetupController.js:38-46 | the create schema: a body that passes it carries a non-empty title, description and address, both dates and a banner |
| `MeetupController.Create` | src/app/controllers/MeetupController.js:72-74 | the created row belongs to the requester, whatever `user_id` the body carried, and gets the next id |
| `MeetupController.Patch` | src/app/controllers/MeetupController.js:127 | `update` writes every field the body carries (title, description, banner, dates, address, complement) and keeps the others, but never the id or the organizer |
| `MeetupController.Remove` | src/app/controllers/MeetupController.js:158-163 | destroy removes exactly the row with that id, keeps every other row and the id order |
| `MeetupController.PatchKeepsOwners` | src/app/controllers/MeetupController.js:121-127 | after an update no meetup has a different organizer |
| `MeetupController.UpdateMayInvertDates` | src/app/controllers/MeetupController.js:121-127 | update re-checks neither date order nor past-ness: it can leave end before start, or a start in the past |
| `MeetupController.FilterKeepsIdsAscending` | src/app/controllers/MeetupController.js:11-12 | filtering by owner keeps the table's ascending id order |
| `MeetupController.Listing` | src/app/controllers/MeetupController.js:10-12 | exactly the requester's meetups, ascending or descending by id as requested |
| `MeetupController.PageKeepsOrder` | src/app/controllers/MeetupController.js:12-14 | a page of an id-ordered listing keeps that order |
| `MeetupController.Index` | src/app/controllers/MeetupController.js:7-35 | defaults page 1, limit 20, order descending: the window of the ordered listing that starts at offset `(page - 1) * limit`, holding `limit` rows or as many as remain after the offset |
| `MeetupController.Store` | src/app/controllers/MeetupController.js:37-77 | schema failure gives 400, start before now 400, end before start 400 (end equal to start is accepted); success appends one row owned by the requester, advances the meetup id counter, and changes nothing else |
| `MeetupController.Update` | src/app/controllers/MeetupController.js:79-130 | the update schema, all optional fields of their own types, always passes for a typed body; then not found gives 400, not the owner 401, past 401, `user_id` in the body 401, in that order; an error changes nothing. Success rewrites only that row with the body's fields. No organizer ever changes |
| `MeetupController.Delete` | src/app/controllers/MeetupController.js:132-169 | not found gives 400, not the owner 401, past 401, database failure 400; an error changes nothing. Success removes exactly that meetup and no other row. No organizer changes |
| `UserController.StoreSchema` | src/app/controllers/UserController.js:6-14 | the sign-up schema: a body that passes it carries an email with an '@' and at least three characters |
| `UserController.UpdateSchema` | src/app/controllers/UserController.js:42-54 | the edit schema: a non-empty email must have an '@', and an empty email passes, as the validation library's email rule skips it |
| `UserController.EmailClash` | src/app/controllers/UserController.js:64-69 | the email guard of `update` fires only for a non-empty email that differs from the user's own and that some row holds |
| `UserController.Amend` | src/app/controllers/UserController.js:80 | a profile edit never changes the user's id, nor the email unless the body carries one; a new password becomes the credential, and without one a `password_hash` in the body is written; with neither the credential stays |
| `UserController.EmptyHashClearsCredential` | src/app/controllers/UserController.js:72-80 | a body holding only an empty `password_hash` passes every guard of `update`, which then writes the empty hash over the stored credential |
| `UserController.PasswordChangeNeedsOldPassword` | src/app/controllers/UserController.js:45-53 | a new password passes the schema only with a matching confirmation and the old password |
| `UserController.OwnEmailAllowed` | src/app/controllers/UserController.js:64 | resubmitting one's own email never trips the email guard |
| `UserController.AmendKeepsEmailsUnique` | src/app/controllers/UserController.js:64-80 | an edit that passes the schema and the email guard keeps non-empty emails unique |
| `UserController.EmptyEmailEditsCollide` | src/app/controllers/UserController.js:44-80 | two users who each send an empty email pass the schema and the guard, and then share the email `""` |
| `UserController.IntendedUpdateSchema` | src/app/controllers/UserController.js:42-54 | the intended edit schema: it implies the written one and rejects an empty email |
| `UserController.IntendedEditKeepsEmailsUnique` | src/app/controllers/UserController.js:64-80 | under the intended schema, an edit that passes the email guard keeps every email unique |
| `UserController.Store` | src/app/controllers/UserController.js:5-39 | schema failure gives 400, email taken 400, `password_hash` given 400, in that order; an error changes nothing. Success appends one user, answers 201 with only id, name and email, advances only the user id counter, and keeps emails unique |
| `UserController.Update` | src/app/controllers/UserController.js:41-87 | schema failure gives 400, another user's email 400, failed old-password check 401, `password_hash` given 400, in that order; an error changes nothing. An empty email passes the schema and the guard and is written, and so is an empty `password_hash`. Success rewrites only the requester's row and keeps non-empty emails unique |
| `AvailableController.StartOfDay` | src/app/controllers/AvailableController.js:20 | `startOfDay`: the last day boundary at or before the date |
| `AvailableController.EndOfDay` | src/app/controllers/AvailableController.js:20 | `endOfDay`: the last millisecond before the next day boundary, at or after the date |
| `AvailableController.OnDay` | src/app/controllers/AvailableController.js:19-21 | the `between` test on `start_date`: true exactly when the meetup starts on the same calendar day as the date |
| `AvailableController.DayHoldsItsInstant` | src/app/controllers/AvailableController.js:20 | a date lies between its day's start and end, and a day is 86 400 000 ms long |
| `AvailableController.SameDay` | src/app/controllers/AvailableController.js:20 | days do not overlap: every instant within a day's bounds has that same day |
| `AvailableController.DayMeetups` | src/app/controllers/AvailableController.js:17-22 | exactly the meetups, of any organizer, whose start lies within the day, both bounds included |
| `AvailableController.WithOrganizers` | src/app/controllers/AvailableController.js:34-47 | every listed meetup carries its own organizer's public fields |
| `AvailableController.Index` | src/app/controllers/AvailableController.js:8-51 | no date gives 400. Otherwise, with defaults limit 10 and page 1, the window of the day's meetups that starts at offset `(page - 1) * limit`, holding `limit` rows or as many as remain, each with its organizer |

## Left out

- HTTP plumbing, routing and authentication: a request is its parsed body or query and the authenticated user id; a response is `Response`.
- The JSON attributes each listing selects, the `banner` and `avatar` file includes and the `past` attribute in the meetup listing: rows are returned whole (past is `Meetups.Past` of the row).
- Type errors in request bodies: bodies are typed, so the schemas only check presence, emptiness, length, equality and email shape.
- `LooksLikeEmail` stands in for the validation library's email format rule (local part, '@', domain); the library's exact pattern is not modelled. Like that rule, the edit schema lets an empty email through.
- UserController.Store, UserController.Update: the library's `min(6)` counts UTF-16 code units, while the model counts characters (Unicode scalar values); a password of three characters outside the Basic Multilingual Plane, such as emoji, passes the source's length rule and fails the model's.
- `MeetupController.Store`, `UserController.Store`: the message of a schema failure is the validation library's first error; the model only promises status 400.
- `checkPassword` (bcrypt) is a parameter; the hashing hook of the User model is not part of this model, so a user row keeps the submitted password as its credential.
- UserController.Update: an empty `password_hash` passes the truthiness guard at line 76 and `update` writes it; the model writes it as the credential (`EmptyHashClearsCredential`). What the User model's hook does with it, and whether a cleared credential can still sign in, is decided by code that is not part of this model.
- MeetupController.Store: the dates are modelled as instants that parsed; a `start_date` or `end_date` that the schema's date rule accepts but ISO parsing rejects (a number, a non-ISO string) becomes an invalid date, both `isBefore` tests are then false, and a past or inverted meetup is created. The model does not represent invalid dates.
- MeetupController.Create, UserController.Store: `create(req.body)` would also store an `id` the client puts in the body; bodies here carry no `id`, so "gets the next id" and the `next…Id` counters hold only for bodies without one.
- startOfDay/endOfDay are taken in UTC; the server's time zone and the parsing of the date string (an unparsable one included) are not modelled.
- MeetupController.Index, AvailableController.Index: a `page` below 1 is excluded by a precondition; the source would hand the database a negative offset, whose behaviour is outside the model.
- UserController.Update: requires the requester's user row to exist; the source reads it without a check, and a missing row would raise an unhandled error, which is not modelled.
- MeetupController.Update: a `user_id` of 0 or null in the body passes the owner guard, which tests truthiness, and `update` would write it: null would clear the organizer, 0 would break the foreign key, depending on the migration, which is not part of this model. The body's `user_id` is an `Option<Id>`, so these values cannot be written, and "no organizer ever changes" is proved only for bodies without a falsy `user_id`.
- `order` values other than ascending and descending, which the ORM rejects, cannot be written.
- Rows with equal start times may come in any order from the database; the model fixes one.
- AvailableController.Index: the query has no `order`, so which of the day's meetups land on a given page is up to the database; the model fixes table (id) order, and its promise about which rows sit at which position holds only for that order.
- What deleting a meetup does to its subscription rows (a cascade is decided by a migration that is not part of this model): subscriptions are left as they are, and the queries ignore rows whose meetup is gone.
- The race between the duplicate check and the insert in subscription `store`: the model is sequential.
- The SubscriptionMail job is recorded as (meetup id, subscriber id); the job's payload, its mail template, date formatting, the queue and mail libraries are not modelled, nor a queue failure.
- A database error other than the one `delete` catches is not modelled.

## Findings

| source | as written | input that shows it | evidently intended | confidence | as-written member | corrected member |
|---|---|---|---|---|---|---|
| src/app/controllers/UserController.js:44-80 | the edit schema's email rule skips the empty string, and the guard at line 64 only checks a truthy email, so `update` writes `""` | two users who each send `{ "email": "" }`: both edits answer 200 and both rows hold `""`. If the database has a unique constraint on email (its migration is not part of this model), the second write fails as an unhandled error instead of a 400 | an email, when given, is a non-empty well-formed address, so no two users share an email | medium, not executed | `UserController.EmptyEmailEditsCollide` | `UserController.IntendedEditKeepsEmailsUnique` |
