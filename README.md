# Job-hunt tracker: a Dafny model

This project models the core of a job-application tracker. The tracker has
a web client and a REST server over a Postgres database. Users record job
applications, the interviews attached to them, study resources and practice
interview questions. The model covers the following parts.

- **The schema** (`schema.dfy`). The four tables, their enums, the insert
  shapes and the defaults a new row gets. It also gives the meaning of a
  partial update: an absent field stays as it is, and `null` clears a
  nullable column.
- **The columns** (`columns.dfy`). Which value each column accepts, and
  the decoder that reads an update record into a partial update exactly
  when every value fits and no NOT NULL column is cleared. The decoders
  and the encoders are proved inverse.
- **Dates on the wire** (`calendar.dfy`, `json.dfy`). The ISO string
  `JSON.stringify` writes for a `Date`, built from the proleptic Gregorian
  calendar, and its parser, proved inverse.
- **The storage layer** (`storage.dfy`, `queries.dfy`). It is a class `Store`
  whose tables are maps, and every `storage.ts` method is a method that
  changes or reads them. Ownership is per user. Applications, resources and
  questions carry a `userId`. An interview belongs to whoever owns its
  parent application. The list queries return the filtered rows, distinct
  and in the order the query asks for, or fail when a filter is not an
  enum label.
- **The REST handlers** (`routes.dfy`). The list routes, GET by id, POST,
  PATCH and DELETE for each entity, plus the "upcoming interviews" and
  statistics routes, with their status codes and error messages. Every
  handler acts for the fixed user `MockUserId`, which is "mock-user-123"
  (server/routes.ts:8): there is no authentication. The PATCH handlers
  copy the allow-listed fields of the body (`PickFields`, a loop) and hand
  them to the store, whose update fails (500) when a value does not fit
  its column.
- **The client's pure rules**:
  - the statistics page's cutoff filter, breakdowns, metrics, response
    times and timeline length (`stats.dfy`);
  - the filters of the applications, questions, resources and interviews
    pages;
  - the logo URL guess (`logo.dfy`);
  - the question dialogs' tag field (`question_forms.dfy`);
  - the add-application and application-details dialogs
    (`application_forms.dfy`);
  - the edit-interview dialog (`interview_forms.dfy`);
  - the sign-up page's password guard and the page state it updates
    (`signup.dfy`, a class).
- **End to end** (`end_to_end.dfy`). Each edit dialog has a form it fills
  from a stored row and a JSON body it sends. That body goes through the
  PATCH allow-list, the column checks and the store's update. These lemmas
  state what a save does as the handlers are written (the date makes it
  fail) and, with the date read back on the server, what the row becomes.

Conventions:

- Timestamps are integers of milliseconds since the epoch.
- The clock (`now`) and the browser's time-zone offset are parameters.
- The database's generated UUIDs are replaced by a counter rendered in
  decimal (`IdOf`), which is proved injective.
- A nullable column is an `Option`. A partial-update field on a nullable
  column is an `Option<Option<_>>`: `None` means absent and `Some(None)`
  means `null`.
- An update record is a map from field name to JSON value. It may also
  hold a JavaScript `Date` (`JDate`), which a parsed request body never
  does.

## Model

| member | source | states |
|---|---|---|
| Schema.StartOfDay | client/src/components/application-details-modal.tsx:70 | `toISOString().split("T")[0]` read back as a date: the UTC midnight at or before `t`, less than a day before it |
| Schema.StartOfDayWithin | client/src/components/application-details-modal.tsx:70 | every instant of a UTC day maps to that day's midnight |
| Schema.StartOfDayIsIdempotent | client/src/components/edit-interview-modal.tsx:80 | cutting a date to its day twice is cutting it once |
| Schema.ParseApplicationStatus | shared/schema.ts:12-21 | accepts exactly the eight labels of `application_status` and inverts the naming |
| Schema.ParseInterviewType | shared/schema.ts:23-30 | accepts exactly the six labels of `interview_type` |
| Schema.ParseInterviewStatus | shared/schema.ts:32-36 | accepts exactly the three labels of `interview_status` |
| Schema.ParseResourceCategory | shared/schema.ts:38-45 | accepts exactly the six labels of `resource_category` |
| Schema.ParseQuestionType | shared/schema.ts:47-52 | accepts exactly the four labels of `question_type` |
| Schema.ApplicationStatusesAreExact | shared/schema.ts:12-21 | eight distinct statuses, all listed, each name parses back to its status |
| Schema.InterviewTypesAreExact | shared/schema.ts:23-30 | six distinct types, all listed, round-trip through their names |
| Schema.InterviewStatusesAreExact | shared/schema.ts:32-36 | three distinct statuses, all listed, round-trip through their names |
| Schema.ResourceCategoriesAreExact | shared/schema.ts:38-45 | six distinct categories, all listed, round-trip through their names |
| Schema.QuestionTypesAreExact | shared/schema.ts:47-52 | four distinct types, all listed, round-trip; "experience" is not one of them |
| Schema.NewApplication | shared/schema.ts:54-70 | a new application gets its id, owner, both timestamps set to now, status "applied" unless given, remote `false` unless given |
| Schema.NewInterview | shared/schema.ts:72-87 | a new interview gets its id, its parent, `createdAt` now and status "scheduled" unless given |
| Schema.NewResource | shared/schema.ts:89-99 | a new resource gets its id, owner, `createdAt` now and "not reviewed" unless given |
| Schema.NewQuestion | shared/schema.ts:101-110 | a new question gets its id, owner, `createdAt` now and "not favourite" unless given |
| Schema.InsertShapesOmit | shared/schema.ts:117-139 | each insert shape is its table's columns without id, owner and timestamps; an interview insert names its application, not a user |
| Schema.ApplyApplicationPatch | server/storage.ts:116-123 | an update never changes id, owner or `createdAt`, and always stamps `updatedAt` |
| Schema.ApplyInterviewPatch | server/storage.ts:258-270 | an interview update never changes id or `createdAt` |
| Schema.ApplyResourcePatch | server/storage.ts:312-319 | a resource update never changes id, owner or `createdAt` |
| Schema.ApplyQuestionPatch | server/storage.ts:364-371 | a question update never changes id, owner or `createdAt` |
| Schema.ApplicationPatchSetsNamedFields | server/storage.ts:116-123 | each of the eleven columns takes the patch's value when the patch names it and keeps its old value otherwise |
| Schema.InterviewPatchSetsNamedFields | server/storage.ts:258-270 | each of the twelve columns takes the patch's value when named and keeps its old value otherwise |
| Schema.ResourcePatchSetsNamedFields | server/storage.ts:312-319 | each of the six columns takes the patch's value when named and keeps its old value otherwise |
| Schema.QuestionPatchSetsNamedFields | server/storage.ts:364-371 | each of the five columns takes the patch's value when named and keeps its old value otherwise |
| Schema.PatchesAreIdempotent | server/storage.ts:116-371 | applying the same update twice is applying it once (for an application, with the later `updatedAt`) |
| Schema.EmptyPatchesChangeNothing | server/storage.ts:116-123 | an empty update leaves every row as it was, except that an application's `updatedAt` is stamped |
| Calendar.TimeOfCivilOf | client/src/components/application-details-modal.tsx:91 | splitting an instant into calendar date and clock time and putting it back gives the instant |
| Calendar.CivilOfTimeOf | client/src/components/application-details-modal.tsx:91 | a valid calendar date and time is the split of the instant it names |
| Calendar.ParseIso | client/src/components/application-details-modal.tsx:91 | a string that parses is the ISO form (`YYYY-MM-DDTHH:mm:ss.sssZ`, six-digit signed years outside 0-9999) of a time a `Date` can hold |
| Calendar.ParseIsoString | client/src/components/application-details-modal.tsx:91 | the ISO string of every time a `Date` can hold parses back to that time |
| Calendar.IsoStringInjective | client/src/components/application-details-modal.tsx:91 | two times with the same ISO string are the same time |
| JsonValues.DateJson | client/src/components/application-details-modal.tsx:91 | a `Date` is sent as a string exactly when the time is within a `Date`'s range, and as `null` otherwise |
| JsonValues.DateJsonParsesBack | client/src/components/application-details-modal.tsx:91 | the string sent for a `Date` parses back to that `Date` |
| JsonValues.Truthy | client/src/components/add-application-modal.tsx:73 | `s \|\| undefined`: absent exactly for the empty string |
| JsonValues.NonZero | client/src/components/add-application-modal.tsx:77-78 | a salary is kept only when present and non-zero |
| JsonValues.Ticked | client/src/components/add-application-modal.tsx:75 | `isRemote \|\| false` is true exactly when ticked |
| Columns.AsString | shared/schema.ts:57-58 | a NOT NULL `text` column takes exactly a string |
| Columns.AsNullableString | shared/schema.ts:59-60 | a nullable `text` column takes exactly `null` or a string, and writing the result back gives the value |
| Columns.AsNullableInt32 | shared/schema.ts:62-63 | an `integer` column takes exactly `null` or a number within 32 bits |
| Columns.AsNullableBool | shared/schema.ts:65 | a `boolean` column takes exactly `null` or a boolean |
| Columns.AsTimestamp | shared/schema.ts:66 | a `timestamp` column takes exactly a `Date` |
| Columns.AsStrings | shared/schema.ts:108 | a `text[]` value is read exactly when every element is a string, and writing it back gives the array |
| Columns.AsNullableStringArray | shared/schema.ts:108 | the nullable `text[]` column takes exactly `null` or an array of strings |
| Columns.ReadTextArray | shared/schema.ts:108 | an array written from strings reads back as those strings |
| Columns.AsApplicationStatus | shared/schema.ts:61 | the status column takes exactly a string that is an `application_status` label, and the label is the status's name |
| Columns.AsInterviewType | shared/schema.ts:75 | the type column takes exactly an `interview_type` label |
| Columns.AsInterviewStatus | shared/schema.ts:80 | the status column takes exactly an `interview_status` label |
| Columns.AsResourceCategory | shared/schema.ts:94 | the category column takes exactly a `resource_category` label |
| Columns.AsQuestionType | shared/schema.ts:106 | the type column takes exactly a `question_type` label |
| Columns.Field | server/routes.ts:71-74 | an absent field sets nothing; a present one reads exactly when its value fits, as that value |
| Columns.DecodeApplicationPatch | shared/schema.ts:54-70 | a record reads as an update exactly when every value fits its column and no NOT NULL column is set to `null` |
| Columns.DecodeApplicationPatchEncodes | shared/schema.ts:54-70 | writing a decoded update back gives the record's allow-listed fields, each with its value |
| Columns.DecodeEncodeApplicationPatch | shared/schema.ts:54-70 | an update whose numbers fit in 32 bits decodes from its own encoding |
| Columns.EmptyApplicationRecord | server/routes.ts:70 | the empty record is the empty update, and the empty update writes the empty record |
| Columns.DecodeInterviewPatch | shared/schema.ts:72-87 | a record reads as an interview update exactly when every value fits and no NOT NULL column is set to `null` |
| Columns.DecodeInterviewPatchEncodes | shared/schema.ts:72-87 | writing a decoded interview update back gives the record's allow-listed fields |
| Columns.DecodeEncodeInterviewPatch | shared/schema.ts:72-87 | an interview update whose numbers fit decodes from its own encoding |
| Columns.EmptyInterviewRecord | server/routes.ts:160 | the empty record is the empty interview update, and back |
| Columns.DecodeResourcePatch | shared/schema.ts:89-99 | a record reads as a resource update exactly when every value fits and no NOT NULL column is set to `null` |
| Columns.DecodeResourcePatchEncodes | shared/schema.ts:89-99 | writing a decoded resource update back gives the record's allow-listed fields |
| Columns.DecodeEncodeResourcePatch | shared/schema.ts:89-99 | every resource update decodes from its own encoding |
| Columns.EmptyResourceRecord | server/routes.ts:233-240 | the empty record is the empty resource update, and back |
| Columns.DecodeQuestionPatch | shared/schema.ts:101-110 | a record reads as a question update exactly when every value fits and no NOT NULL column is set to `null` |
| Columns.DecodeQuestionPatchEncodes | shared/schema.ts:101-110 | writing a decoded question update back gives the record's allow-listed fields |
| Columns.DecodeEncodeQuestionPatch | shared/schema.ts:101-110 | every question update decodes from its own encoding |
| Columns.EmptyQuestionRecord | server/routes.ts:310-317 | the empty record is the empty question update, and back |
| Storage.IdOf | server/storage.ts:111-114 | a generated id is a non-empty string of decimal digits |
| Storage.IdOfInjective | server/storage.ts:111-114 | distinct counters give distinct ids |
| Storage.WithApplication | server/storage.ts:147-184 | a joined interview row carries the interview and its application's company, title and job URL |
| Storage.OwnedByWrite | server/storage.ts:116-123 | writing a row that belongs to someone else changes nothing a user owns |
| Storage.OwnedByRemove | server/storage.ts:125-130 | removing another user's row changes nothing a user owns |
| Storage.VisibleAfterInterviewWrite | server/storage.ts:258-270 | writing an interview that is not reachable by `u`, over one that was not reachable either, leaves what `u` sees unchanged |
| Storage.VisibleAfterInterviewRemove | server/storage.ts:272-280 | removing an interview `u` cannot reach leaves `u`'s interviews unchanged |
| Storage.VisibleAfterApplicationWrite | server/storage.ts:116-123 | an application write that keeps the owner keeps every user's interviews |
| Storage.VisibleAfterApplicationRemove | server/storage.ts:125-130 | removing another user's application leaves `u`'s interviews unchanged |
| Storage.Store.RowsAreKeyed | server/storage.ts:61-378 | every stored row sits under its own id |
| Storage.Store.constructor | server/storage.ts:381 | the store starts with empty tables |
| Storage.Store.FreshId | server/storage.ts:111-114 | a new id is in no table and will never be issued again |
| Storage.Store.GetUser | server/storage.ts:63-66 | the user with that id, if there is one |
| Storage.Store.GetUserByUsername | server/storage.ts:68-71 | a user with that username exactly when one exists |
| Storage.Store.CreateUser | server/storage.ts:73-76 | a taken username fails with a unique violation and changes nothing; otherwise the user is added under a fresh id |
| Storage.Store.GetApplications | server/storage.ts:79-101 | the query fails exactly when the status filter is set, is not "all" and is not a label; otherwise exactly the caller's applications that pass it and the case-insensitive search on company or title, each once, newest application date first |
| Storage.Store.GetApplication | server/storage.ts:103-109 | the application only when the caller owns it |
| Storage.Store.CreateApplication | server/storage.ts:111-114 | fails "out of range", changing nothing, exactly when a salary does not fit its 32-bit `integer` column; otherwise the new row is added under a fresh id; no other user's applications or interviews change |
| Storage.Store.UpdateApplication | server/storage.ts:116-123 | fails exactly when a value does not fit its column, or when an owned row would get `null` in a NOT NULL column; a row the caller does not own is unmatched; otherwise the row gets the update and a new `updatedAt`, and nothing else changes |
| Storage.Store.DeleteApplication | server/storage.ts:125-130 | only an owned application is removed; its interviews stay in the table but no user can reach them |
| Storage.Store.GetApplicationStats | server/storage.ts:132-144 | `total` is the number of the caller's applications; `byStatus` counts each status present, and the counts add up to `total` |
| Storage.Store.Joined | server/storage.ts:147-184 | the inner join keeps exactly the interviews whose application exists |
| Storage.Store.GetInterviews | server/storage.ts:147-184 | the query fails exactly when a status is given that is not a label, "all" included; otherwise exactly the caller's interviews, through the parent, that pass the application and status filters, joined with their application, earliest first |
| Storage.Store.SelectUpcoming | server/storage.ts:186-222 | all the caller's scheduled interviews not before now, joined, sorted by date |
| Storage.Store.GetUpcomingInterviews | server/storage.ts:186-222 | for a limit of 0 or more (5 by default), at most that many of those, earliest first; any upcoming interview left out is no earlier than every one returned, and the limit was reached; a negative limit leaves none out |
| Storage.Store.GetInterview | server/storage.ts:224-246 | the interview only when its parent application belongs to the caller |
| Storage.Store.CreateInterview | server/storage.ts:248-256 | refused with "access denied" unless the caller owns the named application, then with "out of range" when a duration or rating does not fit its 32-bit column, changing nothing; otherwise added under a fresh id and visible to the caller |
| Storage.Store.UpdateInterview | server/storage.ts:258-270 | unmatched exactly when the caller cannot reach the interview; then an empty record or one that does not decode fails; otherwise the row gets the update, a new `applicationId` included, unchecked |
| Storage.Store.UpdateInterviewChecked | server/storage.ts:258-270 | the corrected update: a newly named parent must also be the caller's, or nothing is written; no other user's interviews change |
| Storage.Store.DeleteInterview | server/storage.ts:272-280 | only a reachable interview is removed, and no other user's interviews change |
| Storage.Store.GetResources | server/storage.ts:283-297 | the query fails exactly when the category is set, is not "all" and is not a label; otherwise exactly the caller's resources in it, newest first |
| Storage.Store.GetResource | server/storage.ts:299-305 | the resource only when the caller owns it |
| Storage.Store.CreateResource | server/storage.ts:307-310 | added under a fresh id; no other user's resources change |
| Storage.Store.UpdateResource | server/storage.ts:312-319 | fails exactly for an empty record, a value that does not fit, or `null` in a NOT NULL column of an owned row; a row the caller does not own is otherwise unmatched; else the row gets the update and nothing else changes |
| Storage.Store.DeleteResource | server/storage.ts:321-326 | only an owned resource is removed |
| Storage.Store.GetQuestions | server/storage.ts:329-349 | the query fails exactly when the type is set, is not "all" and is not a label; otherwise exactly the caller's questions of that type whose text contains the search term, newest first |
| Storage.Store.GetQuestion | server/storage.ts:351-357 | the question only when the caller owns it |
| Storage.Store.CreateQuestion | server/storage.ts:359-362 | added under a fresh id; no other user's questions change |
| Storage.Store.UpdateQuestion | server/storage.ts:364-371 | fails exactly for an empty record, a value that does not fit, or `null` in a NOT NULL column of an owned row; a row the caller does not own is otherwise unmatched; else the row gets the update and nothing else changes |
| Storage.Store.DeleteQuestion | server/storage.ts:373-378 | only an owned question is removed |
| Storage.StatusCountOfRows | server/storage.ts:136-139 | counting statuses over the selected rows counts the caller's applications with that status |
| Storage.StatusTallyOfRows | server/storage.ts:136-143 | the tally has only positive counts, one per present status, summing to the number of rows |
| Storage.ReparentMovesInterviewToAnotherUser | server/storage.ts:258-270 | an update that names another user's application moves the interview out of the caller's reach and into the other user's |
| Queries.InsertSorted | server/storage.ts:98 | inserting into a sorted list keeps it sorted, keeps every row and adds exactly one |
| Queries.SelectRows | server/storage.ts:94-98 | a select returns exactly the rows passing the conditions, each once, in `orderBy` order |
| Queries.DistinctKeys | server/storage.ts:94-98 | distinct rows of a keyed table have distinct ids |
| Queries.LimitKeepsOrder | server/storage.ts:218-219 | a `LIMIT` keeps the rows distinct and in order |
| Queries.CutOffRanksLast | server/storage.ts:218-219 | a row the `LIMIT` cut off ranks no earlier than every row kept |
| Routes.AllowListsAreInsertFields | server/routes.ts:66-69 | each PATCH allow-list is its insert shape's field list (11, 12, 6 and 5 names), with no id, owner or timestamp |
| Routes.PickFields | server/routes.ts:70-75 | the loop builds the allow-listed part of the body |
| Routes.PickedKeepsAllowed | server/routes.ts:70-75 | a field is kept exactly when it is in the body and allowed, with its value unchanged; picking is idempotent and keeps a body that has only allowed fields |
| Routes.ReviveValue | client/src/components/application-details-modal.tsx:91 | the corrected server step for one value: a string that parses as an ISO date becomes that `Date`, any other value is kept, and a value that changes was the ISO string of the `Date` it becomes |
| Routes.ReviveDates | client/src/components/application-details-modal.tsx:91 | the corrected server step: a date field holding an ISO string becomes that `Date`; every other field keeps its value, and no field is added or dropped |
| Routes.ReviveSentDate | client/src/components/edit-interview-modal.tsx:100 | the string the client sends for a `Date` is read back as that `Date` |
| Routes.ListApplicationsRoute | server/routes.ts:13-25 | 500 "Failed to fetch applications" exactly when the status filter is not a label (and not "all" or empty); else 200 with exactly the caller's matching applications, each once |
| Routes.ApplicationStatsRoute | server/routes.ts:27-35 | 200 with the caller's total and a positive count for each status present |
| Routes.GetApplicationRoute | server/routes.ts:37-48 | 404 "Application not found" unless the caller owns it, else 200 with the row |
| Routes.PostApplicationRoute | server/routes.ts:50-62 | invalid data gives 400 "Invalid application data"; valid data with a salary outside 32 bits gives 500 "Failed to create application"; both store nothing; otherwise 201 with the new row |
| Routes.PatchApplicationRoute | server/routes.ts:64-85 | 500 exactly when an allowed value does not fit its column, or an owned row's NOT NULL column is set to `null`; 404 when the values fit but the row is not the caller's; else 200 with the patched row stored |
| Routes.PatchApplicationRouteWithDates | server/routes.ts:64-85 | the same, over the record with its date read back from the ISO string |
| Routes.DeleteApplicationRoute | server/routes.ts:87-98 | 204 exactly when the caller owned the row, which is then gone; else 404 |
| Routes.ListInterviewsRoute | server/routes.ts:101-113 | 500 "Failed to fetch interviews" exactly when a status is given that is not a label, "all" included; else 200 with exactly the caller's matching interviews, joined |
| Routes.UpcomingInterviewsRoute | server/routes.ts:115-124 | always 200 with the caller's upcoming interviews, joined, each once, earliest first; for a limit of 0 or more (5 by default) at most that many, and one is left out only when the limit is reached and it is no earlier than every one returned; a negative limit lists them all |
| Routes.GetInterviewRoute | server/routes.ts:126-137 | 404 "Interview not found" unless reachable, else 200 with the row |
| Routes.PostInterviewRoute | server/routes.ts:139-151 | 400 for invalid data; 500 when the caller does not own the named application or a duration or rating does not fit 32 bits; else 201 with the new row |
| Routes.PatchInterviewRoute | server/routes.ts:153-175 | 404 exactly when the caller cannot reach the interview; then 500 exactly for a record that is empty or does not decode; else 200 with the patched row stored, a new parent unchecked |
| Routes.PatchInterviewRouteCorrected | server/routes.ts:153-175 | with the date read back and the parent checked: 404 also when the record moves the interview under an application the caller does not own; no other user's interviews change |
| Routes.DeleteInterviewRoute | server/routes.ts:177-188 | 204 exactly when reachable, and then removed; else 404 |
| Routes.ListResourcesRoute | server/routes.ts:191-202 | 500 exactly when the category is not a label (and not "all" or empty); else 200 with exactly the caller's resources in it |
| Routes.GetResourceRoute | server/routes.ts:204-215 | 404 "Resource not found" unless owned, else 200 |
| Routes.PostResourceRoute | server/routes.ts:217-229 | 400 for invalid data, else 201 with the new row |
| Routes.PatchResourceRoute | server/routes.ts:231-251 | 500 exactly for a body with no allowed field, a value that does not fit, or `null` in a NOT NULL column of an owned row; 404 when otherwise not owned; else 200 with the patched row stored |
| Routes.DeleteResourceRoute | server/routes.ts:253-264 | 204 exactly when owned, else 404 |
| Routes.ListQuestionsRoute | server/routes.ts:267-279 | 500 exactly when the type is not a label (and not "all" or empty); else 200 with exactly the caller's matching questions |
| Routes.GetQuestionRoute | server/routes.ts:281-292 | 404 "Question not found" unless owned, else 200 |
| Routes.PostQuestionRoute | server/routes.ts:294-306 | 400 for invalid data, else 201 with the new row |
| Routes.PatchQuestionRoute | server/routes.ts:308-328 | 500 exactly for a body with no allowed field, a value that does not fit, or `null` in a NOT NULL column of an owned row; 404 when otherwise not owned; else 200 with the patched row stored |
| Routes.DeleteQuestionRoute | server/routes.ts:330-341 | 204 exactly when owned, else 404 |
| Stats.ApplicationsSince | client/src/pages/stats.tsx:49-51 | the applications dated at or after the cutoff, in their order |
| Stats.InterviewsSince | client/src/pages/stats.tsx:53-55 | the interviews dated at or after the cutoff, in their order |
| Stats.LaterCutoffKeepsLess | client/src/pages/stats.tsx:31-51 | a shorter time range never shows more applications |
| Stats.StatusBreakdown | client/src/pages/stats.tsx:61-65 | one entry per status present, each counting its applications, summing to the number of applications |
| Stats.InterviewTypeBreakdown | client/src/pages/stats.tsx:127-131 | one entry per interview type present, each counting its interviews, summing to the total |
| Stats.OutcomePartition | client/src/pages/stats.tsx:140-145 | offers, rejections, withdrawals and in-progress applications add up to the total |
| Stats.InterviewCountsPartition | client/src/pages/stats.tsx:149-151 | completed and upcoming (plus cancelled) interviews add up to the total |
| Stats.Earliest | client/src/pages/stats.tsx:158-160 | the first element after sorting by date: a member with no earlier date |
| Stats.ResponseDaysOfFirstInterview | client/src/pages/stats.tsx:156-163 | an application has a response time exactly when it has an interview, and it is the whole days from application to its first interview |
| Stats.SampleOfApplication | client/src/pages/stats.tsx:156-166 | an application contributes one sample, its response days, only when it has an interview not before it |
| Stats.SamplesAreResponseTimes | client/src/pages/stats.tsx:154-168 | at most one sample per application, each non-negative and the response time of one |
| Stats.ResponseTimes | client/src/pages/stats.tsx:154-168 | the loop collects exactly those samples |
| Stats.AverageResponseTime | client/src/pages/stats.tsx:169-171 | 0 without samples; otherwise `Math.round` of the mean: the nearest integer, halves rounded up |
| Stats.AverageWithinBounds | client/src/pages/stats.tsx:169-171 | the rounded mean lies between the smallest and largest bound of the samples |
| Stats.EarliestApplicationDate | client/src/pages/stats.tsx:89-90 | the smallest application date |
| Stats.CeilDiv | client/src/pages/stats.tsx:94 | `Math.ceil(a / b)` for a positive divisor |
| Stats.TimelineLength | client/src/pages/stats.tsx:75-110 | no bars without applications; exactly 1, 7, 30 or 90 for the fixed ranges; for "all", zero exactly when every application lies a day or more in the future, and otherwise `ceil((now - first) / day) + 1` days, the fewest that reach back to the first application |
| ApplicationsPage.FilteredApplications | client/src/pages/applications.tsx:93-98 | exactly the applications matching the search on company or title and the status filter, in order |
| ApplicationsPage.NoFilterShowsAll | client/src/pages/applications.tsx:93-98 | no search and "all" show every application |
| ApplicationsPage.EmptyStateMessage | client/src/pages/applications.tsx:154-156 | one of the two empty-state messages |
| ApplicationsPage.EmptyStateIsAccurate | client/src/pages/applications.tsx:154-156 | "adjust your filters" exactly when a filter is set; "add your first" on an empty result only when there are no applications |
| QuestionsPage.FilteredQuestions | client/src/pages/questions.tsx:54-58 | exactly the questions whose text matches the search and whose type passes the filter, in order |
| QuestionsPage.NoFilterShowsAll | client/src/pages/questions.tsx:54-58 | no search and "all" show every question |
| QuestionsPage.AnswerAndTagsAreNotSearched | client/src/pages/questions.tsx:55 | the answer and the tags never affect whether a question is shown |
| ResourcesPage.FilteredResources | client/src/pages/resources.tsx:59-61 | the "all" tab shows everything; another tab shows exactly its category, in order |
| ResourcesPage.ReviewAndLinkDoNotMatter | client/src/pages/resources.tsx:61 | review state and linked application never affect the tab |
| InterviewsPage.UpcomingTab | client/src/pages/interviews.tsx:66-68 | exactly the scheduled interviews strictly after now |
| InterviewsPage.CompletedTab | client/src/pages/interviews.tsx:70 | exactly the completed interviews |
| InterviewsPage.TabsAreDisjoint | client/src/pages/interviews.tsx:66-70 | no interview is on both tabs, cancelled ones are on neither, and the tabs together hold at most all interviews |
| InterviewsPage.DisjointFiltersFit | client/src/pages/interviews.tsx:66-70 | two filters that never both hold select at most the whole list between them |
| InterviewsPage.StricterThanTheStore | client/src/pages/interviews.tsx:67 | the page's "upcoming" implies the store's, but not conversely: an interview exactly at now is upcoming only for the store |
| Logo.CompanyNameToDomain | client/src/lib/logo.ts:20-27 | a guessed domain is lower-case letters, digits and nothing else, followed by ".com" |
| Logo.DomainKeepsLettersAndDigits | client/src/lib/logo.ts:20-27 | the guess is the lower-cased name with everything but letters and digits removed, plus ".com" |
| Logo.StemNameIsKept | client/src/lib/logo.ts:20-27 | a name of lower-case letters and digits becomes itself plus ".com" |
| Logo.StripWwwOnce | client/src/lib/logo.ts:9 | one leading "www." is removed, and only one |
| Logo.ExtractDomainFromUrl | client/src/lib/logo.ts:6-13 | none exactly when the URL does not parse; otherwise the host name with at most a leading "www." removed |
| Logo.GetCompanyLogoUrl | client/src/lib/logo.ts:35-50 | the Clearbit URL for the job URL's domain when there is a usable one, else for the name's guess |
| Logo.LogoUrlShape | client/src/lib/logo.ts:49 | every result starts with the Clearbit prefix and ends with "?size=128"; without a usable job URL the domain is the name's guess |
| Text.LowerChar | client/src/pages/applications.tsx:94 | a capital becomes the small letter 32 code points above it; any other character is kept; the result is never a capital |
| Text.Lower | client/src/pages/applications.tsx:94 | `toLowerCase`: same length, each character lowered on its own, no capital left |
| Text.LowerIsIdempotent | client/src/pages/applications.tsx:94-95 | lowering twice is lowering once |
| Text.ContainsIgnoreCaseOfLower | server/storage.ts:90 | case-insensitive matching gives the same answer when either side is lowered first, so `ILIKE` and the client's `toLowerCase().includes` agree |
| Text.ContainsIgnoreCaseAt | server/storage.ts:90 | a case-insensitive match holds exactly when the needle matches, letter by letter ignoring case, at some position of the text |
| Text.Trim | client/src/components/add-question-modal.tsx:59 | `trim`: the input with a run of whitespace cut from each end, leaving no whitespace at either end; a trimmed string is left alone |
| Text.TrimDropsLeadingWhitespace | client/src/components/add-question-modal.tsx:59 | leading whitespace does not change the trimmed result |
| Text.Split | client/src/components/add-question-modal.tsx:58 | `split(",")`: at least one part, none holding the separator |
| Text.SplitWithoutSeparator | client/src/components/add-question-modal.tsx:58 | a string without the separator splits into itself |
| Text.SplitAtSeparator | client/src/components/add-question-modal.tsx:58 | splitting at the first separator gives its prefix, then the rest split |
| QuestionForms.ParseTags | client/src/components/add-question-modal.tsx:57-60 | every parsed tag is non-empty, trimmed and free of commas |
| QuestionForms.JoinThenParse | client/src/components/edit-question-modal.tsx:63 | for tags as the dialogs produce them (non-empty, trimmed, without commas), parsing the ", "-joined tags gives the same tags back |
| QuestionForms.EmptyInputHasNoTags | client/src/components/add-question-modal.tsx:57-63 | an empty tag field gives no tags |
| QuestionForms.SplitJoined | client/src/components/edit-question-modal.tsx:63 | splitting a ", "-joined list gives the tags, all but the first with a leading space |
| QuestionForms.PartsOfJoin | client/src/components/edit-question-modal.tsx:70-71 | splitting joined tags at commas gives one part per tag: the first as is, each later one behind a space |
| QuestionForms.TrimmedJoin | client/src/components/edit-question-modal.tsx:70-72 | trimming those parts gives the tags back |
| QuestionForms.AddQuestionSubmission | client/src/components/add-question-modal.tsx:55-64 | submitted only for a type the schema accepts, with the text, answer and favourite as given and the tags parsed, omitted when there are none |
| QuestionForms.EditQuestionBody | client/src/components/edit-question-modal.tsx:74-80 | text, type and favourite always; the answer exactly when non-empty; the tags exactly when there are some |
| QuestionForms.EditQuestionUpdate | client/src/components/edit-question-modal.tsx:67-81 | an update is sent only for an open question and a type the schema accepts |
| QuestionForms.ExperienceOptionIsRejected | client/src/components/add-question-modal.tsx:109 | "experience" is offered, and a form with it is never submitted |
| QuestionForms.EveryOfferedTypeIsAccepted | shared/schema.ts:47-52 | with the corrected options, every offered type is accepted and every schema type is offered |
| ApplicationForms.AddApplicationDefaults | client/src/components/add-application-modal.tsx:59-63 | the dialog opens on "applied", not remote, today |
| ApplicationForms.AddApplicationSubmission | client/src/components/add-application-modal.tsx:66-79 | names, status and date as typed; empty strings and zero salaries left out; remote only when ticked; never a logo |
| ApplicationForms.PopulateApplicationForm | client/src/components/application-details-modal.tsx:65-77 | the stored row's values, with missing strings and zero or missing salaries shown empty and the date cut to its day |
| ApplicationForms.AddThenPopulate | client/src/components/application-details-modal.tsx:65-77 | adding an application and opening it shows the form as filled in, normalised, with no logo |
| ApplicationForms.NormalisedIsIdempotent | client/src/components/application-details-modal.tsx:65-77 | normalising a form twice is normalising it once |
| ApplicationForms.ApplicationUpdateBody | client/src/components/application-details-modal.tsx:87-99 | the body names only application fields; its date is the ISO string of the form's day |
| ApplicationForms.UpdateBodyCarriesFixedFields | client/src/components/application-details-modal.tsx:88-95 | names, status, the date as its ISO string and the remote flag are always sent |
| ApplicationForms.UpdateBodyCarriesTexts | client/src/components/application-details-modal.tsx:92-96 | each optional string is sent exactly when non-empty |
| ApplicationForms.UpdateBodyCarriesSalaries | client/src/components/application-details-modal.tsx:97-98 | each salary is sent exactly when non-zero |
| ApplicationForms.ApplicationUpdate | client/src/components/application-details-modal.tsx:83-84 | nothing is sent without an open application; otherwise the body above |
| InterviewForms.PopulateInterviewForm | client/src/components/edit-interview-modal.tsx:75-87 | the stored row's values; missing strings, zero durations and zero ratings shown empty; the date cut to its UTC day |
| InterviewForms.PopulatedFormValid | client/src/components/edit-interview-modal.tsx:26-36 | an opened form passes the dialog's schema exactly when the row has a duration, a platform and a rating of 1 to 5 or none |
| InterviewForms.LocalNoon | client/src/components/edit-interview-modal.tsx:100 | `new Date("YYYY-MM-DDT12:00:00")`: noon of that day in the browser's zone |
| InterviewForms.InterviewUpdateBody | client/src/components/edit-interview-modal.tsx:98-103 | the body names only interview fields; its date is the ISO string of local noon |
| InterviewForms.UpdateBodyCarriesFormFields | client/src/components/edit-interview-modal.tsx:98-100 | application, type, status, the ISO string of local noon, platform, names and notes are always sent |
| InterviewForms.UpdateBodyCarriesNumbers | client/src/components/edit-interview-modal.tsx:101-102 | duration and rating are sent exactly when non-zero |
| InterviewForms.InterviewUpdate | client/src/components/edit-interview-modal.tsx:95-103 | an update is sent exactly for an open interview and a form that passes the schema |
| InterviewForms.LocalDay | client/src/components/edit-interview-modal.tsx:100 | the browser-zone day an instant falls on |
| InterviewForms.LocalNoonIsOnItsDay | client/src/components/edit-interview-modal.tsx:100 | local noon of a day falls on that local day |
| InterviewForms.PopulateInterviewFormLocal | client/src/components/edit-interview-modal.tsx:80 | the corrected form shows the local day, differs from the original only there, and saving it lands on the same local day |
| Signup.Utf16Length | client/src/pages/signup.tsx:32 | `password.length`: one unit per character, two for a character outside the Basic Multilingual Plane |
| Signup.BmpLength | client/src/pages/signup.tsx:32 | for a string of BMP characters, `length` is the number of characters |
| Signup.PasswordFaultOf | client/src/pages/signup.tsx:23-39 | a mismatch exactly when the passwords differ; too short exactly when they match and are under 6 UTF-16 units |
| Signup.PasswordProblem | client/src/pages/signup.tsx:23-39 | no problem exactly when the passwords match and are at least 6 UTF-16 units long; a problem is a destructive toast |
| Signup.MismatchTakesPrecedence | client/src/pages/signup.tsx:23-30 | a mismatch is reported as a mismatch, whatever the length |
| Signup.LengthBoundary | client/src/pages/signup.tsx:32-39 | matching passwords are too short exactly when shorter than 6 UTF-16 units: 6 characters are always enough, fewer than 3 never, and for BMP text the bound is 6 characters |
| Signup.ThreeEmojiAreEnough | client/src/pages/signup.tsx:32-39 | three emoji make a long enough password |
| Signup.SignupPage.constructor | client/src/pages/signup.tsx:15-18 | empty fields, not loading, no toasts, no redirect |
| Signup.SignupPage.SetEmail | client/src/pages/signup.tsx:15 | changes the email only |
| Signup.SignupPage.SetPassword | client/src/pages/signup.tsx:16 | changes the password only |
| Signup.SignupPage.SetConfirmPassword | client/src/pages/signup.tsx:17 | changes the confirmation only |
| Signup.SignupPage.HandleSubmit | client/src/pages/signup.tsx:20-43 | the request is sent exactly when the guard passes, and then `loading` is set; otherwise the guard's toast is shown and nothing else changes |
| Signup.SignupPage.FinishSignUp | client/src/pages/signup.tsx:43-58 | an error shows "Signup failed" with its message and clears `loading`; success shows "Account created!" and schedules the move to /login |
| EndToEnd.ApplicationUpdatePassesAllowList | server/routes.ts:66-75 | the details dialog's body survives the allow-list whole |
| EndToEnd.DetailsDialogDateDoesNotFit | server/routes.ts:76 | as written, the dialog's record never fits the columns: its date is a string, and a timestamp column takes only a `Date` |
| EndToEnd.SaveDetailsDialog | client/src/components/application-details-modal.tsx:83-100 | as written, saving the details dialog always gets 500 "Failed to update application" and changes no application |
| EndToEnd.ApplicationUpdateDecodes | server/routes.ts:76 | with salaries within 32 bits, the record with its date read back decodes to the update the form means |
| EndToEnd.SaveDetailsDialogWithDates | client/src/components/application-details-modal.tsx:83-100 | with the date step, saving gets 404 exactly when the caller has no such application, and otherwise 200 with the form's update applied and stored |
| EndToEnd.ApplicationEditRoundTrip | client/src/components/application-details-modal.tsx:65-99 | with the date step, opening an application and saving it unchanged keeps the row, except the date cut to its UTC day, remote made explicit and `updatedAt` stamped |
| EndToEnd.ShownTextIsKept | client/src/components/application-details-modal.tsx:71-96 | an optional string shown and sent back unchanged keeps its stored value |
| EndToEnd.ShownNumberIsKept | client/src/components/application-details-modal.tsx:76-98 | a salary shown and sent back unchanged keeps its stored value |
| EndToEnd.ApplyFullApplicationPatch | server/storage.ts:116-123 | an update sets exactly the fields it names, and `updatedAt` |
| EndToEnd.EditCannotClearJobUrl | client/src/components/application-details-modal.tsx:92 | even with the date step, emptying the job URL in the dialog and saving keeps the old URL |
| EndToEnd.ClearableText | client/src/components/application-details-modal.tsx:92-96 | the corrected encoding sends `null` exactly for an emptied string |
| EndToEnd.ClearableNumber | client/src/components/application-details-modal.tsx:97-98 | the corrected encoding sends `null` exactly for an emptied or zero salary |
| EndToEnd.ClearingUpdateBody | client/src/components/application-details-modal.tsx:87-99 | the corrected body names all eleven application fields |
| EndToEnd.ApplicationUpdateClearing | client/src/components/application-details-modal.tsx:83-100 | the corrected submission is sent exactly for an open application |
| EndToEnd.ClearingUpdatePassesAllowList | server/routes.ts:66-75 | the corrected body survives the allow-list whole |
| EndToEnd.ClearingUpdateDecodes | server/routes.ts:76 | the corrected body, with its date read back, decodes to the corrected update |
| EndToEnd.EditStoresWhatTheFormShows | client/src/components/application-details-modal.tsx:83-100 | with the corrected body and the date step, every field of the row becomes what the form shows, emptied fields cleared |
| EndToEnd.InterviewUpdatePassesAllowList | server/routes.ts:155-165 | the edit-interview body survives the allow-list whole |
| EndToEnd.EditInterviewDateDoesNotFit | server/routes.ts:166 | as written, the dialog's record is non-empty and never fits the columns, because its date is a string |
| EndToEnd.SaveInterviewDialog | client/src/components/edit-interview-modal.tsx:95-104 | as written, saving the edit-interview dialog gets 500 for a reachable interview and 404 otherwise, and changes no interview |
| EndToEnd.InterviewUpdateDecodes | server/routes.ts:166 | with numbers within 32 bits, the record with its date read back decodes to the update the form means |
| EndToEnd.InterviewFormSaves | client/src/components/edit-interview-modal.tsx:95-104 | with the date step, saving a valid form sets every field the form shows, the date to local noon of its day, and keeps the rating when it is empty |
| EndToEnd.InterviewEditRoundTrip | client/src/components/edit-interview-modal.tsx:75-104 | with the date step, opening an interview and saving it unchanged keeps the row, except the date moved to local noon of its UTC day and missing names and notes stored as empty strings |
| EndToEnd.EditCanMoveInterviewToAnotherDay | client/src/components/edit-interview-modal.tsx:80 | even with the date step, an interview on one local day, opened and saved unchanged in a zone west of UTC, lands on the next local day |
| EndToEnd.InterviewEditKeepsLocalDay | client/src/components/edit-interview-modal.tsx:80 | with the corrected form and the date step, opening and saving keeps the interview on its local day |
| EndToEnd.ShownTagsParse | client/src/components/edit-question-modal.tsx:63 | for stored tags as the dialogs produce them (non-empty, trimmed, without commas), the tags shown in the field parse back to those tags |
| EndToEnd.QuestionUpdateDecodes | server/routes.ts:319 | the edit-question body fits the columns and decodes to the update the form means |
| EndToEnd.QuestionUpdatePassesAllowList | server/routes.ts:310-318 | the edit-question body survives the allow-list whole |
| EndToEnd.EditQuestionSaves | client/src/components/edit-question-modal.tsx:67-81 | saving sends a non-empty record that sets text, type and favourite, and the answer and tags only when non-empty |
| EndToEnd.EditQuestionRoundTrip | client/src/components/edit-question-modal.tsx:57-80 | for stored tags as the dialogs produce them (non-empty, trimmed, without commas), opening a question and saving it unchanged keeps the row, with the favourite flag made explicit |

## Left out

- Real time and clocks. `now` is a parameter of every operation that reads the clock, and the browser's time-zone offset is a parameter of the interview dialog.
- Calendar arithmetic in the browser's zone. The statistics page's cutoff date (`setDate`, `setMonth` and `setFullYear` on a `Date`) is a parameter of `ApplicationsSince` and `InterviewsSince`, and the `M/D` labels of the timeline are not modelled. `TimelineLength` counts days of 86 400 000 ms.
- Form validation. The zod schemas of the POST routes and of the dialogs appear as their outcome: an `Option` of the validated insert, or the `FormValid` predicate.
- Authentication. Every handler acts for `MockUserId` ("mock-user-123", server/routes.ts:8), as the source does. The store's methods still take the user as a parameter, and no authentication middleware is part of this model.
- client/src/lib/queryClient.ts is not part of this model. The dialogs' bodies are taken to go out through `JSON.stringify` as PATCH bodies, unchanged.
- Database failures other than these are not modelled: a value that does not fit its column, `null` in a NOT NULL column, an update with nothing to set, and a filter that is not an enum label. Concurrency is not modelled either, and every store call is atomic.
- The order of rows whose sort key is equal. It is unspecified in the database, and the model promises only the order of the key.
- Text matching. Case-insensitive search folds ASCII letters only. The `%` and `_` wildcards a search term may contain in `ILIKE` are treated as plain characters.
- Numbers are integers. Non-integer salaries, durations and ratings are not modelled.
- Lower: folds ASCII letters only; JavaScript's `toLowerCase` also folds other letters (such as "É" to "é").
- CompanyNameToDomain: because lowering is ASCII-only, a non-ASCII capital that `toLowerCase` turns into an ASCII letter is dropped instead of kept ("İBM" gives "bm.com" here and "ibm.com" in the browser).
- AsString: node-postgres sends every parameter as text and Postgres parses it by the column's type, so a number, a boolean or an array is also accepted by a `text` column; the model refuses them.
- AsNullableString: as for `AsString`, a number or a boolean is refused here and accepted by the database.
- AsNullableInt32: a numeric string such as "50000" is accepted by an `integer` column; the model refuses it.
- AsNullableBool: the strings Postgres reads as booleans ("yes", "t", "1" and the like) are refused here.
- AsStrings: an array of numbers or booleans is accepted by a `text[]` column; the model refuses it.
- AsNullableStringArray: as for `AsStrings`.
- AsTimestamp: Postgres's `timestamp` range (from 4713 BC) is narrower than a `Date`'s; a `Date` before it is accepted here.
- DecodeApplicationPatch, DecodeInterviewPatch, DecodeResourcePatch and DecodeQuestionPatch rest on the readers above, and so refuse the text-coerced values the database accepts.
- PatchApplicationRoute, PatchInterviewRoute, PatchResourceRoute and PatchQuestionRoute answer 500 for those text-coerced values, where the source answers 200.
- UpcomingInterviewsRoute: the outcomes for 0 and for a negative limit follow the query builder's `.limit`, which is not part of this model. It is taken to add `LIMIT n` only for n of 0 or more, so 0 lists none and a negative limit lists them all; that library behaviour is assumed, not confirmed. A `limit` that `parseInt` turns into `NaN` is not modelled; under the same rule it too would list them all.
- PostApplicationRoute and PostInterviewRoute: whether the insert schema already bounds the integers to 32 bits is not modelled. If it does, an out-of-range number is a 400 from `validated` being `None`, and the 500 branch for it cannot happen.
- LocalNoon, LocalDay, LocalNoonIsOnItsDay and InterviewEditKeepsLocalDay take one fixed time-zone offset for every instant. A daylight-saving change between the stored date and the edited one is not modelled.
- ApplicationUpdateDecodes, SaveDetailsDialogWithDates, ApplicationEditRoundTrip, EditCannotClearJobUrl, ClearingUpdateDecodes and EditStoresWhatTheFormShows require the form's date to lie within a `Date`'s range. An invalid `Date` is sent as `null`, which the NOT NULL date column refuses.
- DetailsDialogDateDoesNotFit and SaveDetailsDialog require the same. For an invalid date the save still fails on an owned row, but answers 404 on another, so the 500-for-every-row claim needs it.
- InterviewUpdateDecodes, InterviewFormSaves, InterviewEditRoundTrip, InterviewEditKeepsLocalDay, EditInterviewDateDoesNotFit and SaveInterviewDialog require local noon of the form's day to lie within a `Date`'s range, for the same reason.
- QuestionForms.JoinThenParse: only for well-formed tags. A tag that holds a comma or surrounding whitespace, which POST /api/questions accepts, does not come back: `["a,b"]` parses as `["a", "b"]` and `[" x"]` as `["x"]`.
- EndToEnd.ShownTagsParse: requires well-formed stored tags, for the same reason.
- EndToEnd.EditQuestionRoundTrip: requires well-formed stored tags. For a question created through the API with another tag, an unchanged save rewrites the tags, split at commas and trimmed.
- Logo.ExtractDomainFromUrl: URL parsing is a parameter (`hostnameOf`), since the WHATWG URL parser is outside this model.
- Signup.SignupPage.HandleSubmit: the call to the authentication provider is split into `HandleSubmit` and `FinishSignUp`, and the two-second timer is modelled as the scheduled redirect.
- React rendering, toasts' display, query caching and the UI components are not part of this model.
- The add-interview, add-resource and edit-resource dialogs, the dashboard and the timezone helpers are not part of this model.
- Passwords are stored as given, and no hashing is modelled.
- The rating, the answer and the tags cannot be cleared, as in the job-URL finding: an emptied field is not sent, so the old value stays. `InterviewFormSaves` and `EditQuestionSaves` state this, and only the application dialog's correction is modelled.

## Findings

| source | as written | input that shows it | evidently intended | confidence | as-written member | corrected member |
|---|---|---|---|---|---|---|
| client/src/components/application-details-modal.tsx:91 | the dialog puts a `Date` in the body, which `JSON.stringify` sends as its ISO string; the PATCH handler passes the string on, and the timestamp column takes only a `Date` | any application, opened in the details dialog and saved | the server reads the string back as a `Date` before the update | medium; not executed | EndToEnd.SaveDetailsDialog | EndToEnd.SaveDetailsDialogWithDates |
| client/src/components/edit-interview-modal.tsx:100 | the same for the interview date: the ISO string of local noon reaches the timestamp column as a string | any reachable interview, edited and saved | the server reads the string back as a `Date` | medium; not executed | EndToEnd.SaveInterviewDialog | Routes.PatchInterviewRouteCorrected |
| server/storage.ts:258-270 | `updateInterview` checks that the caller can reach the interview, then writes any `applicationId` the body names | alice updates her interview with `applicationId` set to bob's application | a new parent must also belong to the caller, as `createInterview` demands | high; not executed | Storage.ReparentMovesInterviewToAnotherUser | Storage.Store.UpdateInterviewChecked |
| client/src/components/application-details-modal.tsx:92-98 | an emptied optional field is sent as `undefined`, which the PATCH loop skips | a stored job URL, emptied in the dialog and saved | an emptied field is cleared (`null`) | high; not executed | EndToEnd.EditCannotClearJobUrl | EndToEnd.EditStoresWhatTheFormShows |
| client/src/components/add-question-modal.tsx:109 | the type menu offers "experience", which `question_type` does not have (the edit dialog too, line 125) | a new question with type "experience" | offer only the four schema types | high; not executed | QuestionForms.ExperienceOptionIsRejected | QuestionForms.EveryOfferedTypeIsAccepted |
| client/src/components/edit-interview-modal.tsx:80 | the form shows the interview's UTC day, and saving stores noon of that day in the browser's zone | an interview at 1970-01-02T04:00Z, opened and saved unchanged at UTC-8 | opening and saving keeps the interview on its local day | medium; not executed | EndToEnd.EditCanMoveInterviewToAnotherDay | EndToEnd.InterviewEditKeepsLocalDay |
