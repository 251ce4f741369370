# Doctor appointment system — a verified model of its request handlers

The application is an Express web server over three SQLite tables (`users`,
`patients`, `appointments`) that lets a signed-in doctor keep patients and
appointments, and shows a dashboard and a reports page. This project models
what its handlers decide and what their SQL statements select or change, and
proves properties of that model in Dafny.

- **Tables and session** (`Store`): the three tables are sequences of rows in
  a `Database` object. Each table has an AUTOINCREMENT counter. `Valid()` says
  primary keys are distinct and below the counters, and usernames and emails
  are unique. The session is a `Session` object holding `userId` and
  `username`.
- **Dates**: an appointment date and a `created_at` are `DateTime(day,
  minute)` with an abstract day number (`date(x)` is `.day`). A date of birth is
  a `CivilDate(year, month, day)`, because the age formulas read its year and
  `MM-DD`. The clock is a parameter: `today` is a day number; the reports
  page also gets the same day as a calendar date.
- **Statements**: a WHERE clause is a predicate on rows (`Query.Filter`,
  `Query.CountWhere`). `UPDATE … WHERE` is `Query.UpdateWhere` and `DELETE …
  WHERE` is `Query.DeleteWhere`. JOINs are `Query.InnerJoin` and
  `Query.LeftJoin`, and ORDER BY is `Query.SortBy` with a total preorder.
  `GROUP BY … COUNT(*)` is `Grouping.GroupBy`. A failing statement is a boolean
  parameter of the handler, and each error branch of the source is modelled.
- **Handlers**: each route is a method that changes the `Database` or
  `Session` it is given and returns a `Response`: a redirect with its flash
  message, or a rendered view with its error text. Views with data (the lists,
  the dashboard, the reports) are datatypes holding what the view is given.
- **bcrypt** is replaced by a stand-in `Hash`/`Matches` (module `Bcrypt`). Its
  digest holds the password itself, so it is injective but not one-way.

Modules: `Common`, `Http` (common.dfy); `Text` (SQLite text order, digits,
`split`, occurrence counts); `Query` (tables as sequences); `Grouping`
(GROUP BY and objects built by `reduce`); `Paging`; `Sql` (the WHERE clauses the
list handlers build); `Bcrypt`, `Store` (store.dfy); `Ordering`;
`AuthMiddleware` (middleware.dfy); `Auth`; `Settings`; `Patients`;
`Appointments`; `App` (app.js); `Reports`.

## Model

| member | source | states |
|---|---|---|
| AuthMiddleware.EnsureAuthenticated | middleware/authMiddleware.js:2-9 | `next()` is called exactly when a session with a truthy `userId` exists; otherwise the only step is a redirect to `/auth/login`; never both, and the session is only read |
| App.RootAgreesWithGate | app.js:69-75 | GET / redirects to `/dashboard` exactly when the middleware would let the session through, otherwise to `/auth/login` |
| Bcrypt.Hash | routes/auth.js:34 | the stored digest accepts the password it was made from |
| Bcrypt.MatchesOnlyOriginal | routes/auth.js:75 | a digest accepts its own password and no other |
| Store.Database.constructor | database/db.js:21-73 | empty tables satisfy the key and uniqueness invariant |
| Store.Session.constructor | app.js:26-36 | a fresh session carries no user |
| Common.NullIfEmpty | routes/patients.js:115 | `x \|\| null`: an empty form field is stored as NULL and any other text as itself |
| Auth.RegisterKeepsAccountsUnique | routes/auth.js:23-31 | adding an account that the username-or-email lookup did not find keeps usernames and emails unique |
| Auth.Register | routes/auth.js:14-52 | a password mismatch is refused before any lookup; an existing username or email, a lookup failure and an insert failure each give their own message with no insert; otherwise exactly one user, holding `Hash(password)`, is appended with the next AUTOINCREMENT id, the users counter advances by the rows added and the other counters stay, and the invariant holds |
| Auth.Authenticate | routes/auth.js:63-77 | a login account is a stored user with that username whose digest matches the password |
| Auth.AuthenticateIffCredentials | routes/auth.js:63-77 | with unique usernames, login succeeds exactly when some user has that name and a matching digest |
| Auth.Login | routes/auth.js:60-89 | an unknown user and a wrong password both give 'Invalid username or password.' and leave the session unchanged; success stores the user's id and username in the session and redirects to `/dashboard` |
| Auth.Logout | routes/auth.js:92-103 | a destroyed session has no user and the browser goes to `/auth/login`; if destroying fails the session is unchanged and the target is `/` |
| Settings.SetPasswordKeepsValid | routes/settings.js:79-80 | rewriting one user's password keeps ids, counters and unique names and emails |
| Settings.SetPasswordOnlyTouchesPassword | routes/settings.js:79-80 | the update writes the new digest into the password of the row with that id only; ids, usernames and emails are unchanged |
| Settings.ChangePassword | routes/settings.js:35-98 | the checks run in the source's order (all fields given, new equals confirmation, the user is found, the current password matches, `newPassword.length` in UTF-16 code units at least 8), each with its message and no update; success writes only `Hash(newPassword)` into that user's row; no AUTOINCREMENT counter moves; every outcome redirects to `/settings` |
| Paging.TrimStart | routes/patients.js:14 | the white space `parseInt` skips is a prefix, and what is left starts with no white space |
| Paging.PageNumber | routes/patients.js:14 | `parseInt(page) \|\| 1` is never 0, and a missing page gives 1 |
| Paging.PageNumberOfDecimal | routes/patients.js:14 | a page written in decimal is read back as itself, and 0 becomes 1 |
| Paging.PageNumberOfNonNumeric | routes/patients.js:14 | a page text with no leading number gives 1 |
| Paging.NegativePage | routes/appointments.js:15-17 | a negative page passes `\|\| 1` and yields a negative offset |
| Paging.Offset | routes/patients.js:16 | from page 1 on, the offset is a non-negative multiple of 15 |
| Paging.TotalPages | routes/patients.js:58 | `Math.ceil(total / 15)`: the fewest pages of 15 that hold every item, 0 exactly when there are none |
| Text.LexLessIsNotLe | routes/patients.js:36 | strict text order is the negation of the reversed non-strict order |
| Text.LexLeTotal | routes/patients.js:36 | any two texts are ordered one way or the other |
| Text.LexLeTransitive | routes/patients.js:36 | text order is transitive |
| Text.LexLeAntisymmetric | routes/patients.js:36 | texts ordered both ways are equal |
| Text.LexLessConcat | routes/patients.js:33 | texts whose first parts have equal length compare by the first part, then the rest |
| Text.NatToString | routes/patients.js:230 | the decimal text of a count is non-empty and all digits |
| Text.NatToStringRoundTrip | routes/patients.js:230 | reading the digits back gives the number |
| Text.DigitPrefix | routes/patients.js:14 | the longest prefix of digits is a prefix of the text, followed by a non-digit or the end |
| Text.Pad2Order | routes/patients.js:33 | two-digit zero-padded texts compare as their numbers |
| Text.MonthDayTextOrder | routes/patients.js:33 | `strftime('%m-%d')` texts compare as (month, day) pairs |
| Text.Split | routes/appointments.js:347 | `split(c)` yields at least one piece and no piece contains `c` |
| Text.SplitJoin | routes/appointments.js:347 | joining the pieces with `c` gives the text back |
| Text.SplitFirst | routes/appointments.js:347 | the first piece is the text before the first `c` |
| Text.SplitSecond | routes/appointments.js:347 | when `c` occurs first at `i`, the second piece is the text between it and the next `c` |
| Text.SplitWithout | routes/appointments.js:347 | a text without `c` splits into itself alone |
| Text.UpToIsSlice | routes/appointments.js:347 | the text before the first `c` is the prefix up to that index |
| Text.Occurrences | app.js:53 | counts the occurrences of a character: at most the length, 0 exactly when absent |
| Text.OccurrencesAppend | routes/patients.js:23 | occurrences add up over concatenation |
| Text.Utf16Length | routes/settings.js:68 | JavaScript's `length`: between the number of characters and twice that |
| Text.Utf16LengthCountsAstral | routes/settings.js:68 | `length` is the number of characters plus the number above U+FFFF (each a surrogate pair), and equals the number of characters exactly when there are none |
| Sql.ConditionTextArity | routes/appointments.js:21-36 | each condition's text carries one `?` per value it binds |
| Sql.WhereTextPlaceholders | routes/appointments.js:21-36 | the whole WHERE text carries exactly as many `?` as its conditions bind |
| Sql.LikePatternMatches | routes/patients.js:23-24 | `x LIKE '%term%'` holds exactly when `x` is not NULL and contains `term` |
| Sql.HoldsAppend | routes/appointments.js:25-36 | conditions joined by AND, with their parameters concatenated in order, hold when both parts hold |
| Sql.HoldsIgnoresTrailing | routes/appointments.js:52 | the LIMIT and OFFSET values pushed after the WHERE parameters do not change what the clause selects |
| Sql.LimitOffsetFollowWhere | routes/patients.js:37-38 | `LIMIT ?` and `OFFSET ?` bind the two values after the WHERE parameters |
| Query.CountWhere | routes/patients.js:30 | `COUNT(*)` is at most the table size, and 0 exactly when no row matches |
| Query.CountWhereMono | app.js:86-95 | a stronger condition counts no more rows |
| Query.CountWhereDisjoint | routes/reports.js:159 | the count for a disjoint OR is the sum of the counts |
| Query.CountWhereAppend | routes/reports.js:159 | counts over two tables joined end to end add up |
| Query.Filter | routes/patients.js:30-37 | the selected rows are exactly as many as the count query counts, and each is a table row that satisfies the clause |
| Query.FilterMultiplicity | routes/patients.js:30-37 | a selected row occurs as often as in the table when it satisfies the clause, otherwise not at all |
| Query.FilterAppend | routes/patients.js:30-37 | selecting from two tables joined end to end selects from each, in table order; with the one-row case this fixes the selection as the order-keeping subsequence of matching rows |
| Query.DeleteWhere | routes/patients.js:235 | `DELETE … WHERE` removes exactly the matching rows: what is left is the non-matching rows, and the table shrinks by the count of matches |
| Query.DeleteWhereMultiplicity | routes/patients.js:235 | a row that the clause matches is gone; any other row is kept as often as the table held it |
| Query.DeleteWhereAppend | routes/patients.js:235 | deleting from two tables joined end to end deletes from each and keeps the survivors in table order |
| Query.FindFirst | routes/auth.js:23 | `db.get` finds no row exactly when no row matches; a row it finds is a matching table row |
| Query.CountFilter | routes/reports.js:52-55 | counting within selected rows is counting with both conditions |
| Query.UpdateWhereNoMatch | routes/patients.js:206-208 | an UPDATE whose WHERE matches nothing leaves the table as it was |
| Query.UpdateWhere | routes/patients.js:185 | `UPDATE … WHERE`: every matching row is rewritten, every other row is kept, and the table keeps its size and order |
| Query.UpdateKeepsMatchCount | routes/appointments.js:336-342 | an update that keeps the matched columns matches the same rows again |
| Query.AtMostOneWithKey | routes/patients.js:235 | `WHERE id = ? AND …` matches at most one row of a table with distinct ids |
| Query.AppendFreshKey | routes/patients.js:115 | an AUTOINCREMENT insert keeps ids distinct and below the counter |
| Query.FilterKeepsDistinct | routes/patients.js:235 | a DELETE keeps ids distinct |
| Query.UpdateKeepsDistinct | routes/patients.js:185 | an UPDATE that does not write the id keeps ids distinct |
| Query.SortBy | routes/patients.js:36 | ORDER BY yields a permutation of the rows, sorted by the key |
| Query.SortByMembers | routes/reports.js:132 | sorting keeps exactly the rows it was given |
| Query.Window | routes/patients.js:37 | `LIMIT ? OFFSET ?` gives at most `limit` rows, the run starting at the offset |
| Query.WindowWithin | routes/patients.js:37 | a window takes no row more often than the table holds it |
| Query.Take | app.js:157 | `LIMIT k` keeps the first rows, at most k, and exactly k when there are that many |
| Query.TakeKeepsSorted | app.js:156-157 | the first rows of a sorted list are sorted |
| Query.WindowKeepsSorted | routes/patients.js:36-37 | a window of a sorted list is sorted |
| Query.Top | app.js:156-157 | `ORDER BY … LIMIT k` keeps min(k, n) rows, a sub-multiset of the input, sorted, and no row left out comes before a row kept: the first k rows of a sorted order |
| Query.SortedPrefixRest | app.js:156-157 | the rows after a prefix of a sorted list are what the prefix leaves of the list, and none comes before a prefix row |
| Query.TakeSortedRest | app.js:156-157 | `LIMIT k` over any sorted order of the rows keeps the first k rows of that order |
| Query.SortedOrderWindow | routes/patients.js:36-37 | a window of a sorted order of the rows is as long as the plain window, takes only those rows, and is sorted |
| Query.LeftJoinIsLookup | routes/appointments.js:23 | a LEFT JOIN on the right table's primary key keeps the left rows one for one, in order, each with its match or NULL |
| Query.LeftJoinHead | routes/appointments.js:23 | with at most one match for the first left row, the LEFT JOIN starts with that row and its match or NULL, then joins the rest |
| Query.FilterPair | routes/appointments.js:48-49 | a WHERE over joined rows is a WHERE over the left rows, read through the join |
| Query.InnerJoin | app.js:194 | each JOIN row is a left row paired with a matching right row, and every matching pair of a left and a right row is a JOIN row |
| Grouping.CountOf | routes/reports.js:42 | reading a key gives 0 when it is absent, otherwise the value stored under it |
| Grouping.AddRow | routes/reports.js:31-34 | counting one more row adds one to its key's group, or adds a group of one |
| Grouping.AddRowSum | routes/reports.js:31-34 | one more row adds one to the total of the counts |
| Grouping.GroupBy | routes/reports.js:31-34 | `GROUP BY key, COUNT(*)`: one group per key that occurs, each with the number of rows with that key, and the counts add up to the number of rows |
| Grouping.Assign | routes/reports.js:59 | `acc[k] = v` for a key that becomes an own property (every day key; every text key but `__proto__`): sets that key and keeps the others; a new key is added last |
| Grouping.SetProperty | routes/reports.js:59 | `acc[k] = v` on a text key: the key `__proto__` leaves the object unchanged; any other key is set to `v` and the others keep their values |
| Grouping.ObjectOf | routes/reports.js:58-61 | the object built by `reduce` over rows whose keys are all own properties (the trend's days) has each key once |
| Grouping.TextObjectOf | routes/reports.js:58-61 | the object built by `reduce` over text-keyed rows has each key once and never the key `__proto__` |
| Grouping.TextObjectOfDistinctRows | routes/reports.js:58-61 | text-keyed rows whose keys are distinct become the rows less the `__proto__` row, in order |
| Grouping.GroupByFilterKeys | routes/reports.js:31-34 | dropping some groups after grouping is grouping the rows of the kept keys only |
| Grouping.FilterAddRow | routes/reports.js:31-34 | counting one more row and then dropping groups agrees with dropping groups and then counting the row if its key is kept |
| Grouping.FilterKeepsKeysDistinct | routes/reports.js:31-34 | dropping groups keeps the group keys distinct |
| Grouping.ObjectHoldsLastValue | routes/reports.js:166-169 | each property of the object holds the last value the rows gave that key |
| Grouping.ObjectOfDistinctRows | routes/reports.js:58-61 | rows whose keys are already distinct become an object equal to the rows |
| Grouping.LastIsFirstWhenDistinct | routes/reports.js:40-44 | with distinct keys the last row for a key is its only row |
| Grouping.CountOfDistinct | routes/reports.js:58-61 | each entry of an object is what reading its key gives |
| Grouping.CountedKeyListed | routes/reports.js:58-61 | a key whose count is not 0 is one of the object's keys |
| Ordering.NameOrderTotalPreorder | routes/patients.js:36 | `ORDER BY last_name, first_name` is a total preorder |
| Ordering.DateOrdersTotalPreorders | routes/appointments.js:50 | `ORDER BY appointment_date` descending and ascending are total preorders |
| Appointments.NewestFirstRowTotalPreorder | routes/appointments.js:50 | `ORDER BY a.appointment_date DESC` over joined rows is a total preorder |
| App.DashboardOrdersTotal | app.js:146-199 | the dashboard's earliest-first and newest-first orders over joined rows are total preorders |
| Reports.UpcomingOrderTotal | routes/reports.js:132 | `ORDER BY a.appointment_date ASC` over joined rows is a total preorder |
| Patients.AgeIsCompletedYears | routes/patients.js:33 | the age column is the year difference less one while this year's birthday is still ahead |
| Patients.AgeOnBirthday | routes/patients.js:33 | on the n-th birthday the age is n |
| Patients.AgeBeforeBirthday | routes/patients.js:33 | before the birthday in the n-th year the age is n - 1 |
| Patients.AgeFromBirthday | routes/patients.js:33 | from the birthday to the end of the year the age is n |
| Patients.ListConditionsArity | routes/patients.js:18-27 | the WHERE clause binds 1 value, or 3 with a search term |
| Patients.BuildListQuery | routes/patients.js:18-38 | the clause and parameters are built step by step: user, then the name search; the `?` count equals the count parameters; the data parameters are those plus `[15, offset]` |
| Patients.ListQuerySelectsVisible | routes/patients.js:20-26 | the clause with its parameters selects the user's patients whose first or last name contains the search term |
| Patients.ListQueriesSelectVisible | routes/patients.js:30-37 | the count query and the data query select the same patients |
| Patients.PageRows | routes/patients.js:33-37 | the page is the window's size, holds selected patients with their age column, is sorted by last then first name, and is exactly the window at that offset of one name-sorted order of the selected patients |
| Patients.PatientsOf | routes/patients.js:33-37 | the patients of the listed rows, one per row in row order |
| Patients.ListPatients | routes/patients.js:11-85 | the view gets the page number, the count of the user's matching patients, `ceil(count/15)` pages, and the window of 15 at `(page-1)*15` of one name-sorted order of those patients; a failure gives an empty first page and 'Error fetching patients.' |
| Patients.AddPatient | routes/patients.js:99-132 | a missing first or last name is refused with no insert; an insert failure inserts nothing; otherwise exactly one row is appended with the next AUTOINCREMENT id, owned by the user, with empty optional fields stored as NULL; the patients counter advances by the rows added and the others stay |
| Patients.RerenderEdit | routes/patients.js:168-181 | the edit form is shown again with the message exactly when the owned patient is found, otherwise back to the list |
| Patients.EditPatientForm | routes/patients.js:135-159 | the edit form is shown exactly for an owned patient |
| Patients.EditPatient | routes/patients.js:162-214 | missing names or an update failure change nothing; otherwise only the owned row with that id is rewritten, and no owned row gives 'Patient not found or no changes made.'; no AUTOINCREMENT counter moves |
| Patients.EditTouchesOnlyOwnedRow | routes/patients.js:185 | the update matches at most one row, keeps every other row and every id and owner, and changes nothing when no owned row has that id |
| Patients.BlockedDeleteMessageNamesCount | routes/patients.js:230 | the refusal message contains the number of appointments |
| Patients.DeletePatient | routes/patients.js:217-250 | while any of the user's appointments refer to the patient, nothing is deleted and the message gives their number; otherwise only the owned row is removed, with 'Patient not found.' when there was none; no AUTOINCREMENT counter moves, so a deleted id is never reused |
| Patients.DeleteRemovesOnlyOwnedRow | routes/patients.js:235 | the delete removes at most one row and keeps every row that is not the owned row with that id |
| Patients.Details | routes/patients.js:253-302 | the details page exists exactly for an owned patient when both queries succeed; it holds that patient, its age, and a permutation of its appointments newest first |
| Appointments.JoinFindsAtMostOne | routes/appointments.js:23 | the join on the patients' primary key finds at most one patient |
| Appointments.ListConditionsArity | routes/appointments.js:19-36 | the WHERE clause binds as many values as the count parameters hold |
| Appointments.ListConditionsPresent | routes/appointments.js:25-36 | the status condition is present exactly for one of the three known statuses, the name condition exactly for a non-empty search |
| Appointments.BuildListQuery | routes/appointments.js:19-52 | the count parameters are 1, plus 2 with a search, plus 1 with a known status; the `?` count matches them; the data parameters are those plus `[15, offset]` |
| Appointments.ListQueryHolds | routes/appointments.js:21-36 | the clause holds for a row exactly when it is the user's, its joined patient's name matches any search, and its status equals any known status filter |
| Appointments.ListQueriesSelectVisible | routes/appointments.js:39-51 | the count query (joined only when searching) and the data query select the same appointments |
| Appointments.DataRowsAreVisiblePairs | routes/appointments.js:42-51 | the data query over the LEFT JOIN yields each visible appointment once, with its patient or NULL |
| Appointments.Listed | routes/appointments.js:44 | each listed row carries `first_name \|\| ' ' \|\| last_name`, NULL without a patient |
| Appointments.ListedPairsMembers | routes/appointments.js:42-51 | every listed row is a selected appointment with its own patient's name |
| Appointments.PageRows | routes/appointments.js:50-51 | the page is the window's size, holds selected rows, is newest first, and is exactly the window at that offset of one newest-first order of the selected rows |
| Appointments.VisiblePage | routes/appointments.js:42-51 | the page of the visible appointments is as long as their window, each row a visible appointment with its own patient's name, newest first, and the window of one newest-first order of them |
| Appointments.ListAppointments | routes/appointments.js:11-102 | the view gets the page number, the number of visible appointments, `ceil(count/15)` pages, and the window of 15 at `(page-1)*15` of one newest-first order of the visible appointments with their patient names; a failure gives an empty first page and 'Error fetching appointments.' |
| Appointments.AddAppointment | routes/appointments.js:144-188 | a missing patient or date is refused with no insert; otherwise exactly one row is appended with the next AUTOINCREMENT id, owned by the user, in status 'Scheduled', with an empty reason stored as NULL; the appointments counter advances by the rows added and the others stay; the patient's owner is not checked |
| Appointments.EditAppointmentForm | routes/appointments.js:191-237 | the edit form is shown exactly for an owned appointment |
| Appointments.EditAppointment | routes/appointments.js:240-305 | an incomplete form or an update failure changes nothing; otherwise only the owned row is rewritten (any status text is accepted), and no owned row gives 'Appointment not found or no changes made.'; no AUTOINCREMENT counter moves |
| Appointments.UpdateTouchesOnlyOwnedRow | routes/appointments.js:284 | an update keyed by id and owner matches at most one row and keeps every other row |
| Appointments.DeleteAppointment | routes/appointments.js:309-328 | only the owned row with that id is removed; a failure changes nothing; no owned row gives 'Appointment not found.'; no AUTOINCREMENT counter moves |
| Appointments.DeleteRemovesOnlyOwnedRow | routes/appointments.js:313 | a delete keeps every row that is not the owned row with that id, and with no such row the table is unchanged |
| Appointments.RedirectWithoutReferer | routes/appointments.js:347 | without a referer the target is `/appointments` |
| Appointments.RedirectKeepsQuery | routes/appointments.js:347 | with a `?` in the referer the target keeps the text between the first `?` and the next |
| Appointments.RedirectWithoutQuery | routes/appointments.js:347 | a referer without `?` gives `/appointments?undefined` |
| Appointments.ChangeStatus | routes/appointments.js:331-369 | sets the status of the owned row with that id only; a failure changes nothing; no owned row gives 'Appointment not found or already updated.', otherwise the action's own success message; the redirect keeps the referer's query; no AUTOINCREMENT counter moves |
| Appointments.MarkComplete | routes/appointments.js:331-349 | the quick action sets 'Completed' on the owned row only, with 'Appointment marked as Completed.' on success and the same failure messages and redirect |
| Appointments.Cancel | routes/appointments.js:352-369 | the quick action sets 'Cancelled' on the owned row only, with 'Appointment marked as Cancelled.' on success and the same failure messages and redirect |
| Appointments.RepeatedStatusChangeStillMatches | routes/appointments.js:336-342 | after a status change the same WHERE clause still matches the same rows, so a repeat is never 'not found' for an owned row |
| App.Escape | app.js:53 | the escaped text is longer by the number of quotes and never starts with a quote |
| App.EscapeRoundTrip | app.js:53 | removing the inserted backslashes gives the message back |
| App.EscapeGuardsQuotes | app.js:53 | every quote in the escaped text has a backslash right before it |
| App.FlashScript | app.js:49-56 | an error message wins over a success message; there is no script exactly when neither is truthy |
| App.FlashStore.Take | app.js:41-42 | `req.flash(key)` returns the queued messages for the key and removes them |
| App.FlashStore.constructor | app.js:37 | a flash store starts with the given queues |
| App.Locals.constructor | app.js:45-49 | the template locals start with nothing set |
| App.FlashMiddleware | app.js:40-59 | the views get the first success message, the first `error_msg` or else the first `error`, and the script that `FlashScript` picks; the `error` queue is read only when `error_msg` has no truthy message |
| App.DateSeries | app.js:167-171 | the recursive date list holds the consecutive days from the first to the last |
| App.ForecastCounts | app.js:172-178 | each forecast entry counts the user's Scheduled appointments on that day, 0 for none |
| App.ForecastSum | app.js:166-178 | the forecast over consecutive days adds up to the count of the user's Scheduled appointments in that range |
| App.ForecastDaysAhead | app.js:166-178 | entry k of a forecast starting on a day counts the Scheduled appointments k days later |
| App.TodaysSchedule | app.js:145-162 | the first 10 rows of an earliest-first order of the user's appointments of today joined to their patient: as many as there are up to 10, each one of today's, sorted, and none left out earlier than one kept |
| App.TodaysScheduleLength | app.js:146-157 | with distinct patient ids, the schedule holds min(10, number of the user's appointments today) rows |
| App.LeftJoinRowsFromLeft | app.js:154 | every LEFT JOIN row carries a left row |
| App.PastDueList | app.js:187-204 | the first 5 rows of a newest-first order of the user's Scheduled appointments before today joined to their patient: as many as there are up to 5, sorted, and none left out newer than one kept |
| App.InnerJoinRowsMatch | app.js:194 | every JOIN row is a left row and a right row that match |
| App.DashboardView | app.js:78-273 | each figure is the count its query selects, the forecast is today to today+4, and the lists are the two joined lists; any failure gives 'N/A' everywhere, empty lists and 'Could not load dashboard statistics.' |
| App.DashboardAllOrNothing | app.js:256-271 | either every figure is a count with no error or every figure is 'N/A' with the error |
| App.CompletedTodayAtMostToday | app.js:86-95 | completed today never exceeds today's appointments |
| App.UpcomingAtMostScheduled | app.js:123-137 | the next seven days' Scheduled appointments never exceed those from today on |
| App.ForecastShape | app.js:164-184 | the forecast has 5 entries for today to today+4, and they add up to no more than the Scheduled figure |
| Reports.Reversed | routes/reports.js:15 | `reverse()` keeps the length and mirrors the positions |
| Reports.LastNDates | routes/reports.js:8-16 | the n days ending today, ascending |
| Reports.FillStatusCounts | routes/reports.js:39-45 | the zero-filled object holds, for each of the three statuses, the last count the rows give it, 0 if none; other statuses are ignored |
| Reports.StatusCountIsCount | routes/reports.js:30-47 | each status count is the number of the user's appointments with that status |
| Reports.OwnedWithStatusCount | routes/reports.js:30-34 | `WHERE user_id = ?` with the status group counts the same rows as the user's appointments with that status |
| Reports.StatusesDiffer | routes/reports.js:39 | the three status keys are different |
| Reports.StatusDataSum | routes/reports.js:159 | the sum of `Object.values(counts)` is the sum of the three counts |
| Reports.TotalCountsKnownStatuses | routes/reports.js:159 | `totalAppointments` counts the user's appointments with one of the three statuses |
| Reports.KnownStatusCountSplits | routes/reports.js:159 | the user's appointments with a known status number the Scheduled, Completed and Cancelled ones added together |
| Reports.CancellationRate | routes/reports.js:160-162 | no rate when the total is 0; otherwise the cancelled count over a positive total, at most 1 |
| Reports.StatusChart | routes/reports.js:30-48 | the status chart is the three per-status counts, the total counts the known statuses, and the rate is cancelled over total, or none when there are none |
| Reports.GenderObjectCounts | routes/reports.js:51-62 | the gender object never has the empty gender nor `__proto__`; each other gender's property counts the user's patients of that gender; the values add up to the user's patients with a gender other than `__proto__` |
| Reports.KeptGenderCount | routes/reports.js:51-62 | the grouped patients of one gender are the user's patients of that gender, and none for `__proto__` |
| Reports.KeptGenderedAreListed | routes/reports.js:51-62 | the grouped patients are exactly the user's patients with a gender other than `__proto__` |
| Reports.GenderObjectIsGrouped | routes/reports.js:51-62 | the gender object equals the grouping of the patients whose gender becomes a property |
| Reports.TotalPatientsLeavesOutProto | routes/reports.js:182 | the user's patients with a gender are those `totalPatients` counts plus those whose gender is `__proto__` |
| Reports.GenderChart | routes/reports.js:51-62 | the gender labels are distinct, non-empty and never `__proto__`, each with the number of the user's patients of that gender; every other gender some patient of the user has is labelled; the counts add up to the user's patients with a gender other than `__proto__` |
| Reports.GendersLabelled | routes/reports.js:51-62 | every gender other than `__proto__` that some patient of the user has is a key of the gender object |
| Reports.FormatTrend | routes/reports.js:165-172 | one entry per listed day: the last raw count for that day, 0 if none; raw days not listed are dropped |
| Reports.AppointmentTrendIsDaily | routes/reports.js:66-76 | on each listed day of the window the trend is the number of the user's appointments that day |
| Reports.AppointmentDayCount | routes/reports.js:66-76 | on a day from the window's first on, the grouped count is the number of the user's appointments that day |
| Reports.PatientTrendIsDaily | routes/reports.js:106-116 | on each listed day of the window the trend is the number of the user's patients added that day |
| Reports.PatientDayCount | routes/reports.js:106-116 | on a day from the window's first on, the grouped count is the number of the user's patients added that day |
| Reports.TrendCharts | routes/reports.js:164-175 | seven labels from today-6 to today, with the daily appointment and new-patient counts |
| Reports.BracketIndex | routes/reports.js:84-91 | 0-10, 11-20, …, 51-60 map to their bracket, over 60 to '60+', a negative age to 'Unknown' |
| Reports.AgeGroup | routes/reports.js:83-92 | a patient's bracket is one of the eight |
| Reports.SqlAgeIsCompletedYears | routes/reports.js:84 | for a birth date not after today, the truncated `'%Y.%m%d'` difference is the age in completed years |
| Reports.FutureBirthDates | routes/reports.js:84-91 | 'Unknown' arises exactly for a birth date at least a year after today; a birth date less than a year ahead falls in '0-10' |
| Reports.AgeGroupOn | routes/reports.js:83-92 | the bracket of every patient is one of the eight |
| Reports.ArmSizes | routes/reports.js:93-96 | one size per bracket: the number of dated patients in that bracket |
| Reports.ArmSizesSum | routes/reports.js:93-96 | the bracket sizes add up to the patients in those brackets |
| Reports.NonEmptyFrom | routes/reports.js:96-97 | the brackets that occur, in bracket order, each with its non-zero size |
| Reports.NonEmptyCovers | routes/reports.js:96 | every bracket that occurs has its row |
| Reports.NonEmptySum | routes/reports.js:93-96 | the rows hold all the bracket sizes |
| Reports.AgeLabelsAscending | routes/reports.js:97 | the eight labels are in strictly increasing text order |
| Reports.AgeDistribution | routes/reports.js:79-103 | each label at most once, in text order, each count at least 1, adding up to the user's patients with a date of birth |
| Reports.Labelled | routes/reports.js:92-97 | bracket numbers replaced by their labels keep the counts and are in text order |
| Reports.AgeRowsOrdered | routes/reports.js:92-97 | bracket rows in bracket order become label rows in strictly increasing text order, with the same counts |
| Reports.AgeRowIsArm | routes/reports.js:81-97 | each row is a bracket's label with the number of the user's dated patients in it |
| Reports.AgeArmIsListed | routes/reports.js:81-97 | every bracket that some dated patient of the user falls in has its row |
| Reports.UpcomingList | routes/reports.js:119-137 | a permutation of the joined upcoming appointments, earliest first |
| Reports.UpcomingRowsMatch | routes/reports.js:126-131 | every row is a Scheduled appointment of the user from today to today+7 with the patient it joins to |
| Reports.UpcomingWindowIncludesToday | routes/reports.js:129 | the reports window is today's Scheduled appointments plus the dashboard's upcoming window |
| Reports.ShowReports | routes/reports.js:22-223 | the page holds the status, gender, trend, age and upcoming data as the lemmas above describe; every gender of the user's patients other than `__proto__` is labelled, no label is `__proto__`, and the gender data add up to `totalPatients`, the user's patients with such a gender; any failure gives only 'Could not load report data.' |

## Left out

- Express routing, views, static files, the session store and cookies are not modelled. Each handler returns the redirect or view it chooses and the message it passes.
- The GET forms that only render a view (`/auth/register`, `/auth/login`, `/patients/add`, `/appointments/add`) and GET `/settings` are not modelled: they only read and render.
- `Promise.all` is modelled as one failure flag per page, so either every query succeeds or the error branch runs. Which query failed, and the unexpected-exception `catch` branches, are not distinguished.
- bcrypt's salt, its cost factor, its one-wayness and its 72-byte limit are not modelled. The digest is the password itself, so `Matches` accepts exactly the original password; real bcrypt is injective only up to its first 72 bytes.
- `LIKE` is modelled as case-sensitive containment: SQLite's ASCII case folding and `%`/`_` in the search term acting as wildcards are not modelled.
- `parseInt` is modelled for optional white space, an optional sign and decimal digits only. Hexadecimal prefixes and Unicode white space are not modelled.
- Floating point is not modelled. The cancellation rate is kept as the pair (cancelled, total) without `toFixed(1)`. The age bracket uses the exact decimal value of `strftime('%Y.%m%d')` truncated toward zero, not the float SQLite computes.
- The forecast's weekday labels (`toLocaleDateString`) are not modelled; the model keeps the day numbers.
- The UTC versus local-time mismatch in `getLastNDates` is not modelled. One `today` is used for both the SQL window and the labels, and the reports page receives that day both as a day number and as a calendar date.
- Reports.ShowReports: does not require that `today` and `date` name the same day; the caller passes the same day for both, and nothing in the model checks it.
- The order of rows that tie under ORDER BY is not fixed. Each list is stated as the window (or the first rows) of some sorted order of the selected rows, not of one particular order. SQLite's GROUP BY output order is taken to be latest last occurrence first: the group whose last row comes latest is listed first. The trend's `ORDER BY day` has no effect once the rows are folded into an object.
- JavaScript puts integer-like property names first in `Object.keys`. A gender spelled as a number would therefore be listed out of insertion order; the model keeps insertion order.
- A patient whose gender is `__proto__` is not counted in the gender chart or in `totalPatients`: `acc['__proto__'] = n` calls the prototype setter, which ignores a number, so no property is made. The model drops that key the same way (`Grouping.SetProperty`), and `Reports.TotalPatientsLeavesOutProto` states what `totalPatients` then misses.
- `renderEditWithError` (routes/appointments.js:246-277) calls `db.get`/`db.all` without callbacks, so it never sees the stored row. The model always re-renders the edit view with the message and does not merge the stored row with the form.
- The patient edit form is re-rendered with the submitted fields over the stored ones. The model keeps only the choice between re-rendering and redirecting, not the merged data.
- Foreign keys (ON DELETE CASCADE / SET NULL) are not modelled, since the connection never enables them. An appointment may refer to a patient of another user or to none.
- `database/seed.js` is not part of this model.
- The text formats of dates (`strftime('%Y-%m-%d %H:%M')` and `'%Y-%m-%dT%H:%M'`) are not modelled; the model keeps the `DateTime` value.
- URL ids arrive as text and are compared by SQLite's type affinity. The model takes them as integers.
- A form field that is missing and one that is empty are both the empty text (or `None`). Names and statuses are taken as strings.
- The `created_at` column of `users` is not modelled, since no handler reads it.
