# QR attendance system — a Dafny model of its core

The system is a small employee time clock. Each day an administrator issues two QR codes, one for check-in and one for check-out. An employee is meant to scan a code and type their employee id. The scanner page as written scans no image: it builds the `{type, date, timestamp}` payload itself from the browser's UTC date (client/src/components/AttendanceScanner.js:22-28). The server then records a check-in or check-out time in the `attendance` table or refuses the scan. The administrator's pages list the recorded attendance with filters, working time and dashboard counts.

This project models:

- **The scan handler** (`POST /api/attendance/scan`). Each (employee, day) pair moves through NOT CHECKED IN, then CHECKED IN, then CHECKED OUT. The handler's checks run in the source's order: the payload parses, it is for today, the employee is registered, then the check-in or check-out branch. Each refusal carries its exact error text. The attendance table is a sequence of rows in id order. A `db.get` lookup returns the first matching row (`Attendance`). The server object holds its tables as fields, and `Scan` updates them in place (`Server.AttendanceServer`).
- **The attendance report** (`GET /api/reports/attendance`). It joins attendance with employees and applies one WHERE condition per supplied filter. Dates compare as strings, as SQLite compares TEXT. Rows are ordered by date descending, then check-in time descending (`Reports`, `Server`).
- **The dashboard counts** (`GET /api/dashboard/stats`): registered employees, today's check-ins and today's check-outs (`Dashboard`, `Server`).
- **The QR payloads** issued by `POST /api/admin/generate-qr`, and how the scanner reads them back (`QrIssue`).
- **The Reports page of the admin client.** It covers the query parameters it sends, the employee name it shows and the working time it prints (`ClientReports`).
- **Concrete scenarios** (`Scenarios`):
  - a full day that prints "8h 0m";
  - a check-out without a check-in;
  - an unregistered id;
  - the same scans run against the server object.

Conventions:

- Timestamps are whole seconds on the server clock.
- Dates are the server's `YYYY-MM-DD` strings.
- SQL NULL is `None`.
- The handler's answer is `Accepted`, `Rejected` (HTTP 400, with an error text) or `NoReply`. `NoReply` covers a same-day payload from a registered employee whose `type` is neither `checkin` nor `checkout`. The handler then sends no response and changes nothing.

An unregistered employee id is refused with HTTP 400 (server.js:318).

The table invariant `Attendance.Consistent` combines five conditions:

- employee ids are unique;
- no check-out without a check-in;
- at most one record per employee and date;
- every record belongs to a registered employee;
- row ids increase and stay below the next id.

Every scan preserves it. On that invariant rest the dashboard ordering (checked out <= present <= employees) and the absence of duplicate report rows.

## Model

| member | source | states |
|---|---|---|
| Attendance.ErrorText | server.js:307-379 | No contract of its own: the `error` text the handler sends with each refusal, one per refusal. Scenarios.CheckOutWithoutCheckIn pins one of them. |
| Attendance.SuccessText | server.js:342-372 | No contract of its own: the `message` text the handler sends with an accepted check-in or check-out. |
| Attendance.Status | server.js:308-379 | Accepted replies are HTTP 200 and every refusal is HTTP 400. No status is sent exactly when the reply is NoReply. |
| Attendance.EmployeeIndex | server.js:312-319 | Returns the first employee with the id, or `None` exactly when no employee has it. |
| Attendance.EmployeeIds | server.js:312-319 | An id is in the set exactly when the employee lookup finds it. |
| Attendance.FirstMatch | server.js:327-328 | The row `db.get` returns for (employee, date) is the first matching row. `None` means no row matches. |
| Attendance.ApplyCheckIn | server.js:325-352 | Accepted exactly when the day's state is NOT CHECKED IN, otherwise "Already checked in today" (`AlreadyCheckedIn`). A refusal changes nothing. An acceptance either sets the existing row's check-in time or appends a row with the next id and increments it. |
| Attendance.ApplyCheckOut | server.js:353-374 | The outcome follows the day's state: NOT CHECKED IN gives "Must check in before checking out" (`MustCheckInFirst`), CHECKED IN gives accepted, CHECKED OUT gives "Already checked out today" (`AlreadyCheckedOut`). An acceptance sets only that row's check-out time. The id counter never moves. |
| Attendance.Resolve | server.js:298-381 | The checks run in order: unparseable payload, then wrong date, then unregistered employee. Each refusal leaves the table unchanged. An acceptance implies the payload is for today, the employee is registered and the payload's type asks for that direction. Any non-accepted reply changes nothing. NoReply happens exactly when every check passed and the type is neither tag. |
| Attendance.StateOf | server.js:327-374 | No contract of its own: the day's state read off the first record for (employee, date), as the handler's branches read it. Attendance.StateReadsTheTable states what it means. |
| Attendance.StateReadsTheTable | server.js:327-374 | With at most one record per (employee, date), the state is CHECKED OUT exactly when that pair has a record with both times, and CHECKED IN exactly when it has a record with a check-in and no check-out. |
| Attendance.FirstMatchSameKeys | server.js:327-328 | Two tables whose rows agree on which match (employee, date) give the same lookup result. |
| Attendance.FirstMatchAppend | server.js:346-347 | Appending a row only changes a lookup that previously found nothing. |
| Attendance.KeyPreservingUpdate | server.js:339-340 | An UPDATE that keeps a row's employee and date leaves every lookup where it was. |
| Attendance.CheckInPreservesConsistency | server.js:325-352 | The check-in branch keeps the table consistent. |
| Attendance.CheckOutPreservesConsistency | server.js:353-374 | The check-out branch keeps the table consistent. |
| Attendance.AppendPreservesConsistency | server.js:346-347 | Appending a registered employee's first record of the day, under the next id and with no check-out before a check-in, keeps the table consistent and moves the id counter on. |
| Attendance.UpdatePreservesConsistency | server.js:369-370 | Rewriting one row's times in place, keeping its id and key and putting no check-out without a check-in, keeps the table consistent. |
| Attendance.ResolvePreservesConsistency | server.js:298-381 | Every scan keeps the five table invariants. |
| Attendance.ScanFollowsStateMachine | server.js:298-381 | An accepted scan moves the employee's state for today exactly one step forward: check-in ends in CHECKED IN, check-out in CHECKED OUT. A refused scan leaves the table unchanged. No other (employee, date) pair changes state. |
| Attendance.OtherStatesAfterAppend | server.js:346-347 | Inserting a row changes no other (employee, date) pair's state. |
| Attendance.OtherStatesAfterUpdate | server.js:339-340 | Updating the row a lookup found changes no other (employee, date) pair's state. |
| Attendance.SecondCheckInRefused | server.js:333-335 | After an accepted check-in, a second check-in that day is refused. It changes nothing, and the record keeps the first check-in time. |
| Attendance.CheckInThenCheckOut | server.js:325-374 | A check-in and then a check-out on the same day are both accepted. They leave one record with the first scan's check-in time and the second scan's check-out time. |
| Attendance.ResolveKeepsClockOrder | server.js:304 | If the clock never runs backwards, every check-out stays at or after its check-in, and no time is later than the latest scan. |
| Text.LexLeTotalOrder | server.js:396-401 | The string comparison used for dates is a total order. |
| Text.NatToStringDigits | client/src/components/Reports.js:70 | The decimal text of a number is all digits, has no leading zero, and reads back as the number. |
| Dashboard.PresentCount | server.js:450 | Today's check-in count is at most the number of rows. It is zero exactly when no row for the day has a check-in. |
| Dashboard.CheckedOutCount | server.js:451 | Today's check-out count is at most the number of rows. It is zero exactly when no row for the day has a check-out. |
| Dashboard.CheckedOutAtMostPresent | server.js:450-451 | When no row has a check-out without a check-in, the checked-out count is at most the present count. |
| Dashboard.PresentCountIsHeadcount | server.js:450 | With one record per employee and day, the present count equals the number of distinct employees present. |
| Dashboard.EmployeeIdsCardinality | server.js:449 | With unique employee ids, there are as many ids as employees. |
| Dashboard.CountsOrdered | server.js:445-474 | On a consistent table: checked out today <= present today <= registered employees. |
| Reports.Selected | server.js:387-408 | Every output row is a table record that meets every condition, joined with its registered employee's name. Every such record appears in the output. The output is no longer than the table. |
| Reports.PrecedesTotal | server.js:410 | Any two report rows are ordered one way or the other under the ORDER BY. |
| Reports.PrecedesTransitive | server.js:410 | The ORDER BY relation is transitive. |
| Reports.Insert | server.js:410 | Inserting a row adds exactly that row to the multiset. |
| Reports.InsertSorted | server.js:410 | Inserting into a sorted list keeps it sorted. |
| Reports.SortRows | server.js:410 | Sorting permutes the rows. |
| Reports.SortRowsSorted | server.js:410 | Sorting yields date descending, then check-in descending with NULL last. |
| Reports.Report | server.js:387-412 | The report is a permutation of the filtered join, ordered by date descending, then check-in descending with NULL last. |
| Reports.ReportCorrect | server.js:384-419 | Every report row is a table record that meets every condition, under the name of the employee the record belongs to. Every matching record of a registered employee appears, under that employee's name. |
| Reports.ReportFromSelected | server.js:387-410 | Any list holding exactly the joined and filtered rows contains only matching records, each under its own employee's name, and all of them. |
| Reports.SelectedNoDuplicates | server.js:387-392 | With increasing ids, no row appears twice in the join. |
| Reports.QueryValue | server.js:385 | A query parameter's value is the value paired with the name's first occurrence. It is `None` exactly when the name is absent. |
| QrIssue.BaseUrl | server.js:219 | Returns `RAILWAY_URL` when set and non-empty, otherwise the fixed default URL. |
| QrIssue.IssueCodes | server.js:217-238 | The two payloads carry the tags "checkin" and "checkout", today's date and the base URL. |
| QrIssue.IssuedCodesDriveTheStateMachine | server.js:217-238 | For a registered employee scanning on the day of issue, the check-in code is accepted exactly when the employee has not checked in. The check-out code is accepted exactly when they have checked in and not yet out. |
| QrIssue.StaleCodeRefused | server.js:307-309 | A code issued on another day is refused as not valid for today, and the table is unchanged. |
| Server.BuildConditions | server.js:393-408 | A record meets the built conditions exactly when it meets every supplied filter. There is one condition per supplied filter. |
| Server.AttendanceServer.constructor | server.js:119-151 | Creates a server over a roster with unique ids: an empty attendance table and next id 1. |
| Server.AttendanceServer.FindRecord | server.js:327-328 | The loop returns the first row for (employee, date). |
| Server.AttendanceServer.Scan | server.js:298-381 | The reply and the new attendance table and id counter are those of `Attendance.Resolve` on the old state. Employees are unchanged and the invariant holds afterwards. |
| Server.AttendanceServer.DashboardStats | server.js:445-474 | The three fields are the three counts, and checked out <= present <= employees. |
| Server.AttendanceServer.AttendanceReport | server.js:384-419 | The result is sorted. Each row is a matching record joined with the name of the employee it belongs to. Every matching record of a registered employee appears exactly once. |
| ClientReports.ReportParams | client/src/components/Reports.js:28-31 | A parameter is present exactly when its filter field is non-empty, and then carries that field's value. Only the three filter names occur. |
| ClientReports.ParamRoundTrip | client/src/components/Reports.js:28-31 | The server reads a parameter back as supplied exactly when the page sent a non-empty value, and reads that value. |
| ClientReports.FiltersReachServer | client/src/components/Reports.js:28-33 | The server selects a record exactly when it meets each non-empty filter field on the page. |
| ClientReports.EmployeeName | client/src/components/Reports.js:55-58 | Returns the name of the first employee with the id, or the id itself when there is none. |
| ClientReports.PageShowsJoinedName | client/src/components/Reports.js:55-58 | For every report row, the page's employee list (the same employees in another order) gives the name the server joined. |
| ClientReports.WorkingHours | client/src/components/Reports.js:60-71 | The page shows "N/A" exactly when either time is missing. Otherwise it shows the hours and minutes text (see WorkingHoursFormat). |
| ClientReports.ElapsedParts | client/src/components/Reports.js:65-68 | For elapsed time between h hours m minutes and one minute more, the hours taken are h and the minutes taken are m. |
| ClientReports.WorkingHoursFormat | client/src/components/Reports.js:63-70 | For elapsed time between h hours m minutes and one minute more, the display is `{h}h {m}m`. |
| ClientReports.WorkingHoursWellFormed | client/src/components/Reports.js:63-70 | A check-out at or after its check-in is shown as the whole hours elapsed and the whole minutes left over. |
| ClientReports.ReversedTimesDisplay | client/src/components/Reports.js:67-68 | A check-out 90 minutes before the check-in is shown as "-2h -30m": hours rounded down, minutes toward zero. |
| Scenarios.FullDay | server.js:325-374 | E1 checks in at 09:00:00 and out at 17:00:00. This gives one record with both times, and the page shows "8h 0m". |
| Scenarios.CheckOutWithoutCheckIn | server.js:361-363 | A check-out with no check-in that day is refused with "Must check in before checking out", and no record is written. |
| Scenarios.UnknownEmployee | server.js:317-319 | An unregistered id is refused and no record is created. |

## Left out

- HTTP and Express routing, request bodies, JSON serialisation and authentication are not modelled. That covers the JWT middleware, login and bcrypt. The handlers are functions and methods over the tables.
- Database errors (the 500 responses) are not modelled, because the model's tables cannot fail.
- The QR image encoding (`QRCode.toDataURL`), the `qr_codes` inserts and the `simpleQR` images are not modelled. Only the payload's members are.
- The `checkin_qr_id` and `checkout_qr_id` columns and the employee contact columns are not modelled, because the core never reads them.
- Adding and listing employees (server.js:422-442) is not modelled. The roster is fixed when the server object is built.
- The scan handler's `db.get` and `db.run` callbacks run asynchronously in the source. Two concurrent scans by one employee can both pass the lookup and insert two rows. The model treats each scan as atomic, which is why at most one record per (employee, date) holds there.
- Server.AttendanceServer.Scan: `today` and `now` are parameters. The local-time formatting by `moment` (time zones, daylight saving) is not modelled. Timestamps are whole seconds, not `YYYY-MM-DD HH:mm:ss` text.
- ClientReports.WorkingHours: takes whole seconds rather than the timestamp strings that `moment` parses. It does not model floating-point `asHours` rounding or sub-second parts.
- The payload's `timestamp` and `url` members are issued but never read by the scan handler. The scanner page's own URL handling and the `AttendanceScanner` component are not part of this model.
- URL encoding of query parameters is not modelled: values pass through unchanged.
- Reports.QueryValue: a name repeated in the query string becomes an array under Express's default query parser. The model reads the first occurrence instead. The Reports page never repeats a name (ClientReports.ReportParams).
- In `POST /api/admin/generate-qr`, server.js:256-257 use `await` inside the `db.run` callback opened at server.js:250, which is not an `async` function. As written, the file does not parse. The model describes the handler as it would behave once that callback is `async`.
- The model follows the SQLite branch (server.js:60-63, 117-162). In the PostgreSQL branch the wrapper at server.js:34-59 ignores the callback argument, so the scan, report and dashboard handlers send no reply there.
- The dashboard's three queries run concurrently in the source and may finish in any order. The model runs them in index order, which gives the same result.
