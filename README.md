# HRMS Lite in Dafny

A Dafny model of HRMS Lite, a small Human-Resources console. It has two halves.

The browser client:
- The attendance list filters records by employee name and by a date window (today, this week, this month). The window is resolved against a reference day.
- The dashboard counts the day's present and absent records.
- The mark-attendance form and the add-employee form each hold a draft and `loading`, `error` and `success` banners. Each submit makes one call, then shows a result; after a success, a timer resets the draft.
- The employee list searches four fields and keeps a delete-confirmation state.
- The navigation bar picks the active link.
- The API layer builds request URLs and the error message a failed call rejects with.

The FastAPI backend:
- Two tables, `employees` and `attendance`, with their declared constraints: uniqueness, the status check, the foreign key with cascade delete, and the column widths.
- The repositories' queries over those tables.
- The services' checks: 404 for an unknown employee, 400 for a duplicate attendance day, 400 for a duplicate employee identifier and then for a duplicate e-mail.
- The request bodies' field bounds.
- The router modules, which repeat the services' rules inline. They are proved to behave as the same rule functions.

Calendar dates are proleptic Gregorian `(year, month, day)` triples (`calendar.dfy`). The module writes out its own leap years, month lengths, day numbers, weekday, start and end of week (Monday first) and of month, and the `yyyy-MM-dd` text. "Today", the time of an insert and the outcome of every network call are parameters or events.

Layout, leaves first:
- `common.dfy`, `seqs.dfy`, `text.dfy`, `calendar.dfy`: shared helpers.
- `schemas.dfy`, `models.dfy`, `storage.dfy`: request bodies, tables and the database session.
- `employee_repository.dfy`, `attendance_repository.dfy`: the queries.
- `http.dfy`: refusals and their HTTP status codes.
- `employee_rules.dfy`, `attendance_rules.dfy`: the endpoint rules as functions on tables.
- `employee_service.dfy`, `attendance_service.dfy`, `employee_router.dfy`, `attendance_router.dfy`: the classes and handlers proved against those rules.
- `api.dfy`, `navigation.dfy`, `attendance_list.dfy`, `dashboard.dfy`, `attendance_form.dfy`, `add_employee_form.dfy`, `employee_list.dfy`: the client.
- `scenarios.dfy`: worked examples.

Where the behaviour this system is said to have and its code differ, the model follows the code:
- Week and month windows are closed intervals, inclusive at both ends (`isWithinInterval`).
- The attendance submit button is disabled only while loading or while no employee is chosen. The date is not checked.
- A record with a status other than Present or Absent counts in the day's total only.
- Both forms show the fallback text for every failure (see Findings): each form's `SubmitFailed` reads the error the client rejected with, and the interceptor as written (`Api.RejectAsWritten`) never leaves the server's detail on it.

## Model

| member | source | states |
|---|---|---|
| `AttendanceList.SetDateFilter` | frontend/src/components/attendance/AttendanceList.jsx:30-41 | `today` gives the formatted reference day, `this_week` the start and end of its week, `this_month` the first and last day of its month; every other choice, and only those, gives no window |
| `AttendanceList.ClearFilters` | frontend/src/components/attendance/AttendanceList.jsx:64 | Clear Filters empties the name query and removes the window |
| `AttendanceList.FilterKeepsExactlyMatches` | frontend/src/components/attendance/AttendanceList.jsx:10-28 | the filtered list is an order-preserving subsequence of the records; a record is in it iff it is a record that passes both the name test and the window test |
| `AttendanceList.NoFiltersKeepAll` | frontend/src/components/attendance/AttendanceList.jsx:11-14 | with an empty query and no window, the result is the input: same records, same order |
| `AttendanceList.ClearShowsAll` | frontend/src/components/attendance/AttendanceList.jsx:64 | after Clear Filters, every record is shown again, in order |
| `AttendanceList.FilterIdempotent` | frontend/src/components/attendance/AttendanceList.jsx:10-28 | filtering the filtered list with the same criteria changes nothing |
| `AttendanceList.NameMatchesOccurrence` | frontend/src/components/attendance/AttendanceList.jsx:12 | the name test passes iff the query is empty or the lower-cased query occurs at some position of the lower-cased name; the case of either side does not matter |
| `AttendanceList.OtherWindowIsNameOnly` | frontend/src/components/attendance/AttendanceList.jsx:26 | a window of an unrecognised type leaves the name-only result |
| `AttendanceList.TodayWindowExact` | frontend/src/components/attendance/AttendanceList.jsx:18-33 | for valid dates, the `today` window holds a date iff it is the reference day, because the `yyyy-MM-dd` text determines the date |
| `AttendanceList.WeekWindowExact` | frontend/src/components/attendance/AttendanceList.jsx:21-35 | the `this_week` window starts on a Monday and ends on the Sunday six days later; it contains the reference day and holds exactly those seven days |
| `AttendanceList.MonthWindowExact` | frontend/src/components/attendance/AttendanceList.jsx:24-37 | the `this_month` window runs from day 1 to the last day of the reference month; it holds a date iff that date is in the same year and month |
| `AttendanceList.WindowsContainToday` | frontend/src/components/attendance/AttendanceList.jsx:30-41 | every window the buttons produce contains the reference day; any other choice imposes no date constraint, so an empty query keeps everything |
| `AttendanceList.TodayFilterKeepsToday` | frontend/src/components/attendance/AttendanceList.jsx:17-33 | with the `today` window, a record is kept iff it is dated the reference day and its name matches |
| `Calendar.WeekBounds` | frontend/src/components/attendance/AttendanceList.jsx:35 | `startOfWeek` with `weekStartsOn: 1` is the Monday 0 to 6 days before the given day; `endOfWeek` is the Sunday 6 days after that; both are real dates |
| `Calendar.WeekDays` | frontend/src/components/attendance/AttendanceList.jsx:21-35 | a date lies between the start and end of the week iff it is one of the seven days counted from the start |
| `Calendar.MonthDays` | frontend/src/components/attendance/AttendanceList.jsx:24-37 | a date lies between `startOfMonth` and `endOfMonth` iff it is in the same year and month, including the first and last day |
| `Calendar.FormatDateInjective` | frontend/src/components/attendance/AttendanceList.jsx:18 | two valid dates with the same `yyyy-MM-dd` text are the same date |
| `Calendar.OrdOrder` | frontend/src/components/attendance/AttendanceList.jsx:21 | comparing day numbers of valid dates is comparing year, then month, then day; equal day numbers mean equal dates |
| `Calendar.AddDaysOrd` | frontend/src/components/attendance/AttendanceList.jsx:35 | adding n days to a valid date gives a valid date n day numbers later |
| `Calendar.SubDaysOrd` | frontend/src/components/attendance/AttendanceList.jsx:35 | going n days back from a valid date, within the calendar, gives a valid date n day numbers earlier |
| `Scenarios.DayScenario` | frontend/src/components/attendance/AttendanceList.jsx:10-33 | query "ali" with the Today window on 2024-06-10 keeps only Alice's record of that day, out of Alice and Bob on 2024-06-10 and Alice on 2024-06-03 |
| `Scenarios.MonthScenario` | frontend/src/components/attendance/AttendanceList.jsx:23-37 | This Month on 2024-06-15 with no query keeps all three June records |
| `Scenarios.StatsScenario` | frontend/src/pages/Dashboard.jsx:29-36 | the same three records count two present, one absent, three in all |
| `Dashboard.ComputeStats` | frontend/src/pages/Dashboard.jsx:29-37 | the total is the number of employees, the day's count is the number of records, present and absent are the number of times each status occurs among the records, and present plus absent never exceeds the day's count |
| `Dashboard.CountIsOccurrences` | frontend/src/pages/Dashboard.jsx:29-30 | a status count equals the number of times that status occurs among the loaded records |
| `Dashboard.PresentPlusAbsent` | frontend/src/pages/Dashboard.jsx:29-36 | present plus absent equals the day's total iff every record is Present or Absent |
| `Dashboard.Dashboard.constructor` | frontend/src/pages/Dashboard.jsx:8-15 | the page starts with zero stats, loading, and no error |
| `Dashboard.Dashboard.StartLoad` | frontend/src/pages/Dashboard.jsx:22-27 | a load sets `loading`, clears `error`, keeps the stats, and requests the employees and then the attendance of the formatted day |
| `Dashboard.Dashboard.FinishLoad` | frontend/src/pages/Dashboard.jsx:25-42 | after both lists arrive, the stats are recomputed from them; after a failure, `error` is the rejection's message and the stats are unchanged; `loading` is false either way |
| `Navigation.IsActive` | frontend/src/components/layouts/Navigation.jsx:7 | the root link is active iff the pathname is exactly `/`; any other link is active iff the pathname equals its path or starts with it |
| `Navigation.ActiveOnOwnPath` | frontend/src/components/layouts/Navigation.jsx:7 | an exact pathname match is always active |
| `Navigation.ActiveIsPrefix` | frontend/src/components/layouts/Navigation.jsx:7 | for a link other than the root, active iff its path is a character prefix of the pathname |
| `Navigation.PrefixIsNotSegmentAware` | frontend/src/components/layouts/Navigation.jsx:7 | `/employeesX` activates the `/employees` link and not the root link |
| `Navigation.RootOnlyOnDashboard` | frontend/src/components/layouts/Navigation.jsx:7 | wherever the employees or attendance link is active, the root link is not |
| `Api.BaseUrl` | frontend/src/services/api.js:3 | the base URL is `VITE_API_URL` when it is set and non-empty, otherwise `http://localhost:8000` |
| `Api.AttendanceListUrl` | frontend/src/services/api.js:52-55 | with a non-empty date filter the path is `/api/attendance?date=` followed by the filter; otherwise it is `/api/attendance` |
| `Api.AttendanceListUrlCarriesDate` | frontend/src/services/api.js:53-54 | the date filter is exactly what follows `?date=` in the path |
| `Api.PerEmployeeUrlsNameKey` | frontend/src/services/api.js:31-50 | `/api/attendance/` + id and `/api/employees/` + id read back as the same integer key |
| `Api.DeleteUrlInjective` | frontend/src/services/api.js:32 | different employee keys give different delete paths |
| `Api.InterceptorMessage` | frontend/src/services/api.js:15 | the message is the server's `detail` when present, else the error's own `message`, else `An error occurred`; it is never empty |
| `Api.Reject` | frontend/src/services/api.js:12-18 | the rejected error carries the interceptor's message and keeps the server's detail |
| `Api.FormErrorText` | frontend/src/components/attendance/AttendanceForm.jsx:58 | a form shows the error's `response.data.detail` when present, otherwise `An unexpected error occurred.` |
| `Api.FormsNeverSeeDetailAsWritten` | frontend/src/services/api.js:15-16 | with the interceptor as written, a form's error text is the fallback for every failure |
| `Api.FormDetailLostExample` | frontend/src/services/api.js:15-16 | the 404 the backend sends for unknown employee 7, detail `Employee with ID 7 not found`, is shown as the fallback text as written, and as that detail with the corrected interceptor |
| `Api.FormsShowDetail` | frontend/src/components/employees/AddEmployeeForm.jsx:80-81 | with the corrected interceptor, a form shows the server's detail when there is one, otherwise the fallback text |
| `AttendanceForm.DefaultDraft` | frontend/src/components/attendance/AttendanceForm.jsx:7-11 | a fresh draft has no employee, the reference day as its date, and status Present |
| `AttendanceForm.WithField` | frontend/src/components/attendance/AttendanceForm.jsx:28-30 | a change replaces only the named field; the status is never touched by it |
| `AttendanceForm.Payload` | frontend/src/components/attendance/AttendanceForm.jsx:39-42 | the call's body has `employee_id` parsed as an integer, and the date and status of the draft |
| `AttendanceForm.ChosenEmployeeIsSent` | frontend/src/components/attendance/AttendanceForm.jsx:41 | choosing an employee's option sends exactly that employee's key |
| `AttendanceForm.AttendanceForm.constructor` | frontend/src/components/attendance/AttendanceForm.jsx:6-14 | the form starts with the default draft, no banners, not loading, and submit disabled |
| `AttendanceForm.AttendanceForm.EmployeesLoaded` | frontend/src/components/attendance/AttendanceForm.jsx:16-26 | the loaded employees fill the select; a failure sets the load-error text and keeps the list |
| `AttendanceForm.AttendanceForm.HandleChange` | frontend/src/components/attendance/AttendanceForm.jsx:28-30 | only the named field changes; the other fields keep their values |
| `AttendanceForm.AttendanceForm.ChooseStatus` | frontend/src/components/attendance/AttendanceForm.jsx:108-115 | the status buttons set `status` to Present or Absent and leave the other fields unchanged |
| `AttendanceForm.AttendanceForm.HandleSubmit` | frontend/src/components/attendance/AttendanceForm.jsx:32-42 | requires an enabled button (not loading, employee chosen); it clears both banners, sets `loading`, makes exactly one call with the draft's payload, and disables the button |
| `AttendanceForm.AttendanceForm.SubmitSucceeded` | frontend/src/components/attendance/AttendanceForm.jsx:43-60 | on success the success banner shows, one reset is scheduled and `loading` goes off |
| `AttendanceForm.AttendanceForm.SubmitFailed` | frontend/src/components/attendance/AttendanceForm.jsx:57-61 | on failure the error is what the form reads from the rejected error: the detail still reachable through it, otherwise the fallback text; the draft is untouched and `loading` goes off |
| `AttendanceForm.AttendanceForm.ResetTimerFires` | frontend/src/components/attendance/AttendanceForm.jsx:45-55 | when the timer fires, the draft returns to its defaults, the success banner clears and `onAttendanceMarked` runs once if given |
| `AddEmployeeForm.ResolveDepartments` | frontend/src/components/employees/AddEmployeeForm.jsx:18-46 | a non-empty fetched list is used as-is; a missing or empty list, or a failed fetch, gives the six default departments in order |
| `AddEmployeeForm.DepartmentsFromStore` | frontend/src/components/employees/AddEmployeeForm.jsx:20-22 | against the backend's distinct-departments query, the form offers each department in use exactly once and nothing else; with no employees it offers the defaults |
| `AddEmployeeForm.WithInput` | frontend/src/components/employees/AddEmployeeForm.jsx:50-55 | a change replaces only the named one of the four fields |
| `AddEmployeeForm.AddEmployeeForm.constructor` | frontend/src/components/employees/AddEmployeeForm.jsx:6-15 | all four fields start empty, with no departments, no banners, not loading |
| `AddEmployeeForm.AddEmployeeForm.DepartmentsFetched` | frontend/src/components/employees/AddEmployeeForm.jsx:17-48 | the department choices become the resolved list, which is never empty |
| `AddEmployeeForm.AddEmployeeForm.HandleChange` | frontend/src/components/employees/AddEmployeeForm.jsx:50-55 | only the named field changes |
| `AddEmployeeForm.AddEmployeeForm.HandleSubmit` | frontend/src/components/employees/AddEmployeeForm.jsx:57-64 | requires the button enabled (not loading); it clears both banners, sets `loading` and makes exactly one `create` call with the current form data |
| `AddEmployeeForm.AddEmployeeForm.SubmitSucceeded` | frontend/src/components/employees/AddEmployeeForm.jsx:65-83 | on success the success banner shows, one reset is scheduled and `loading` goes off |
| `AddEmployeeForm.AddEmployeeForm.SubmitFailed` | frontend/src/components/employees/AddEmployeeForm.jsx:80-84 | on failure the error is what the form reads from the rejected error: the detail still reachable through it, otherwise the fallback text; the form data is kept and the button is enabled again |
| `AddEmployeeForm.AddEmployeeForm.ResetTimerFires` | frontend/src/components/employees/AddEmployeeForm.jsx:67-78 | when the timer fires, all four fields become empty, the success banner clears and `onEmployeeAdded` runs once if given |
| `EmployeeList.FieldMatchesOccurs` | frontend/src/components/employees/EmployeeList.jsx:39-42 | a field matches iff the lower-cased term occurs at some position of the lower-cased field |
| `EmployeeList.SearchExact` | frontend/src/components/employees/EmployeeList.jsx:38-43 | the result is an order-preserving subsequence; an employee is in it iff the term matches its name, identifier, e-mail or department |
| `EmployeeList.EmptySearchKeepsAll` | frontend/src/components/employees/EmployeeList.jsx:38-43 | an empty search keeps every employee, in order |
| `EmployeeList.SearchIgnoresCase` | frontend/src/components/employees/EmployeeList.jsx:38-43 | searching for the lower-cased term gives the same list as the term itself |
| `EmployeeList.EmployeeList.constructor` | frontend/src/components/employees/EmployeeList.jsx:8-10 | the list starts with an empty search, no pending delete and nothing being deleted |
| `EmployeeList.EmployeeList.SetSearchTerm` | frontend/src/components/employees/EmployeeList.jsx:53 | the search input sets the term |
| `EmployeeList.EmployeeList.OpenDeleteModal` | frontend/src/components/employees/EmployeeList.jsx:12-14 | the chosen employee awaits confirmation and the dialog is open |
| `EmployeeList.EmployeeList.CloseDeleteModal` | frontend/src/components/employees/EmployeeList.jsx:16-18 | nobody awaits confirmation and the dialog is closed |
| `EmployeeList.EmployeeList.HandleDelete` | frontend/src/components/employees/EmployeeList.jsx:20-27 | with nobody pending, nothing changes and no call is made; otherwise `deletingId` becomes the target's key, the dialog closes, that employee's button is disabled, and one delete call goes out with that key |
| `EmployeeList.EmployeeList.DeleteSettled` | frontend/src/components/employees/EmployeeList.jsx:26-35 | `onEmployeeDeleted` runs only when the delete succeeded; `deletingId` returns to null and no delete button stays disabled |
| `EmployeeList.EmployeeList.Shown` | frontend/src/components/employees/EmployeeList.jsx:38-43 | the shown employees are an order-preserving subsequence, and all of them when the search is empty |
| `Schemas.EmployeeErrors` | backend/app/schemas.py:5-9 | a body is valid iff it reports no field; `employee_id`, `full_name` and `department` are each reported iff their length is outside 1..50, 1..200 and 1..100 |
| `Schemas.AttendanceErrors` | backend/app/schemas.py:21-24 | an attendance body is valid iff the date is a real date and the status is Present or Absent; each broken field is reported |
| `Models.InsertEmployee` | backend/app/models.py:6-14 | a refused insert changes nothing; an accepted one appends exactly the new row with the next key |
| `Models.InsertAttendance` | backend/app/models.py:18-31 | a refused insert changes nothing; an accepted one appends exactly the new row with the next key |
| `Models.DeleteEmployee` | backend/app/models.py:16-22 | the employee row goes and so does every attendance row naming it; every other row of both tables stays |
| `Models.EmptyTablesConsistent` | backend/app/models.py:6-32 | the empty database satisfies every declared constraint |
| `Models.InsertEmployeeConsistent` | backend/app/models.py:9-13 | the database accepts an employee insert iff the result keeps every constraint, so keys, identifiers and e-mails stay unique and columns fit |
| `Models.InsertAttendanceConsistent` | backend/app/models.py:21-31 | the database accepts an attendance insert iff the result keeps every constraint: one row per employee and day, the status check, the widths and the foreign key |
| `Models.DeleteEmployeeConsistent` | backend/app/models.py:16-22 | a cascading delete keeps every constraint; no attendance row is left naming a missing employee |
| `Storage.Session.constructor` | backend/app/models.py:6-32 | a new database is empty and consistent |
| `Storage.Session.AddEmployee` | backend/app/repositories/employee_repository.py:12-15 | the stored state becomes the result of the employee insert and stays consistent |
| `Storage.Session.AddAttendance` | backend/app/repositories/attendance_repository.py:12-15 | the stored state becomes the result of the attendance insert and stays consistent |
| `Storage.Session.Delete` | backend/app/repositories/employee_repository.py:30-32 | the stored state becomes the cascading delete and stays consistent |
| `EmployeeRepository.ByKey` | backend/app/repositories/employee_repository.py:21-22 | returns a stored employee with that key, or none iff no employee has it |
| `EmployeeRepository.ByEmployeeId` | backend/app/repositories/employee_repository.py:24-25 | returns a stored employee with that identifier, or none iff no employee has it |
| `EmployeeRepository.ByEmail` | backend/app/repositories/employee_repository.py:27-28 | returns a stored employee with that e-mail, or none iff no employee has it |
| `EmployeeRepository.ByKeyFindsStored` | backend/app/repositories/employee_repository.py:21-22 | with unique keys, looking up a stored employee's key finds that employee |
| `EmployeeRepository.Departments` | backend/app/repositories/employee_repository.py:34-36 | each department in use appears exactly once, and nothing else |
| `EmployeeRepository.EmployeeRepository.constructor` | backend/app/repositories/employee_repository.py:8-9 | the repository works on the given session |
| `EmployeeRepository.EmployeeRepository.Create` | backend/app/repositories/employee_repository.py:11-16 | stores the new employee as the insert says, or leaves the table alone when refused |
| `EmployeeRepository.EmployeeRepository.GetAll` | backend/app/repositories/employee_repository.py:18-19 | returns every stored employee, in storage order |
| `EmployeeRepository.EmployeeRepository.GetById` | backend/app/repositories/employee_repository.py:21-22 | the key lookup on the stored employees |
| `EmployeeRepository.EmployeeRepository.GetByEmployeeId` | backend/app/repositories/employee_repository.py:24-25 | the identifier lookup on the stored employees |
| `EmployeeRepository.EmployeeRepository.GetByEmail` | backend/app/repositories/employee_repository.py:27-28 | the e-mail lookup on the stored employees |
| `EmployeeRepository.EmployeeRepository.Delete` | backend/app/repositories/employee_repository.py:30-32 | removes the given employee and its attendance; everything else stays |
| `EmployeeRepository.EmployeeRepository.GetAllDepartments` | backend/app/repositories/employee_repository.py:34-36 | the distinct departments of the stored employees |
| `AttendanceRepository.ByEmployee` | backend/app/repositories/attendance_repository.py:18-21 | exactly the rows of that employee, each as often as stored, sorted by date descending |
| `AttendanceRepository.ByEmployeeAndDate` | backend/app/repositories/attendance_repository.py:23-27 | a row matching both the employee and the date, or none iff no row matches both |
| `AttendanceRepository.Join` | backend/app/repositories/attendance_repository.py:30-32 | the pairs are exactly a stored row with a stored employee whose key the row names |
| `AttendanceRepository.AllWithEmployees` | backend/app/repositories/attendance_repository.py:29-37 | the joined pairs, only those of the filter date when there is one, sorted by date descending |
| `AttendanceRepository.JoinOnePerRow` | backend/app/repositories/attendance_repository.py:30-32 | with unique keys and resolving references, the join has one pair per row, in storage order |
| `AttendanceRepository.AllWithEmployeesComplete` | backend/app/repositories/attendance_repository.py:29-37 | with unique keys and resolving references, the unfiltered listing has one pair per stored row and contains every row |
| `AttendanceRepository.AttendanceRepository.constructor` | backend/app/repositories/attendance_repository.py:8-9 | the repository works on the given session |
| `AttendanceRepository.AttendanceRepository.Create` | backend/app/repositories/attendance_repository.py:11-16 | stores the new row as the insert says, or leaves the table alone when refused |
| `AttendanceRepository.AttendanceRepository.GetByEmployeeId` | backend/app/repositories/attendance_repository.py:18-21 | the per-employee query on the stored rows |
| `AttendanceRepository.AttendanceRepository.GetByEmployeeAndDate` | backend/app/repositories/attendance_repository.py:23-27 | the employee-and-date lookup on the stored rows |
| `AttendanceRepository.AttendanceRepository.GetAllWithEmployees` | backend/app/repositories/attendance_repository.py:29-37 | the joined, filtered, sorted query on the stored tables |
| `Http.ServiceDetail` | backend/app/services/employee_service.py:12-28 | every refusal the code raises carries a non-empty `detail`; the database refusal of the unguarded insert, and only it, carries none |
| `Http.ServiceAndRouterAgree` | backend/app/routers/employees.py:14-18 | services and routers give every refusal the same status code and the same detail, except a duplicate employee identifier, whose details differ |
| `Http.NotFoundDetailNamesKey` | backend/app/services/attendance_service.py:18-21 | the 404 detail names the key: different keys give different texts |
| `AttendanceRules.Mark` | backend/app/services/attendance_service.py:15-42 | 404 iff the employee is unknown; 400 iff the employee is known and a row already exists for that employee and day (checked second); a validated request for a known employee with no row that day always succeeds, so the database never has a constraint left to refuse; any refusal leaves the tables unchanged; success appends exactly one row and reports the employee id, date, status and employee name |
| `AttendanceRules.MarkValidNeverFails` | backend/app/services/attendance_service.py:15-42 | a validated request is refused only with a 404 or a 400, never with the database's 500 |
| `AttendanceRules.MarkConsistent` | backend/app/services/attendance_service.py:15-42 | marking keeps every table constraint |
| `AttendanceRules.MarkAllKeepsDaysUnique` | backend/app/services/attendance_service.py:23-33 | after any sequence of marks, no two rows share an employee and a date |
| `AttendanceRules.MarkKeepsDaysUnique` | backend/app/services/attendance_service.py:23-33 | one mark keeps employee-and-date pairs unique |
| `AttendanceRules.EmployeeAttendance` | backend/app/services/attendance_service.py:44-50 | an unknown employee gets 404, and only an unknown one |
| `AttendanceRules.EmployeeAttendanceIsTheirs` | backend/app/services/attendance_service.py:52-64 | every reported row is a stored row of that employee, unchanged, reported under that employee's name |
| `AttendanceRules.EmployeeAttendanceReportsAll` | backend/app/services/attendance_service.py:52-64 | every stored row of that employee is reported |
| `AttendanceRules.EmployeeAttendanceNewestFirst` | backend/app/repositories/attendance_repository.py:18-21 | the employee's listing is sorted by date, descending |
| `AttendanceRules.AllAttendance` | backend/app/services/attendance_service.py:66-79 | sorted by date descending; only rows of the filter date when there is one; each is a stored row, unchanged, reported under the name of the employee it names |
| `AttendanceRules.AllAttendanceComplete` | backend/app/services/attendance_service.py:66-79 | on consistent tables, the unfiltered listing reports every stored row, once each |
| `AttendanceRules.AllAttendanceOfDay` | backend/app/routers/attendance.py:79-82 | on consistent tables, the listing for a day reports every row of that day |
| `EmployeeRules.Create` | backend/app/services/employee_service.py:12-28 | 400 iff the identifier is in use; otherwise 400 iff the e-mail is in use; a refusal changes nothing; success appends exactly one employee and reports it |
| `EmployeeRules.CreateConsistent` | backend/app/services/employee_service.py:12-28 | creating keeps every table constraint |
| `EmployeeRules.CreateRefusedOnlyForLongEmail` | backend/app/models.py:12 | a validated, unused employee is refused by the database iff its e-mail is longer than the 200-character column |
| `EmployeeRules.CreateAllKeepsUnique` | backend/app/services/employee_service.py:13-28 | after any sequence of creates, identifiers and e-mails stay unique |
| `EmployeeRules.CreateKeepsUnique` | backend/app/services/employee_service.py:13-28 | one create keeps identifiers and e-mails unique |
| `EmployeeRules.Delete` | backend/app/services/employee_service.py:34-42 | 404 iff the key is unknown, leaving the tables unchanged; otherwise the cascading delete |
| `EmployeeRules.DeleteRemovesOne` | backend/app/services/employee_service.py:34-42 | deleting a stored employee removes exactly one employee row, and the rest stay in order |
| `EmployeeRules.DeleteConsistent` | backend/app/services/employee_service.py:34-42 | deleting keeps every table constraint |
| `EmployeeRules.AllEmployees` | backend/app/services/employee_service.py:30-32 | one response per stored employee, in storage order, carrying every column of that row: key, identifier, name, e-mail, department and creation time |
| `AttendanceService.AttendanceService.constructor` | backend/app/services/attendance_service.py:11-13 | both repositories work on the same session |
| `AttendanceService.AttendanceService.MarkAttendance` | backend/app/services/attendance_service.py:15-42 | for a body that passed schema validation: answers and updates the store exactly as `Mark` says, with the service's detail texts, never answers 500, and keeps the store consistent |
| `AttendanceService.AttendanceService.GetEmployeeAttendance` | backend/app/services/attendance_service.py:44-64 | answers as `EmployeeAttendance` says |
| `AttendanceService.AttendanceService.GetAllAttendance` | backend/app/services/attendance_service.py:66-79 | answers as `AllAttendance` says |
| `EmployeeService.EmployeeService.constructor` | backend/app/services/employee_service.py:9-10 | the repository works on the given session |
| `EmployeeService.EmployeeService.CreateEmployee` | backend/app/services/employee_service.py:12-28 | for a body that passed schema validation: answers and updates the store exactly as `Create` says, and keeps the store consistent |
| `EmployeeService.EmployeeService.GetAllEmployees` | backend/app/services/employee_service.py:30-32 | one response per stored employee |
| `EmployeeService.EmployeeService.DeleteEmployee` | backend/app/services/employee_service.py:34-42 | answers and updates the store exactly as `Delete` says, and keeps the store consistent |
| `EmployeeService.EmployeeService.GetAllDepartments` | backend/app/services/employee_service.py:44-46 | the distinct departments of the stored employees |
| `AttendanceRouter.MarkAttendance` | backend/app/routers/attendance.py:10-42 | for a body that passed schema validation: the same rule as the service (404, then 400, then one new row), with the router's detail texts, never a 500 |
| `AttendanceRouter.GetEmployeeAttendance` | backend/app/routers/attendance.py:44-68 | the same answer as the service: 404 or the employee's rows, newest first |
| `AttendanceRouter.GetAllAttendance` | backend/app/routers/attendance.py:70-95 | the same answer as the service: the joined rows, filtered by date, newest first |
| `EmployeeRouter.CreateEmployee` | backend/app/routers/employees.py:9-33 | for a body that passed schema validation: the same rule as the service (400 on identifier, then on e-mail, then one new employee), with the router's detail texts |
| `EmployeeRouter.GetEmployees` | backend/app/routers/employees.py:35-38 | every stored employee |
| `EmployeeRouter.DeleteEmployee` | backend/app/routers/employees.py:39-50 | the same rule as the service: 404 or the cascading delete |

## Findings

| source | as written | input that shows it | evidently intended | confidence | as-written member | corrected member |
|---|---|---|---|---|---|---|
| frontend/src/services/api.js:15-16 | The interceptor rejects with `new Error(message)`, which has no `response`. Both forms read `err.response?.data?.detail`, so they always show `An unexpected error occurred.` | a mark-attendance call for unknown employee 7, refused with 404, detail `Employee with ID 7 not found` | the form shows the server's detail when there is one (the interceptor keeps the response, or the forms read `err.message`) | high, by reading; not executed | `Api.FormsNeverSeeDetailAsWritten`, `Api.FormDetailLostExample` | `Api.Reject`, `Api.FormsShowDetail` |

The two form classes take the rejected error as it arrives, so either interceptor can be plugged in: `RejectAsWritten(f)` gives the code's behaviour and `Reject(f)` the intended one.

## Left out

- Time zones and time of day are not modelled. Every date is a calendar triple. The UTC `toISOString` day in the forms and the dashboard, the local `format`/`startOfWeek` in the list, and the UTC-midnight parse of `new Date('YYYY-MM-DD')` are treated as the same day. The 23:59:59.999 end that `endOfWeek`/`endOfMonth` carry is not modelled.
- Display formatting is not modelled: `MMM d, yyyy`, `Pp`, JSX, CSS, `EmptyState`, `ConfirmModal`, routing in `App.jsx`. The pages `Employees.jsx` and `Attendance.jsx` are plumbing and are not part of this model.
- `setTimeout` has no timing and no cancellation. A timer's expiry is the event `ResetTimerFires`; several pending timers are counted.
- Async interleavings are not modelled. A collaborator call's start and its outcome are separate methods; an outcome requires the form to be loading.
- Axios, HTTP transport, `console.error` and the `alert` on a failed employee delete are not modelled.
- HTML constraint validation is not modelled (`required`, the date input's `max`). `HandleSubmit` requires only what the disabled button enforces.
- The 422 that FastAPI answers before any handler runs, when a body breaks the schema (backend/app/schemas.py), is not modelled as a response: `AttendanceService.AttendanceService.MarkAttendance`, `AttendanceRouter.MarkAttendance`, `EmployeeService.EmployeeService.CreateEmployee` and `EmployeeRouter.CreateEmployee` require a valid body (`AttendanceBaseValid`, `EmployeeBaseValid`) instead, and `Schemas.EmployeeErrors`/`Schemas.AttendanceErrors` state which fields a 422 would name. The rule functions `AttendanceRules.Mark` and `EmployeeRules.Create` stay total; given an invalid body they answer what the handler code would, which the endpoint never reaches.
- The server's `detail` is modelled as a string when the code raises an `HTTPException`. A validation error's list-shaped detail is not modelled. The database refusal (500) has no `detail` (`Http.ServiceDetail` is `None`): its body is the server's plain-text error page, which is not modelled.
- Case folding is ASCII only. JavaScript's `toLowerCase` folds all of Unicode.
- `parseInt` is read in base 10 only; its `0x` prefix is not modelled. The option values are decimal keys.
- Database sessions, commit, refresh and transactions are not modelled. Timestamps are a `now` parameter; auto-increment keys are a counter that never reuses a key.
- Row order without an `ORDER BY` is unspecified in SQL. `EmployeeRepository.EmployeeRepository.GetAll`, `EmployeeRules.AllEmployees` and `AttendanceRepository.Join` return rows in storage order, which stands for that unspecified order; so does the order of rows that share a date after the date sorts. The properties that matter to callers (which rows, sortedness by date) do not depend on it.
- Insert refusals (HTTP 500) assume the database engine enforces the declared constraints, including the `String(n)` widths.
- Pydantic's `EmailStr` format check is a library and is not modelled.
- `controllers/*.py` only delegate to the services; they and `main.py` (app, CORS, environment) are not part of this model.
