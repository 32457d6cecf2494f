# Staff attendance core, modelled in Dafny

This project models the logic of a Django staff-attendance and commission application, together with
the three browser scripts it ships. It covers:

- the idle watcher that logs an idle employee out after 300 seconds;
- the reminder web worker and the service-amount display;
- attendance-session bookkeeping: login, logout, the single-device check, and the two stale-session
  sweepers;
- request gating: the employee page guard, client-IP extraction, and the IP allow-list;
- the admin OTP login state machine over the session keys `admin_otp` and `admin_otp_user`;
- the admin display helpers, the worksheet and attendance reports, the AllowedIP override buttons and
  the renewal-task action;
- the two data-fix commands, the two context processors, and the two audit-log signal handlers.

Tables are sequences of records, and a database write returns the new table. Timestamps are integer
microseconds (`Models.Instant`), and calendar dates are day numbers (`Models.Day`); the reminder worker
uses milliseconds, as the script does. Money is integer hundredths of a rupee, and Decimal's
`quantize(Decimal('0.01'))` is written out as round-half-even (`Commission.RoundHalfEven`).

Code that changes state in place takes that form here. The module-level variables of the two scripts
and the widget are classes (`IdleWatcher.Watcher`, `ReminderWorker.Worker`,
`ServiceAmount.AmountWidget`). The session map of the OTP view is `AdminOtpLogin.AdminLoginSession`.
Each loop of the source is a `method` with its invariants, proved against a function that states the
resulting table. The pure rules are functions and lemmas.

Several rules are modelled as the code reads, not as its comments or names suggest:

- The idle watcher navigates to `/login/` on success, although the login route is the empty path.
- `SingleDeviceSessionMiddleware` excludes every path that starts with `reverse('login')`. That is `/`,
  so the pass returns early on every request (`Middleware.RootLoginExcludesEverything`).
- `close_stale_sessions()` writes the same reason, `Auto-logout: Tab closed`, on both of its branches.
- `geofence_check` reads `request.json`, which does not exist on a Django request. A request without
  form fields is therefore answered 400 "Invalid coordinates".
- With `assign_type == 'sharing'` and an unknown partner, the view reports an error, but the application
  it already created stays, with no assignment (`Commission.UnknownPartnerKeepsApplication`).
- In `worksheet_report_view` a non-numeric `employee` parameter makes `Employee.objects.get(pk=...)`
  raise `ValueError`. The page then shows "Invalid month format".
- Rounding the two sharing amounts separately can lose a paisa against the `own` amount
  (`Commission.SeparateRoundingLosesAPaisa`).
- Neither middleware module is listed in the project's `MIDDLEWARE` setting. They are modelled as
  their code reads.

## Model

| member | source | states |
|---|---|---|
| IdleWatcher.Step | management/static/management/js/auto_logout.js:2-32 | one handler run: the request trace grows by at most one request, only on a tick, and that request is the logout POST; the counter and navigation it keeps are pinned by `IdleTicks`, `IdleIsTicksSinceActivity` and `NavigationOnlyOnSuccess` |
| IdleWatcher.Run | management/static/management/js/auto_logout.js:2-32 | the handlers run in event order; what a run does is stated by `IdleIsTicksSinceActivity`, `OnlyLogoutRequests`, `ActivityRestartsCountdown` and `NavigationOnlyOnSuccess` |
| IdleWatcher.Ticks | management/static/management/js/auto_logout.js:10-11 | n ticks are n `Tick` events with nothing else in between |
| IdleWatcher.Copies | management/static/management/js/auto_logout.js:15-24 | n identical logout requests, one per firing tick |
| IdleWatcher.IdleTicks | management/static/management/js/auto_logout.js:10-34 | n idle ticks add exactly n to the counter, never navigate, and append one identical logout request for each tick at which the incremented counter is at least 300 |
| IdleWatcher.FirstRequestAtLimit | management/static/management/js/auto_logout.js:11-16| from the start, 299 idle ticks send nothing and the 300th sends exactly one request |
| IdleWatcher.RetryEveryTick | management/static/management/js/auto_logout.js:11-32| once the counter has reached 299, every further idle tick sends another request, with no cap or backoff |
| IdleWatcher.ActivityRestartsCountdown | management/static/management/js/auto_logout.js:2-15| after an activity event, n ticks send what n ticks from a zero counter send, whatever the earlier counter |
| IdleWatcher.IdleIsTicksSinceActivity | management/static/management/js/auto_logout.js:2-11| the counter equals the number of ticks since the last activity event, in any event sequence |
| IdleWatcher.OnlyLogoutRequests | management/static/management/js/auto_logout.js:16-24 | the request trace only grows, and every request added is the POST to `/logout/` with the startup CSRF token, form content type and body `logout_reason=Employee is not working` |
| IdleWatcher.NavigationOnlyOnSuccess | management/static/management/js/auto_logout.js:25-32 | the page navigates to `/login/` exactly when some response was ok; a failed response or fetch never navigates |
| IdleWatcher.Watcher.constructor | management/static/management/js/auto_logout.js:1-8| the counter starts at 0 with the token read once |
| IdleWatcher.Watcher.OnActivity | management/static/management/js/auto_logout.js:2-6 | the new state is one activity step: the counter is 0 and nothing else changes |
| IdleWatcher.Watcher.OnTick | management/static/management/js/auto_logout.js:10-33 | the new state is one tick step, and the diagnostic log fires exactly on multiples of 60 without changing state |
| IdleWatcher.Watcher.OnResponse | management/static/management/js/auto_logout.js:25-32 | the new state is one response step |
| ReminderWorker.Due | management/static/management/js/reminder_worker.js:4-19 | the notifications of one check, in list order; characterized by `DueExactly` and `DueInOrder` |
| ReminderWorker.DueExactly | management/static/management/js/reminder_worker.js:4-19 | a check posts a notification for a task exactly when 0 < due − now ≤ 1000 ms, carrying the task unchanged, and posts no more notifications than there are tasks |
| ReminderWorker.NotDueNotPosted | management/static/management/js/reminder_worker.js:11 | a task already due, or more than a second away, is not posted |
| ReminderWorker.DueInOrder | management/static/management/js/reminder_worker.js:6-16| notifications follow task-list order: checking a concatenated list posts the notifications for each part in turn |
| ReminderWorker.Worker.constructor | management/static/management/js/reminder_worker.js:1 | the worker starts with an empty task list and no polling loop |
| ReminderWorker.Worker.OnMessage | management/static/management/js/reminder_worker.js:22-30 | `load_tasks` replaces the whole list; `start` adds one polling loop and keeps the list; other messages change nothing |
| ReminderWorker.Worker.CheckReminders | management/static/management/js/reminder_worker.js:4-19 | a check posts exactly the due notifications of the current list and does not change the list |
| ServiceAmount.DisplayText | management/static/management/service_amount.js:6-15 | the text is empty exactly when no option is selected, its value is empty, or its `data-amount` is missing or empty; otherwise it is the rupee prefix followed by the attribute verbatim |
| ServiceAmount.DisplayDependsOnSelection | management/static/management/service_amount.js:6-15 | two dropdowns with the same selected option show the same text |
| ServiceAmount.AmountWidget.constructor | management/static/management/service_amount.js:2-4 | no listener is attached before the page has loaded |
| ServiceAmount.AmountWidget.DomContentLoaded | management/static/management/service_amount.js:2-18| the listener is attached and the text computed only when both elements exist; otherwise nothing changes |
| ServiceAmount.AmountWidget.OnChange | management/static/management/service_amount.js:17 | once attached, each change recomputes the text from the current selection |
| Middleware.AttendanceGuard | management/middleware.py:12-40 | the session is flushed and the request redirected exactly when the path is guarded, `employee_id` is set and the employee has no open session; otherwise the request passes unchanged |
| Middleware.AuditlogIp | management/middleware.py:47-53 | `auditlog_ip` is the untrimmed text before the first comma of a non-empty X-Forwarded-For, otherwise REMOTE_ADDR |
| Middleware.OpenCount | management/middleware.py:73 | the number of the employee's open sessions is 0 exactly when none is open |
| Middleware.LatestOpen | management/middleware.py:73-76| the session `order_by('-login_time')` puts first: open, for the employee, with the greatest login time |
| Middleware.EndAllBut | management/middleware.py:78-83 | every open session of the employee other than the kept one is ended with the multiple-sessions reason; other rows are unchanged |
| Middleware.KeepLatestOpen | management/middleware.py:73-83 | the table after the de-duplication loop, keeping the latest open session |
| Middleware.CloseAllBut | management/middleware.py:78-86 | the loop's table equals `EndAllBut`, and the session is flushed exactly when the request's `attendance_session_id` is one of the closed sessions |
| Middleware.SingleDevicePass | management/middleware.py:60-94 | nothing changes without an employee, for an unknown one or on an excluded path; with several open sessions only the latest survives, and the request is redirected or its `attendance_session_id` set to the latest; with one, it is set to that one |
| Middleware.OneOpenSessionSurvives | management/middleware.py:73-83 | after the pass the employee has exactly one open session, the latest, and every closed one carries the reason, the time and status `ended` |
| Middleware.RootLoginExcludesEverything | management/middleware.py:66-67 | with the login route at `/`, the single-device pass applies to no path |
| IpRestriction.GetClientIp | management/ip_restriction.py:16-22 | the first comma-separated X-Forwarded-For entry, untrimmed, when the header is non-empty, otherwise REMOTE_ADDR |
| IpRestriction.RestrictIp | management/ip_restriction.py:3-14| the request is denied with "Access denied." exactly when the extracted IP is not one of the two allowed addresses; an allowed request gets the downstream response unchanged |
| IpRestriction.FirstHopDecides | management/ip_restriction.py:10-13 | an allowed first hop passes whatever follows the first comma |
| IpRestriction.UntrimmedEntryDenied | management/ip_restriction.py:11-19 | any X-Forwarded-For value starting with a space is denied, whatever follows it and whatever REMOTE_ADDR is, because the first entry is not trimmed |
| IpRestriction.SameAsAuditlogIp | management/ip_restriction.py:16-22 | the allow-list check and the audit middleware extract the same IP from the same headers |
| StaleCleanup.Swept | management/stale_cleanup.py:13-40 | the table after a sweep has as many rows as before |
| StaleCleanup.FoundMessage | management/stale_cleanup.py:27-29 | the count line is printed exactly when the count is positive |
| StaleCleanup.CloseStaleSessions | management/stale_cleanup.py:13-40 | the loop's table is the sweep's table, and the count is the number of stale sessions: open, and pinged before the cutoff or never pinged with a login before the cutoff |
| StaleCleanup.RecentPingKeepsSession | management/stale_cleanup.py:21-24 | in any table, every session pinged at or after now − 15 minutes is left unchanged by the sweep, however old its login |
| StaleCleanup.OnlyLogoutFieldsWritten | management/stale_cleanup.py:32-40 | only logout time and reason are written, and unselected sessions are untouched |
| StaleCleanup.SweepIsIdempotent | management/stale_cleanup.py:18-32| a second sweep at the same time finds nothing stale and changes nothing |
| CloseStaleSessions.Lines | management/management/commands/close_stale_sessions.py:17-19 | one success line per closed session |
| CloseStaleSessions.Handle | management/management/commands/close_stale_sessions.py:9-20 | a session is closed exactly when it is open and pinged before now − 70 s; it gets logout time equal to the cutoff and the tab/browser reason, and nothing else changes; the k-th printed line reports the k-th selected session, which the result holds closed at the cutoff |
| CloseStaleSessions.SelectedAreClosed | management/management/commands/close_stale_sessions.py:11-19 | every session the query selects appears, closed at the cutoff, in the table after the command |
| CloseStaleSessions.ClosedAll | management/management/commands/close_stale_sessions.py:11-18 | the table after the command keeps its length |
| CloseStaleSessions.OnlyTwoFieldsWritten | management/management/commands/close_stale_sessions.py:15-18 | a closed session gets the cutoff as logout time and the tab/browser reason, and no other field changes; unselected sessions are untouched |
| CloseStaleSessions.RerunSelectsNothing | management/management/commands/close_stale_sessions.py:11-18 | after the command a rerun at the same cutoff selects nothing, prints nothing and changes nothing |
| CloseStaleSessions.NeverPingedUntouched | management/management/commands/close_stale_sessions.py:11-13 | a session never pinged is never selected |
| AdminOtpLogin.Posted | management/admin_otp_login.py:10-16| a request other than POST offers no form fields |
| AdminOtpLogin.OtpText | management/utils.py:4-5 | a generated OTP is six decimal digits |
| AdminOtpLogin.Issue | management/admin_otp_login.py:27-53| issuing stores the code and the user's pk, sends the code to the user's mobile and renders the OTP page |
| AdminOtpLogin.AdminLoginWithOtp | management/admin_otp_login.py:7-64 | the logged-in user changes only together with the redirect to `/admin/`; the employee keys change only when that login replaces another recorded user, and then the whole session is flushed down to the new user; otherwise they are kept |
| AdminOtpLogin.Login | management/admin_otp_login.py:40 | the user is recorded; a session that recorded another user is flushed first, so none of its keys survive; otherwise every other key is kept |
| AdminOtpLogin.UsernameStepUntouched | management/admin_otp_login.py:10-11 | a GET, or a POST without `username`, renders the username page with the session untouched |
| AdminOtpLogin.OtherMethodIsUnknownUser | management/admin_otp_login.py:10-21| another method reads an empty form and is answered as an unknown username |
| AdminOtpLogin.UnknownUsername | management/admin_otp_login.py:17-21 | an unknown username gives the error and the username page with no session change |
| AdminOtpLogin.ResendOverwrites | management/admin_otp_login.py:25-32 | for a mobile user `resend` wins over an entered code and overwrites the stored code and user |
| AdminOtpLogin.FirstVisitIssuesCode | management/admin_otp_login.py:47-53 | a mobile user with neither `resend` nor a code is issued and sent a fresh code |
| AdminOtpLogin.MismatchRedirects | management/admin_otp_login.py:33-38 | a code entered when the stored user is another one, or none, redirects to `/admin/login/` without login |
| AdminOtpLogin.MatchLogsInAndConsumes | management/admin_otp_login.py:39-43 | the matching user and code log in and remove both OTP keys; if another user was logged in, the session is flushed and holds only the new user |
| AdminOtpLogin.ReplayIsRejected | management/admin_otp_login.py:36-43 | the same code submitted again after a successful login is a session mismatch |
| AdminOtpLogin.WrongCodeKeepsState | management/admin_otp_login.py:44-46 | a wrong code leaves the stored code and user in place, with no attempt limit |
| AdminOtpLogin.PasswordPathNeedsStaff | management/admin_otp_login.py:54-64 | a user without a mobile number is logged in exactly when a password is given, it authenticates, and the user is staff or superuser; replacing another logged-in user erases the employee keys |
| AdminOtpLogin.OtpPathSkipsStaffCheck | management/admin_otp_login.py:39-43 | a mobile user who is neither staff nor superuser is logged in by the right code |
| AdminOtpLogin.AdminLoginSession.constructor | management/admin_otp_login.py:7 | the session map starts as given |
| AdminOtpLogin.AdminLoginSession.Visit | management/admin_otp_login.py:7-64 | one visit rewrites the session map as the view does and returns its response |
| Views.EndAllOpen | management/views.py:173-183 | the table after the login's override loop has as many rows as before |
| Views.EndOpenSessions | management/views.py:173-183 | the loop ends every open session of the employee with the override reason and status `ended`, and leaves other rows alone |
| Views.LatestOpenBreak | management/views.py:197-200 | the break `order_by('-start_time').first()` returns: open, for the employee, with the latest start |
| Views.EndLatestBreak | management/views.py:197-204 | only that break ends, now, marked as ended by login |
| Views.EmployeeLogin | management/views.py:152-224 | unknown mobile, then locked account, then equal password, then wrong password, with their messages; a success writes the employee and new session ids into the session, closes the open sessions, logs the login, ends the latest break and adds one active session expiring 60 minutes later |
| Views.LoginLeavesOneOpenSession | management/views.py:172-217 | after a login the employee has exactly one open session, the new one |
| Views.LoginSatisfiesGuard | management/views.py:207-217 | after a login the attendance guard passes the employee on every path |
| Views.LoginEndsLatestBreakOnly | management/views.py:196-204 | a login ends only the most recent open break |
| Views.LogoutReason | management/views.py:276-292| the reason is the posted `logout_reason` if non-empty, otherwise `Manual Logout` |
| Views.BreakReason | management/views.py:314 | the break reason is the logout reason unless it contains "idle" in any letter case, then `Inactive - Auto Logout` |
| Views.WatcherReasonKept | management/views.py:314 | the idle watcher's reason reaches the break record verbatim |
| Views.IdleReasonMapped | management/views.py:314 | any reason containing "Idle" becomes the inactivity reason |
| Views.LogoutView | management/views.py:270-322 | the session is always flushed and the response redirects to login, except when the employee lookup crashes; without an employee, or with an unknown one, nothing is written; a known employee's tables become `LoggedOut` with the posted reason or `Manual Logout`; the employee table is never written |
| Views.LoggedOut | management/views.py:284-317 | the tables after a known employee logs out; `LogoutClosesLatestOnly` and `LogoutWithoutOpenSession` state both cases |
| Views.LogoutClosesLatestOnly | management/views.py:284-317 | with an open session, exactly the latest one is closed with the reason, one audit entry is added and exactly one open, unapproved break is created |
| Views.LogoutWithoutOpenSession | management/views.py:290 | with no open session a logout writes nothing |
| Views.PasswordError | management/views.py:244-254 | no error exactly when the old password matches, the new one is non-empty and the confirmation equals it; PasswordChecksInOrder gives the message of each failing case |
| Views.ChangePasswordRequest | management/views.py:229-261 | the table only changes when every check passes, and then only the employee's password changes |
| Views.SetPassword | management/views.py:256-257 | the employee table keeps its length |
| Views.NewPasswordStored | management/views.py:256-257 | the named employee is still found and now has the new password; every row keeps all its other fields, and other employees' rows are unchanged |
| Views.PasswordChecksInOrder | management/views.py:244-254 | for every request: a wrong old password gets "Old password is incorrect." whatever the new fields hold; with the right old password an empty new one gets "New password cannot be empty."; with both right a differing confirmation gets "New passwords do not match." |
| Views.PasswordChangeStoresNewPassword | management/views.py:252-259 | a passing change redirects to the dashboard and the employee, looked up again, has the new password |
| Views.DurationParts | management/views.py:529-532 | hours and minutes are whole, minutes are below 60, and hours·3600 + minutes·60 lies at most a minute below the total, never above it |
| Views.DurationText | management/views.py:529-537 | no duration gives `0h 0m` |
| Commission.RoundHalfEven | management/views.py:659-677| the result is within half a unit of n/d, and an exact half goes to the even neighbour |
| Commission.RoundingIsUnique | management/views.py:659-677| only one integer meets those two conditions |
| Commission.NeighboursCannotBothRound | management/views.py:659 | two integers one apart cannot both meet them |
| Commission.ExactShareKept | management/views.py:659 | an amount with no fraction of a paisa is not changed by rounding |
| Commission.CreateApplication | management/views.py:634-687 | an application is stored only with a numeric service type id and a total, and assignments are only stored on success |
| Commission.Share | management/views.py:659-677 | a share is the amount times the percentage rounded to the nearest paisa, ties to even |
| Commission.OwnCreatesOneAssignment | management/views.py:655-665 | `own` creates one assignment worth the total times the sum of both percentages, quantized to 0.01 |
| Commission.SharingCreatesTwoAssignments | management/views.py:667-680 | `sharing` with a known partner creates two assignments, each share quantized on its own |
| Commission.SharingWithoutPartnerStoresNothing | management/views.py:669-672 | `sharing` without a partner deletes the application again and reports the error |
| Commission.UnknownPartnerKeepsApplication | management/views.py:674-687| an unknown partner is an error, but the application stays without assignments |
| Commission.NonNumericServiceTypeStoresNothing | management/views.py:636-687 | a service type id that is not a number is reported as the field's `ValueError` and nothing is stored |
| Commission.NonNumericPartnerKeepsApplication | management/views.py:674-687 | a partner id that is not a number is reported as the field's `ValueError`, and the application stays without assignments |
| Commission.OtherTypeHasNoAssignment | management/views.py:654-682 | any other `assign_type` leaves an application with no assignments |
| Commission.SeparateRoundingLosesAPaisa | management/views.py:659-677| for 0.01 split 50/50 the shares sum to 0.00 while `own` gives 0.01 |
| Geofence.Enabled | management/views.py:89-94 | a missing settings row counts as enabled |
| Geofence.FirstWithin | management/views.py:99-104 | the first active area, in table order, whose radius contains the device |
| Geofence.GeofenceCheck | management/views.py:79-106 | unparsable coordinates give 400; disabled is allowed; otherwise allowed with the first containing area's name, or refused; with coordinates, allowed exactly when geofencing is off or some active area contains the device |
| Geofence.InactiveAreasIgnored | management/views.py:99 | inactive areas are never matched, whatever the distance |
| AdminDisplay.ChangesText | management/admin.py:48 | a string value is shown as itself |
| AdminDisplay.ChangesDisplay | management/admin.py:45-49 | empty for falsy changes; otherwise the first 120 characters, with `...` exactly when the text is longer |
| AdminDisplay.TodoShortDescription | management/admin.py:103-104 | the first 40 characters, plus `...` exactly when longer |
| AdminDisplay.UploadShortDescription | management/admin.py:753-756 | the first 30 characters, plus `...` exactly when longer |
| AdminDisplay.FileName | management/admin.py:761 | the shown name is a suffix of the storage name with no `/` |
| AdminDisplay.FileLink | management/admin.py:759-768 | `No file` without a file; else a link whose text is the name, or its first 12 characters plus `...` when over 15 |
| AdminDisplay.FileLinkShowsLastSegment | management/admin.py:761 | for `dir/name` the link shows the segment after the last `/` |
| AdminDisplay.RenewalBadge | management/admin.py:772-794 | `Not set` without a date; red at 0 or fewer days left, yellow at 1 to 7, plain beyond |
| AdminDisplay.BadgeOnlyEscalates | management/admin.py:781-794 | as days pass a red badge stays red and a yellow one never becomes plain |
| AdminReports.DaysInMonth | management/admin.py:331 | 28 to 31 days, with 29 in February exactly in leap years |
| AdminReports.NoEntriesTotalZero | management/admin.py:326-334 | a day without entries totals 0 |
| AdminReports.CommissionIsFivePercent | management/admin.py:335-342| the month's commission total is 5% of its amount total |
| AdminReports.WorksheetReport | management/admin.py:297-357 | one row per day of the month with that day's total and 5% of it, totals equal to the row sums; errors with no rows for an unknown employee or a malformed month |
| AdminReports.ReportCommissionTotal | management/admin.py:335-342 | a valid report's commission total is 5% of its amount total |
| AdminReports.TimeOfDay | management/admin.py:396 | the time of day lies within one day |
| AdminReports.AttendanceRemarks | management/admin.py:390-401 | one remark per record, `Late Login` exactly when the login time of day is after the start (default 23:59), and the count of records with both login and logout |
| AdminReports.LaterStartFlagsFewer | management/admin.py:390-397 | a later start time never flags more records as "Late Login" than an earlier one |
| AdminIp.DeleteDescribed | management/admin.py:707-727| the remaining rows are exactly those whose description is not listed |
| AdminIp.Activated | management/admin.py:708-711 | the marker row gets `0.0.0.0/0` and becomes active; other rows are unchanged |
| AdminIp.UpdateOrCreate | management/admin.py:708-711 | creates the marker row when absent, updates it when there is one, and fails with two or more |
| AdminIp.EnforceIpList | management/admin.py:726-730 | both marker rows are removed, the other rows stay, and the cache is cleared |
| AdminIp.Switch | management/admin.py:706-724 | the delete followed by `update_or_create` that both buttons share; `SwitchState` states its outcome |
| AdminIp.EnableAllowAll | management/admin.py:706-714 | fails exactly when two `GLOBAL_ALLOW_ALL` rows exist; otherwise no `GLOBAL_BLOCK` row is left, exactly one active `0.0.0.0/0` allow-all row is, the other rows are kept, the cache is cleared and the success message is shown |
| AdminIp.BlockAllIps | management/admin.py:716-724 | fails exactly when two `GLOBAL_BLOCK` rows exist; otherwise no `GLOBAL_ALLOW_ALL` row is left, exactly one active `0.0.0.0/0` block row is, the other rows are kept, the cache is cleared and the error-level message is shown |
| AdminIp.CreateSettles | management/admin.py:708-711 | creating the marker settles the override state |
| AdminIp.ActivateSettles | management/admin.py:708-711 | updating the one marker settles the override state |
| AdminIp.SwitchState | management/admin.py:706-724 | a switch removes every opposite marker and leaves exactly one active `0.0.0.0/0` marker, with the other rows kept and the cache cleared |
| AdminIp.KeepsOthersThroughDelete | management/admin.py:707-717| non-marker rows survive the delete step |
| AdminIp.SettledSwitchKeepsRows | management/admin.py:707-721| a switch from its own settled state leaves the table as it is |
| AdminIp.ButtonsAreIdempotent | management/admin.py:706-724 | pressing allow-all or block-all a second time gives the same table and message as pressing it once |
| AdminRenewal.RenewalTasks | management/admin.py:816-833 | at most one task per selected upload, each for the chosen employee; `TasksFollowSelection` pins them one to one to the dated uploads |
| AdminRenewal.AssignRenewalTaskToOther | management/admin.py:802-844 | without a valid confirmation the form is shown and nothing is created; with one, the tasks for the dated uploads are appended and the message reports their number and the employee |
| AdminRenewal.TasksFollowSelection | management/admin.py:816-833 | the tasks match the dated uploads one to one and in order; their number is the number of uploads with a renewal date |
| AdminRenewal.DueOnRenewalDay | management/admin.py:827-831 | each task is for the chosen employee and due at 23:59 on the renewal date |
| AdminRenewal.DescriptionCut | management/admin.py:823-826 | the description keeps only the first 40 characters of the upload's description |
| FixAuditlogChanges.Fixed | management/management/commands/fix_auditlog_changes.py:11-15 | the table keeps its length |
| FixAuditlogChanges.Handle | management/management/commands/fix_auditlog_changes.py:8-16 | the loop's table is the normalised table, and the counter and the message report the number of string-valued entries |
| FixAuditlogChanges.NormalisedEntry | management/management/commands/fix_auditlog_changes.py:12-14 | a string `s` becomes `{"message": s}`, other values stay, and only `changes` is written |
| FixAuditlogChanges.SecondRunIsNoOp | management/management/commands/fix_auditlog_changes.py:11-15 | afterwards no entry holds a string, so a second run updates nothing |
| PopulateRenewalDates.PopulatedAll | management/management/commands/populate_renewal_dates.py:18-23 | the table keeps its length |
| PopulateRenewalDates.Handle | management/management/commands/populate_renewal_dates.py:10-29 | the loop's table is the populated table; the found count is the uploads without a date; the updated count is those with an upload time; both lines are printed |
| PopulateRenewalDates.OnlyRenewalDateWritten | management/management/commands/populate_renewal_dates.py:12-22| only the renewal date is written, an existing date is kept, and a candidate without an upload time stays without a date |
| PopulateRenewalDates.RenewalIsAYearLater | management/management/commands/populate_renewal_dates.py:21 | the filled date is the upload day plus 365 |
| PopulateRenewalDates.UpdatedAtMostFound | management/management/commands/populate_renewal_dates.py:14-23| the updated count never exceeds the found count |
| PopulateRenewalDates.RerunFillsNothing | management/management/commands/populate_renewal_dates.py:12-22| a rerun fills nothing and changes nothing |
| PopulateRenewalDates.RerunFindsUnfilled | management/management/commands/populate_renewal_dates.py:12-19| a rerun finds exactly the candidates the first run could not fill, those without an upload time |
| RenewalAlerts.Insert | management/context_processors_renewal.py:14 | one insertion step of the ordering: the same uploads plus the new one |
| RenewalAlerts.InsertKeepsOrder | management/context_processors_renewal.py:14 | inserting into an ordered list keeps it ordered by renewal date |
| RenewalAlerts.OrderByRenewal | management/context_processors_renewal.py:14 | the ordering is a permutation of its input |
| RenewalAlerts.OrderIsAscending | management/context_processors_renewal.py:14 | the ordering is ascending by renewal date |
| RenewalAlerts.RenewalAlertsProcessor | management/context_processors_renewal.py:4-22 | `{}` unless the path is exactly `/admin/`; otherwise the expired uploads, ascending, with their count and a flag set exactly when there is one |
| RenewalAlerts.ListedIffExpired | management/context_processors_renewal.py:11-13 | an upload is listed exactly when its renewal date is set and not after today |
| RenewalAlerts.ListedIffBadgeRed | management/context_processors_renewal.py:11-13 | an upload is listed exactly when its admin badge is red |
| RenewalAlerts.DueTomorrowListedTomorrow | management/context_processors_renewal.py:12 | today is included: an upload due tomorrow is listed tomorrow, not today |
| NotificationsContext.UnreadNotificationCount | management/context_processors.py:3-11 | 0 without `employee_id`; otherwise the number of that employee's unread statuses, which never exceeds their statuses |
| NotificationsContext.UnreadAtMostOwned | management/context_processors.py:9 | unread statuses of an employee are among their statuses |
| NotificationsContext.OtherEmployeesIgnored | management/context_processors.py:3-11 | other employees' statuses never affect the badge count: it is the same over the employee's own rows, and adding someone else's status leaves it unchanged |
| NotificationsContext.Marked | management/views.py:1056-1058 | the table keeps its length |
| NotificationsContext.MarkNotificationAsRead | management/views.py:1050-1061 | a 404 when no status of the employee has that pk; otherwise the status is marked read |
| NotificationsContext.MarkedCount | management/views.py:1056-1058 | marking lowers the unread count by the number of unread rows it matched |
| NotificationsContext.UniqueMatchCount | management/views.py:1054 | with one match, at most that row is an unread match |
| NotificationsContext.MarkingLowersCountByOne | management/views.py:1054-1058 | marking an unread status lowers the employee's badge count by one; marking a read one leaves it unchanged |
| NotificationsContext.MarkingNeverRaisesCount | management/views.py:1054-1058 | whatever status is marked, the employee's badge count never grows |
| NotificationsContext.MarkingTwiceChangesNothing | management/views.py:1054-1058 | marking the same status again changes nothing |
| AuditlogSignals.RequestOf | management/auditlog_signals.py:17-19 | the instance's request is used; the thread-local one only when it is absent |
| AuditlogSignals.Stamped | management/auditlog_signals.py:27-29 | the table keeps its length |
| AuditlogSignals.SetIpAddress | management/auditlog_signals.py:15-29 | without an entry nothing happens; the entry is deleted unless the user is authenticated and staff or superuser; a kept entry gets `auditlog_ip` only when the request has it |
| AuditlogSignals.DeletionRemovesOnlyThatEntry | management/auditlog_signals.py:24-25 | the deleted entry is gone and every other entry stays |
| AuditlogSignals.OnlyRemoteAddrWritten | management/auditlog_signals.py:27-29 | only `remote_addr` is written, and only on that entry |
| AuditlogAuthSignals.AuthEntry | management/auditlog_auth_signals.py:17-43| action 4, the user's pk as actor and object, `Admin login: <username>` or `Admin logout: <username>`, the matching message, and `auditlog_ip` or none |
| AuditlogAuthSignals.LogAdminLogin | management/auditlog_auth_signals.py:12-26 | a staff or superuser login appends exactly that entry; other users record nothing |
| AuditlogAuthSignals.LogAdminLogout | management/auditlog_auth_signals.py:29-43 | a staff or superuser logout appends exactly that entry; other users record nothing |
| AuditlogAuthSignals.LoginAndLogoutAreSymmetric | management/auditlog_auth_signals.py:22-41| the login and logout entries differ only in their description and message |

## Left out

- I/O and rendering: templates, `render`, `redirect`, `messages` and form classes are response tags and
  message strings. HTML escaping by `format_html` is not modelled.
- Browser plumbing: DOM listeners, the CSRF meta lookup and console output are left out. Timers are
  explicit tick calls, and each `fetch` result is delivered as its own event.
- The geolocation button script is pure DOM wiring.
- Floating point: the haversine distance is an uninterpreted function parameter, and coordinates are
  reals. The float working-hours division is outside the model.
- `send_otp_whatsapp` is a network call and is returned as a record of the call. `generate_otp`'s
  randomness is a parameter restricted to its range, and `authenticate` is a parameter giving its result.
- The APScheduler thread that runs the stale-session sweep is concurrency.
- Timezones: `localtime`, `make_aware` and the Asia/Kolkata zone are not modelled. Instants are UTC-free
  integers, and `.date()` is day-number division.
- The `strftime` text of the renewal badge date is not modelled; the badge carries the day number.
- StaleCleanup.CloseStaleSessions: `timezone.now()` is read anew for each row in the source; the model
  uses one `now` for the whole sweep.
- Ties in `order_by('-login_time')` and `order_by('-start_time')` go to the earliest row in table order.
  Ties in `order_by('renewal_date')` keep no particular order (the database's order is unspecified).
- Decimal is integer hundredths: amounts with more than two decimal places and the 28-digit context
  limit are not modelled.
- `Strings.Lower` folds ASCII letters only.
- AdminOtpLogin.Login: the session key itself is not modelled, so cycling it (when no user was recorded) keeps the data unchanged. The session auth hash is not modelled either, so a session that records the same user with a stale hash is not flushed here, though Django flushes it.
- `str()` of a dict value in `changes_display` is a parameter: Python's `repr` is not computed.
- The `require_employee` decorator of `mark_notification_as_read` is not modelled; the view takes the
  resolved employee.
- The `refresh_session`, `attendance_ping` and other views are not part of this model.
- The model methods `get_daily_attendance_summary`, `get_current_month_earnings`, `duration` and
  `is_active` are not part of this model. Their results are inputs.
- management/models.py is a stale schema. Record fields come from how the core code uses them.
- URL configuration and settings are not part of this model, except the login route used as a parameter.
- AdminRenewal.AssignRenewalTaskToOther: form validation of the chosen employee is an input
  (`InvalidChoice`), not computed.
- Commission.CreateApplication: which posted text Python's `int()` accepts as an id is an input
  (`PostedId`), not computed, and the rejected text is quoted as `'text'` without `repr`'s escaping.
- Geofence.GeofenceCheck: parsing `float()` of the posted fields is an input (`None` when it raises).
- AuditlogSignals.SetIpAddress: the entry is identified by its id; the object passed by the signal
  is not modelled.
