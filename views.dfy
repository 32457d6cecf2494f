/** The employee session views of views.py: password login, logout, the password change form and the
    duration text of the attendance page. */
module Views {
  import opened Wrappers
  import opened Strings
  import opened Tables
  import opened Models
  import opened Web
  import Middleware

  const OverrideReason: string := "New Login Override (Logged in from another device)"
  const ManualLogout: string := "Manual Logout"
  const IdleBreakReason: string := "Inactive - Auto Logout"
  const EmployeeContentType: string := "management.employee"
  const LoginAction: int := 4
  const SessionLength: int := 60 * MicrosPerMinute

  /** The tables the views read and write. */
  datatype Db = Db(
    employees: seq<Employee>,
    sessions: seq<AttendanceSession>,
    breaks: seq<BreakSession>,
    log: seq<LogEntry>)

  datatype Flash = Error(text: string) | Success(text: string)

  /** A response, with the `messages` flash it carries; redirect targets are URL names. */
  datatype Response =
    | Page(template: string, flash: Option<Flash>, mobile: Option<string>)
    | Redirect(target: string, flash: Option<Flash>)
    | ServerError

  /** What the request offers: its method and the POST fields read (`None` for a missing key). */
  datatype LoginRequest = LoginRequest(httpMethod: HttpMethod, mobile: Option<string>, password: Option<string>)

  function EmployeeWithMobile(employees: seq<Employee>, mobile: Option<string>): Lookup<Employee>
  {
    Get(employees, (e: Employee) => mobile == Some(e.mobileNumber))
  }

  /** The open sessions of the employee, all ended as overridden by the new login. */
  function EndAllOpen(sessions: seq<AttendanceSession>, employeeId: int, now: Instant): (r: seq<AttendanceSession>)
    ensures |r| == |sessions|
  {
    seq(|sessions|, i requires 0 <= i < |sessions| =>
      if IsOpenFor(sessions[i], employeeId) then EndSession(sessions[i], now, OverrideReason) else sessions[i])
  }

  /** The loop over `open_attendance_sessions` in `employee_login`. */
  method EndOpenSessions(sessions: seq<AttendanceSession>, employeeId: int, now: Instant)
    returns (r: seq<AttendanceSession>)
    ensures r == EndAllOpen(sessions, employeeId, now)
  {
    r := sessions;
    var i := 0;
    while i < |sessions|
      invariant 0 <= i <= |sessions| && |r| == |sessions|
      invariant forall j :: 0 <= j < i ==> r[j] == EndAllOpen(sessions, employeeId, now)[j]
      invariant forall j :: i <= j < |sessions| ==> r[j] == sessions[j]
    {
      var old_session := r[i];
      if old_session.employeeId == employeeId && old_session.logoutTime.None? && !old_session.sessionClosed {
        old_session := old_session.(logoutTime := Some(now), logoutReason := OverrideReason);
        old_session := old_session.(sessionClosed := true, sessionStatus := "ended");
        r := r[i := old_session];
      }
      i := i + 1;
    }
  }

  predicate IsOpenBreakFor(b: BreakSession, employeeId: int)
  {
    b.employeeId == employeeId && b.endTime.None?
  }

  function OpenBreakFor(employeeId: int): BreakSession -> bool
  {
    (b: BreakSession) => IsOpenBreakFor(b, employeeId)
  }

  /** `BreakSession.objects.filter(employee=..., end_time__isnull=True).order_by('-start_time').first()`. */
  function LatestOpenBreak(breaks: seq<BreakSession>, employeeId: int): (k: Option<nat>)
    ensures k.None? <==> forall i :: 0 <= i < |breaks| ==> !IsOpenBreakFor(breaks[i], employeeId)
    ensures k.Some? ==> k.value < |breaks| && IsOpenBreakFor(breaks[k.value], employeeId)
    ensures k.Some? ==> forall i :: 0 <= i < |breaks| && IsOpenBreakFor(breaks[i], employeeId) ==>
                          breaks[i].startTime <= breaks[k.value].startTime
  {
    Latest(breaks, OpenBreakFor(employeeId), (b: BreakSession) => b.startTime)
  }

  /** The break table after a login: the latest open break, if any, ends now and is marked as ended by
      the login. */
  function EndLatestBreak(breaks: seq<BreakSession>, employeeId: int, now: Instant): (r: seq<BreakSession>)
    ensures |r| == |breaks|
  {
    match LatestOpenBreak(breaks, employeeId)
    case None => breaks
    case Some(k) => breaks[k := breaks[k].(endTime := Some(now), endedByLogin := true)]
  }

  /** The session `employee_login` creates. */
  function NewSession(id: int, employeeId: int, now: Instant): AttendanceSession
  {
    AttendanceSession(id, employeeId, now, None, "", false, "active", None, Some(now + SessionLength), Some(now))
  }

  /** The audit entry for a login or logout; `actor` is `request.user` when it is authenticated. */
  function EmployeeEntry(id: int, actor: Option<int>, e: Employee, ip: IpAttr, message: string, now: Instant): LogEntry
  {
    LogEntry(id, actor, LoginAction, EmployeeContentType, e.employeeId, e.display, AuditlogIpOrNone(ip),
             Dict(map["message" := message]), now)
  }

  /** `employee_login`. `newSessionId` and `newLogId` are the ids the database assigns to the created
      rows; `actor` is the authenticated `request.user`, if any. */
  method EmployeeLogin(r: LoginRequest, db: Db, session: SessionData, now: Instant, actor: Option<int>, ip: IpAttr,
                       newSessionId: int, newLogId: int)
    returns (db': Db, session': SessionData, response: Response)
    ensures r.httpMethod != POST ==> db' == db && session' == session && response == Page("login.html", None, None)
    ensures r.httpMethod == POST && EmployeeWithMobile(db.employees, r.mobile).DoesNotExist? ==>
              db' == db && session' == session &&
              response == Page("login.html", Some(Error("Employee with this mobile number not found.")), None)
    ensures r.httpMethod == POST && EmployeeWithMobile(db.employees, r.mobile).MultipleObjectsReturned? ==>
              db' == db && session' == session && response == ServerError
    ensures r.httpMethod == POST && EmployeeWithMobile(db.employees, r.mobile).Found? ==>
              var e := EmployeeWithMobile(db.employees, r.mobile).row;
              && (e.locked ==>
                    db' == db && session' == session &&
                    response == Page("login.html", Some(Error("Your account is locked. Please contact the admin.")), r.mobile))
              && (!e.locked && r.password != Some(e.password) ==>
                    db' == db && session' == session &&
                    response == Page("login.html", Some(Error("Incorrect password. Please try again.")), r.mobile))
              && (!e.locked && r.password == Some(e.password) ==>
                    && db'.employees == db.employees
                    && db'.sessions == EndAllOpen(db.sessions, e.employeeId, now) + [NewSession(newSessionId, e.employeeId, now)]
                    && db'.breaks == EndLatestBreak(db.breaks, e.employeeId, now)
                    && db'.log == db.log + [EmployeeEntry(newLogId, actor, e, ip, "User login via password", now)]
                    && session' == session.(employeeId := Some(e.employeeId), attendanceSessionId := Some(newSessionId))
                    && response == Redirect("employee_dashboard", None))
  {
    db', session' := db, session;
    if r.httpMethod != POST {
      response := Page("login.html", None, None);
      return;
    }
    var found := EmployeeWithMobile(db.employees, r.mobile);
    if found.DoesNotExist? {
      response := Page("login.html", Some(Error("Employee with this mobile number not found.")), None);
      return;
    } else if found.MultipleObjectsReturned? {
      response := ServerError;
      return;
    }
    var employee := found.row;
    if employee.locked {
      response := Page("login.html", Some(Error("Your account is locked. Please contact the admin.")), r.mobile);
      return;
    }
    if r.password == Some(employee.password) {
      session' := session'.(employeeId := Some(employee.employeeId));
      var sessions := EndOpenSessions(db.sessions, employee.employeeId, now);
      var log := db.log + [EmployeeEntry(newLogId, actor, employee, ip, "User login via password", now)];
      var breaks := db.breaks;
      var lastBreak := LatestOpenBreak(breaks, employee.employeeId);
      if lastBreak.Some? {
        var k := lastBreak.value;
        breaks := breaks[k := breaks[k].(endTime := Some(now), endedByLogin := true)];
      }
      sessions := sessions + [NewSession(newSessionId, employee.employeeId, now)];
      session' := session'.(attendanceSessionId := Some(newSessionId));
      db' := Db(db.employees, sessions, breaks, log);
      response := Redirect("employee_dashboard", None);
    } else {
      response := Page("login.html", Some(Error("Incorrect password. Please try again.")), r.mobile);
    }
  }

  /** After a login the employee has exactly one open session, the new one, and every session that was
      open before is ended as overridden; the sessions of other employees are untouched. */
  lemma {:induction false} LoginLeavesOneOpenSession(sessions: seq<AttendanceSession>, employeeId: int, now: Instant, newId: int)
    ensures var r := EndAllOpen(sessions, employeeId, now) + [NewSession(newId, employeeId, now)];
            && Middleware.OpenCount(r, employeeId) == 1
            && Middleware.LatestOpen(r, employeeId) == Some(|sessions|)
            && (forall i :: 0 <= i < |sessions| && IsOpenFor(sessions[i], employeeId) ==>
                  r[i].logoutTime == Some(now) && r[i].logoutReason == OverrideReason && r[i].sessionStatus == "ended")
            && (forall i :: 0 <= i < |sessions| && sessions[i].employeeId != employeeId ==> r[i] == sessions[i])
  {
    var r := EndAllOpen(sessions, employeeId, now) + [NewSession(newId, employeeId, now)];
    CountSingle(r, Middleware.OpenFor(employeeId), |sessions|);
  }

  /** After a login the attendance guard lets the employee through on every page. */
  lemma LoginSatisfiesGuard(path: string, session: SessionData, sessions: seq<AttendanceSession>, employeeId: int,
                            now: Instant, newId: int)
    ensures var r := EndAllOpen(sessions, employeeId, now) + [NewSession(newId, employeeId, now)];
            Middleware.AttendanceGuard(path, session.(employeeId := Some(employeeId)), r).1 == Middleware.Continue
  {
    var r := EndAllOpen(sessions, employeeId, now) + [NewSession(newId, employeeId, now)];
    assert IsOpenFor(r[|sessions|], employeeId);
  }

  /** A login ends only the most recent open break; other breaks keep their state. */
  lemma LoginEndsLatestBreakOnly(breaks: seq<BreakSession>, employeeId: int, now: Instant)
    ensures var r := EndLatestBreak(breaks, employeeId, now);
            var k := LatestOpenBreak(breaks, employeeId);
            && (k.None? ==> r == breaks)
            && (k.Some? ==> r[k.value].endTime == Some(now) && r[k.value].endedByLogin
                            && forall i :: 0 <= i < |breaks| && i != k.value ==> r[i] == breaks[i])
  {
  }

  /** The reason stored on the session: the POSTed `logout_reason` if non-empty, else `Manual Logout`. */
  function LogoutReason(posted: string): (reason: string)
    ensures posted != "" ==> reason == posted
    ensures posted == "" ==> reason == ManualLogout
    ensures reason != ""
  {
    if posted != "" then posted else ManualLogout
  }

  /** The reason stored on the break: the logout reason, unless it mentions "idle" in any letter case. */
  function BreakReason(reason: string): (b: string)
    ensures Contains(Lower(reason), "idle") ==> b == IdleBreakReason
    ensures !Contains(Lower(reason), "idle") ==> b == reason
  {
    if Contains(Lower(reason), "idle") then IdleBreakReason else reason
  }

  /** The idle watcher's reason holds no "idle", so it reaches the break record verbatim. */
  lemma WatcherReasonKept()
    ensures BreakReason(LogoutReason("Employee is not working")) == "Employee is not working"
  {
    var s := Lower("Employee is not working");
    assert s == "employee is not working";
    assert "idle"[1] == 'd';
    MissingCharNotContained(s, "idle", 'd');
  }

  /** A reason mentioning "Idle" becomes the inactivity break reason. */
  lemma IdleReasonMapped(prefix: string, suffix: string)
    ensures BreakReason(prefix + "Idle" + suffix) == IdleBreakReason
  {
    var s := prefix + "Idle" + suffix;
    var low := Lower(s);
    assert low[|prefix|..|prefix| + 4] == "idle";
    assert OccursAt(low, "idle", |prefix|);
  }

  datatype LogoutRequest = LogoutRequest(httpMethod: HttpMethod, logoutReason: Option<string>)

  /** The submitted reason: `request.POST.get('logout_reason', '')` on a POST, "" otherwise. */
  function PostedReason(r: LogoutRequest): string
  {
    if r.httpMethod == POST then r.logoutReason.GetOr("") else ""
  }

  /** The session closed by a logout; its status is left as it was. */
  function CloseForLogout(s: AttendanceSession, now: Instant, reason: string): AttendanceSession
  {
    s.(logoutTime := Some(now), logoutReason := reason, sessionClosed := true)
  }

  /** The break a logout opens, ended by the next login. */
  function LogoutBreak(id: int, employeeId: int, now: Instant, reason: string): BreakSession
  {
    BreakSession(id, employeeId, now, None, BreakReason(reason), false, false)
  }

  /** The tables after the logout of a known employee. */
  function LoggedOut(db: Db, e: Employee, now: Instant, reason: string, actor: Option<int>, ip: IpAttr,
                     newBreakId: int, newLogId: int): Db
  {
    match Middleware.LatestOpen(db.sessions, e.employeeId)
    case None => db
    case Some(k) =>
      db.(sessions := db.sessions[k := CloseForLogout(db.sessions[k], now, reason)],
          log := db.log + [EmployeeEntry(newLogId, actor, e, ip, "User logout: " + reason, now)],
          breaks := db.breaks + [LogoutBreak(newBreakId, e.employeeId, now, reason)])
  }

  /** `logout_view`: the tables afterwards, the session (flushed) and the response. */
  function LogoutView(r: LogoutRequest, db: Db, session: SessionData, now: Instant, actor: Option<int>, ip: IpAttr,
                      newBreakId: int, newLogId: int): (res: (Db, SessionData, Response))
    ensures res.2 != ServerError ==> res.1 == EmptySession && res.2 == Redirect("login", None)
    ensures res.2 == ServerError <==>
              HasEmployee(session) && Middleware.EmployeeById(db.employees, session.employeeId.value).MultipleObjectsReturned?
    ensures !HasEmployee(session) ==> res.0 == db
    ensures HasEmployee(session) ==>
              match Middleware.EmployeeById(db.employees, session.employeeId.value)
              case Found(e) => res.0 == LoggedOut(db, e, now, LogoutReason(PostedReason(r)), actor, ip, newBreakId, newLogId)
              case _ => res.0 == db
    ensures res.0.employees == db.employees
  {
    var reason := LogoutReason(PostedReason(r));
    if HasEmployee(session) then
      match Middleware.EmployeeById(db.employees, session.employeeId.value)
      case DoesNotExist => (db, EmptySession, Redirect("login", None))
      case MultipleObjectsReturned => (db, session, ServerError)
      case Found(e) => (LoggedOut(db, e, now, reason, actor, ip, newBreakId, newLogId), EmptySession, Redirect("login", None))
    else
      (db, EmptySession, Redirect("login", None))
  }

  /** A logout with an open session closes exactly that most recent one, adds exactly one open,
      unapproved break and one audit entry, and closes nothing else. */
  lemma LogoutClosesLatestOnly(db: Db, e: Employee, now: Instant, reason: string, actor: Option<int>, ip: IpAttr,
                               newBreakId: int, newLogId: int)
    requires Middleware.OpenCount(db.sessions, e.employeeId) > 0
    ensures var k := Middleware.LatestOpen(db.sessions, e.employeeId).value;
            var after := LoggedOut(db, e, now, reason, actor, ip, newBreakId, newLogId);
            && |after.sessions| == |db.sessions|
            && after.sessions[k].logoutTime == Some(now) && after.sessions[k].logoutReason == reason
            && after.sessions[k].sessionClosed && after.sessions[k].sessionStatus == db.sessions[k].sessionStatus
            && (forall i :: 0 <= i < |db.sessions| && i != k ==> after.sessions[i] == db.sessions[i])
            && after.breaks == db.breaks + [LogoutBreak(newBreakId, e.employeeId, now, reason)]
            && after.breaks[|db.breaks|].endTime.None? && !after.breaks[|db.breaks|].approved
            && |after.log| == |db.log| + 1
  {
  }

  /** With no open session a logout writes nothing, but the session is flushed all the same. */
  lemma LogoutWithoutOpenSession(db: Db, e: Employee, now: Instant, reason: string, actor: Option<int>, ip: IpAttr,
                                 newBreakId: int, newLogId: int)
    requires Middleware.OpenCount(db.sessions, e.employeeId) == 0
    ensures LoggedOut(db, e, now, reason, actor, ip, newBreakId, newLogId) == db
  {
  }

  datatype PasswordRequest = PasswordRequest(
    httpMethod: HttpMethod,
    oldPassword: Option<string>,
    newPassword: Option<string>,
    confirmPassword: Option<string>)

  const PasswordTemplate: string := "change_password_request.html"

  /** The first failed check of the password form, in the order the view makes them. */
  function PasswordError(r: PasswordRequest, current: string): (err: Option<string>)
    ensures err.None? <==> r.oldPassword == Some(current) && Filled(r.newPassword) && r.newPassword == r.confirmPassword
  {
    if r.oldPassword != Some(current) then Some("Old password is incorrect.")
    else if !Filled(r.newPassword) then Some("New password cannot be empty.")
    else if r.newPassword != r.confirmPassword then Some("New passwords do not match.")
    else None
  }

  /** `change_password_request`: the employee table afterwards and the response. */
  function ChangePasswordRequest(r: PasswordRequest, employees: seq<Employee>, session: SessionData): (res: (seq<Employee>, Response))
    ensures |res.0| == |employees|
    ensures res.0 != employees ==>
              && HasEmployee(session) && r.httpMethod == POST
              && var e := Middleware.EmployeeById(employees, session.employeeId.value);
                 e.Found? && PasswordError(r, e.row.password).None?
  {
    if !HasEmployee(session) then (employees, Redirect("login", None))
    else
      var id := session.employeeId.value;
      match Middleware.EmployeeById(employees, id)
      case DoesNotExist => (employees, Redirect("login", None))
      case MultipleObjectsReturned => (employees, ServerError)
      case Found(e) =>
        if r.httpMethod != POST then (employees, Page(PasswordTemplate, None, None))
        else
          match PasswordError(r, e.password)
          case Some(msg) => (employees, Page(PasswordTemplate, Some(Error(msg)), None))
          case None =>
            (SetPassword(employees, id, r.newPassword.value),
             Redirect("employee_dashboard", Some(Success("Password changed successfully! You can now use the new password."))))
  }

  /** The employee table with the password of the employee `id` replaced. */
  function SetPassword(employees: seq<Employee>, id: int, password: string): (r: seq<Employee>)
    ensures |r| == |employees|
  {
    seq(|employees|, i requires 0 <= i < |employees| =>
      if employees[i].employeeId == id then employees[i].(password := password) else employees[i])
  }

  /** After the save the employee is found as before and their stored password is the new one; every
      row keeps all its other fields, and rows of other employees are untouched. */
  lemma NewPasswordStored(employees: seq<Employee>, id: int, password: string)
    requires Middleware.EmployeeById(employees, id).Found?
    ensures var r := SetPassword(employees, id, password);
            && Middleware.EmployeeById(r, id).Found?
            && Middleware.EmployeeById(r, id).row.password == password
            && (forall i :: 0 <= i < |employees| ==> r[i].(password := employees[i].password) == employees[i])
            && (forall i :: 0 <= i < |employees| && employees[i].employeeId != id ==> r[i] == employees[i])
  {
    var r := SetPassword(employees, id, password);
    CountPointwise(employees, r, (e: Employee) => e.employeeId == id);
    var row := Middleware.EmployeeById(r, id).row;
    var j :| 0 <= j < |r| && r[j] == row;
  }

  /** The checks come in a fixed order and each failure has its own message: a wrong old password is
      reported whatever the new fields hold, an empty new password whatever the confirmation holds. */
  lemma PasswordChecksInOrder(r: PasswordRequest, current: string)
    ensures r.oldPassword != Some(current) ==> PasswordError(r, current) == Some("Old password is incorrect.")
    ensures r.oldPassword == Some(current) && !Filled(r.newPassword) ==>
              PasswordError(r, current) == Some("New password cannot be empty.")
    ensures r.oldPassword == Some(current) && Filled(r.newPassword) && r.newPassword != r.confirmPassword ==>
              PasswordError(r, current) == Some("New passwords do not match.")
  {
  }

  /** A successful change stores the new password and redirects to the dashboard; the employee can now
      log in with it. */
  lemma PasswordChangeStoresNewPassword(r: PasswordRequest, employees: seq<Employee>, session: SessionData)
    requires HasEmployee(session) && r.httpMethod == POST
    requires Middleware.EmployeeById(employees, session.employeeId.value).Found?
    requires PasswordError(r, Middleware.EmployeeById(employees, session.employeeId.value).row.password).None?
    ensures var res := ChangePasswordRequest(r, employees, session);
            && res.0 == SetPassword(employees, session.employeeId.value, r.newPassword.value)
            && Middleware.EmployeeById(res.0, session.employeeId.value).Found?
            && Middleware.EmployeeById(res.0, session.employeeId.value).row.password == r.newPassword.value
            && res.1.Redirect? && res.1.target == "employee_dashboard"
  {
    NewPasswordStored(employees, session.employeeId.value, r.newPassword.value);
  }

  /** The `duration_str` of a session: whole hours and the remaining whole minutes of its length in
      seconds, `0h 0m` when there is no duration. */
  function DurationParts(duration: Option<int>): (hm: (int, int))
    ensures var total := if duration.Some? then duration.value else 0;
            && 0 <= hm.1 < 60
            && hm.0 * 3600 + hm.1 * 60 <= total < hm.0 * 3600 + hm.1 * 60 + 60
  {
    var total := if duration.Some? then duration.value else 0;
    (total / 3600, (total % 3600) / 60)
  }

  function DurationText(duration: Option<int>): (text: string)
    ensures duration.None? ==> text == "0h 0m"
  {
    var hm := DurationParts(duration);
    IntToString(hm.0) + "h " + IntToString(hm.1) + "m"
  }
}
