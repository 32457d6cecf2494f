/** The three request middlewares of middleware.py: the attendance-session guard on employee pages, the
    audit IP stamp, and the single-device check that keeps one open attendance session per employee. */
module Middleware {
  import opened Wrappers
  import opened Strings
  import opened Tables
  import opened Models
  import opened Web

  const EmployeePrefixes: seq<string> := [
    "/employee/dashboard/", "/employee/attendance/", "/employee/attendance_ping/",
    "/employee/refresh_session/", "/worksheet/", "/notifications/", "/change-password/",
    "/upload-file/", "/todos/", "/applications/", "/links/", "/assigned-tasks/",
    "/create-invoice/", "/invoice/"]

  /** `reverse('logout')` and the refresh endpoint, both excluded from the single-device check. */
  const LogoutPath: string := "/logout/"
  const RefreshPath: string := "/employee/refresh_session/"
  const MultipleSessionsReason: string := "Auto-logout: Multiple sessions detected"

  /** `any(path.startswith(p) for p in prefixes)`. */
  predicate StartsWithAny(path: string, prefixes: seq<string>)
  {
    exists i :: 0 <= i < |prefixes| && prefixes[i] <= path
  }

  /** The pages the attendance guard applies to. */
  predicate IsGuardedPath(path: string)
  {
    && !("/admin/" <= path) && !("/api/" <= path) && !("/logout/" <= path)
    && (path == "/" || StartsWithAny(path, EmployeePrefixes))
  }

  /** What a middleware does with the request: let it through, answer with a redirect to the login
      page, or fail with an uncaught exception. */
  datatype Outcome = Continue | RedirectToLogin | ServerError

  /** `EmployeeAttendanceSessionMiddleware.process_request`: on a guarded path a logged-in employee with
      no open attendance session has the session flushed and is redirected; every other request passes
      with the session as it was. */
  function AttendanceGuard(path: string, session: SessionData, sessions: seq<AttendanceSession>): (r: (SessionData, Outcome))
    ensures r.1 == RedirectToLogin <==>
              IsGuardedPath(path) && HasEmployee(session) &&
              forall i :: 0 <= i < |sessions| ==> !IsOpenFor(sessions[i], session.employeeId.value)
    ensures r.1 == RedirectToLogin ==> r.0 == EmptySession
    ensures r.1 != RedirectToLogin ==> r == (session, Continue)
  {
    if IsGuardedPath(path) && HasEmployee(session) then
      var id := session.employeeId.value;
      var hasActive := OpenCount(sessions, id) > 0;
      if !hasActive then (EmptySession, RedirectToLogin) else (session, Continue)
    else
      (session, Continue)
  }

  /** `AuditlogIPMiddleware.process_request`: the value it stores in `request.auditlog_ip`, the text
      before the first comma of a non-empty X-Forwarded-For (not trimmed), otherwise REMOTE_ADDR. */
  function AuditlogIp(meta: Meta): (ip: Option<string>)
    ensures meta.forwardedFor.Some? && meta.forwardedFor.value != "" ==>
              var xff := meta.forwardedFor.value;
              ip.Some? && ip.value <= xff && ',' !in ip.value && (ip.value == xff || xff[|ip.value|] == ',')
    ensures meta.forwardedFor.None? || meta.forwardedFor.value == "" ==> ip == meta.remoteAddr
  {
    if meta.forwardedFor.Some? && meta.forwardedFor.value != "" then
      Some(FirstField(meta.forwardedFor.value, ','))
    else
      meta.remoteAddr
  }

  /** The selection `employee=..., logout_time__isnull=True, session_closed=False`. */
  function OpenFor(employeeId: int): AttendanceSession -> bool
  {
    (s: AttendanceSession) => IsOpenFor(s, employeeId)
  }

  /** `open_sessions.count()`. */
  function OpenCount(sessions: seq<AttendanceSession>, employeeId: int): (n: nat)
    ensures n == 0 <==> forall i :: 0 <= i < |sessions| ==> !IsOpenFor(sessions[i], employeeId)
  {
    CountZero(sessions, OpenFor(employeeId));
    Count(sessions, OpenFor(employeeId))
  }

  /** The open session of an employee that `order_by('-login_time')[0]` picks. */
  function LatestOpen(sessions: seq<AttendanceSession>, employeeId: int): (k: Option<nat>)
    ensures k.None? <==> OpenCount(sessions, employeeId) == 0
    ensures k.Some? ==> k.value < |sessions| && IsOpenFor(sessions[k.value], employeeId)
    ensures k.Some? ==> forall i :: 0 <= i < |sessions| && IsOpenFor(sessions[i], employeeId) ==>
                          sessions[i].loginTime <= sessions[k.value].loginTime
  {
    Latest(sessions, OpenFor(employeeId), (s: AttendanceSession) => s.loginTime)
  }

  /** The table with every open session of the employee ended, except the one at index `k`. */
  function EndAllBut(sessions: seq<AttendanceSession>, employeeId: int, k: Option<nat>, now: Instant): (r: seq<AttendanceSession>)
    ensures |r| == |sessions|
  {
    seq(|sessions|, i requires 0 <= i < |sessions| =>
      if Some(i) != k && IsOpenFor(sessions[i], employeeId)
      then EndSession(sessions[i], now, MultipleSessionsReason) else sessions[i])
  }

  /** The table after the single-device check closed every open session of the employee except the
      latest one. */
  function KeepLatestOpen(sessions: seq<AttendanceSession>, employeeId: int, now: Instant): (r: seq<AttendanceSession>)
    ensures |r| == |sessions|
  {
    EndAllBut(sessions, employeeId, LatestOpen(sessions, employeeId), now)
  }

  /** The paths the single-device check skips: a prefix test on the login URL, the logout URL and the
      refresh endpoint. */
  predicate IsExcludedPath(path: string, loginPath: string)
  {
    StartsWithAny(path, [loginPath, LogoutPath, RefreshPath])
  }

  /** `Employee.objects.get(employee_id=...)`. */
  function EmployeeById(employees: seq<Employee>, id: int): Lookup<Employee>
  {
    Get(employees, (e: Employee) => e.employeeId == id)
  }

  /** The single-device check acts on the request: a logged-in, known employee on a path it does not
      skip. */
  predicate Applies(session: SessionData, path: string, loginPath: string, employees: seq<Employee>)
  {
    && HasEmployee(session) && !IsExcludedPath(path, loginPath)
    && EmployeeById(employees, session.employeeId.value).Found?
  }

  /** The single-device check ends the session at index `j`: open, of the employee, not the latest. */
  predicate ClosedByCheck(sessions: seq<AttendanceSession>, employeeId: int, k: Option<nat>, j: int)
    requires 0 <= j < |sessions|
  {
    Some(j) != k && IsOpenFor(sessions[j], employeeId)
  }

  /** The request's attendance session is among those ended when all but index `k` are. */
  predicate HitsOwnSession(session: SessionData, sessions: seq<AttendanceSession>, employeeId: int, k: Option<nat>)
  {
    exists i :: 0 <= i < |sessions| && ClosedByCheck(sessions, employeeId, k, i) &&
                session.attendanceSessionId == Some(sessions[i].id)
  }

  /** The request's own attendance session is one of those the check closes. */
  predicate OwnSessionClosed(session: SessionData, sessions: seq<AttendanceSession>, employeeId: int)
  {
    HitsOwnSession(session, sessions, employeeId, LatestOpen(sessions, employeeId))
  }

  /** The loop over `open_sessions[1:]`, `k` being the latest session: ends each other open session and
      flushes the request's session when its own attendance session is among them. */
  method CloseAllBut(session: SessionData, sessions: seq<AttendanceSession>, id: int, k: Option<nat>, now: Instant)
    returns (session': SessionData, sessions': seq<AttendanceSession>, closedAny: bool)
    ensures sessions' == EndAllBut(sessions, id, k, now)
    ensures closedAny <==> HitsOwnSession(session, sessions, id, k)
    ensures session' == if closedAny then EmptySession else session
  {
    ghost var target := EndAllBut(sessions, id, k, now);
    session', sessions', closedAny := session, sessions, false;
    var i := 0;
    while i < |sessions|
      invariant 0 <= i <= |sessions| && |sessions'| == |sessions|
      invariant forall j :: 0 <= j < i ==> sessions'[j] == target[j]
      invariant forall j :: i <= j < |sessions| ==> sessions'[j] == sessions[j]
      invariant closedAny <==> exists j :: 0 <= j < i && ClosedByCheck(sessions, id, k, j) &&
                                           session.attendanceSessionId == Some(sessions[j].id)
      invariant session' == if closedAny then EmptySession else session
    {
      var s := sessions[i];
      if Some(i) != k && IsOpenFor(s, id) {
        sessions' := sessions'[i := EndSession(s, now, MultipleSessionsReason)];
        if session'.attendanceSessionId == Some(s.id) {
          session' := EmptySession;
          closedAny := true;
        }
      }
      i := i + 1;
    }
  }

  /** `SingleDeviceSessionMiddleware.process_request`. With several open sessions every one but the
      latest is ended with the multiple-sessions reason; if the request's own attendance session was
      among them the session is flushed and the request redirected, otherwise the request is pinned to
      the latest session. With exactly one open session the request is pinned to it. */
  method SingleDevicePass(session: SessionData, path: string, loginPath: string, employees: seq<Employee>,
                          sessions: seq<AttendanceSession>, now: Instant)
    returns (session': SessionData, sessions': seq<AttendanceSession>, outcome: Outcome)
    ensures !Applies(session, path, loginPath, employees) ==> sessions' == sessions && session' == session
    ensures outcome == ServerError <==>
              HasEmployee(session) && !IsExcludedPath(path, loginPath) &&
              EmployeeById(employees, session.employeeId.value).MultipleObjectsReturned?
    ensures Applies(session, path, loginPath, employees) ==>
              var id := session.employeeId.value;
              var n := OpenCount(sessions, id);
              && sessions' == (if n > 1 then KeepLatestOpen(sessions, id, now) else sessions)
              && (outcome == RedirectToLogin <==> n > 1 && OwnSessionClosed(session, sessions, id))
              && (outcome == RedirectToLogin ==> session' == EmptySession)
              && (outcome != RedirectToLogin && n >= 1 ==>
                    session' == session.(attendanceSessionId := Some(sessions[LatestOpen(sessions, id).value].id)))
              && (n == 0 ==> session' == session && outcome == Continue)
  {
    session', sessions', outcome := session, sessions, Continue;
    if !HasEmployee(session) || IsExcludedPath(path, loginPath) {
      return;
    }
    var id := session.employeeId.value;
    var found := EmployeeById(employees, id);
    if found.DoesNotExist? {
      return;
    }
    if found.MultipleObjectsReturned? {
      outcome := ServerError;
      return;
    }
    var open := OpenCount(sessions, id);
    var latest := LatestOpen(sessions, id);
    if open > 1 {
      var closedAny;
      session', sessions', closedAny := CloseAllBut(session, sessions, id, latest, now);
      if closedAny {
        outcome := RedirectToLogin;
        return;
      }
      session' := session.(attendanceSessionId := Some(sessions[latest.value].id));
    } else if open == 1 {
      session' := session.(attendanceSessionId := Some(sessions[latest.value].id));
    }
  }

  /** After the single-device check the employee has exactly one open session, the latest one, which is
      left as it was; sessions of other employees and closed sessions are untouched. */
  lemma OneOpenSessionSurvives(sessions: seq<AttendanceSession>, employeeId: int, now: Instant)
    requires OpenCount(sessions, employeeId) > 0
    ensures var k := LatestOpen(sessions, employeeId).value;
            var r := KeepLatestOpen(sessions, employeeId, now);
            && r[k] == sessions[k]
            && OpenCount(r, employeeId) == 1
            && forall i :: 0 <= i < |sessions| && !IsOpenFor(sessions[i], employeeId) ==> r[i] == sessions[i]
  {
    var k := LatestOpen(sessions, employeeId).value;
    var r := KeepLatestOpen(sessions, employeeId, now);
    CountSingle(r, OpenFor(employeeId), k);
  }

  /** With the login URL at `/` (the route `''`) every path is excluded, so the check changes nothing. */
  lemma RootLoginExcludesEverything(path: string, session: SessionData, employees: seq<Employee>)
    requires "/" <= path
    ensures !Applies(session, path, "/", employees)
  {
    assert [ "/", LogoutPath, RefreshPath ][0] <= path;
  }
}
