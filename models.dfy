/** The records the core reads and writes, with the fields its code uses. Timestamps are integer
    microseconds (`Instant`), calendar dates are day numbers (`Day`). */
module Models {
  import opened Wrappers

  type Instant = int
  type Day = int

  const MicrosPerSecond: int := 1_000_000
  const MicrosPerMinute: int := 60 * MicrosPerSecond
  const MicrosPerHour: int := 60 * MicrosPerMinute
  const MicrosPerDay: int := 24 * MicrosPerHour

  /** `t.date()`: the day an instant falls on. */
  function DateOf(t: Instant): Day
  {
    t / MicrosPerDay
  }

  /** A staff member; `display` is what `str(employee)` prints. */
  datatype Employee = Employee(
    employeeId: int,
    display: string,
    mobileNumber: string,
    password: string,
    locked: bool)

  /** One attendance session: opened at login, closed by logout or by one of the sweepers. */
  datatype AttendanceSession = AttendanceSession(
    id: int,
    employeeId: int,
    loginTime: Instant,
    logoutTime: Option<Instant>,
    logoutReason: string,
    sessionClosed: bool,
    sessionStatus: string,
    lastPing: Option<Instant>,
    sessionExpiresAt: Option<Instant>,
    refreshedAt: Option<Instant>)

  /** A session counts as open while it has no logout time and is not flagged closed. */
  predicate IsOpen(s: AttendanceSession)
  {
    s.logoutTime.None? && !s.sessionClosed
  }

  predicate IsOpenFor(s: AttendanceSession, employeeId: int)
  {
    s.employeeId == employeeId && IsOpen(s)
  }

  /** A session closed by a login elsewhere or by the single-device check. */
  function EndSession(s: AttendanceSession, now: Instant, reason: string): AttendanceSession
  {
    s.(logoutTime := Some(now), logoutReason := reason, sessionClosed := true, sessionStatus := "ended")
  }

  /** A break, started at logout and ended at the next login. */
  datatype BreakSession = BreakSession(
    id: int,
    employeeId: int,
    startTime: Instant,
    endTime: Option<Instant>,
    logoutReason: string,
    approved: bool,
    endedByLogin: bool)

  /** The JSON held in an audit entry's `changes` column. */
  datatype Changes = NullValue | Text(s: string) | Dict(fields: map<string, string>)

  /** An audit-log entry. */
  datatype LogEntry = LogEntry(
    id: int,
    actor: Option<int>,
    action: int,
    contentType: string,
    objectId: int,
    objectRepr: string,
    remoteAddr: Option<string>,
    changes: Changes,
    timestamp: Instant)

  /** A stored file: its storage name (empty when there is none) and its public URL. */
  datatype StoredFile = StoredFile(name: string, url: string)

  /** A document uploaded by an employee, with the date by which it must be renewed. */
  datatype EmployeeUpload = EmployeeUpload(
    id: int,
    employeeId: int,
    serviceName: Option<string>,
    description: string,
    file: StoredFile,
    uploadedAt: Option<Instant>,
    renewalDate: Option<Day>)

  /** A to-do item assigned to an employee. */
  datatype TodoTask = TodoTask(employeeId: int, description: string, dueTime: Instant)

  /** Whether one employee has read one notification. */
  datatype NotificationStatus = NotificationStatus(id: int, employeeId: int, notificationId: int, isRead: bool)

  /** A row of the IP allow-list. */
  datatype AllowedIp = AllowedIp(id: int, ipAddress: string, subnetPrefix: Option<string>, description: string, isActive: bool)
}
