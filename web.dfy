/** What the core sees of an HTTP request: its method, the session dictionary, two META headers and the
    `auditlog_ip` attribute that the audit middleware attaches. */
module Web {
  import opened Wrappers

  datatype HttpMethod = GET | POST | OtherMethod

  /** The keys of `request.session` that the core reads and writes. `authUser` is the user that
      `django.contrib.auth.login` records. */
  datatype SessionData = SessionData(
    employeeId: Option<int>,
    attendanceSessionId: Option<int>,
    adminOtp: Option<string>,
    adminOtpUser: Option<int>,
    authUser: Option<int>)

  /** The session after `request.session.flush()`. */
  const EmptySession: SessionData := SessionData(None, None, None, None, None)

  /** `request.session.get('employee_id')` is truthy. */
  predicate HasEmployee(s: SessionData)
  {
    s.employeeId.Some? && s.employeeId.value != 0
  }

  /** A form field or attribute that Python treats as true: present and not the empty string. */
  predicate Filled(o: Option<string>)
  {
    o.Some? && o.value != ""
  }

  /** `HTTP_X_FORWARDED_FOR` and `REMOTE_ADDR` from `request.META`. */
  datatype Meta = Meta(forwardedFor: Option<string>, remoteAddr: Option<string>)

  /** The `auditlog_ip` attribute of a request: absent, or present with a possibly-`None` value. */
  datatype IpAttr = NoIpAttr | IpAttr(ip: Option<string>)

  /** `getattr(request, 'auditlog_ip', None)`. */
  function AuditlogIpOrNone(a: IpAttr): Option<string>
  {
    match a
    case NoIpAttr => None
    case IpAttr(ip) => ip
  }
}
