/** `log_admin_login` and `log_admin_logout` in auditlog_auth_signals.py: each login or logout of a staff
    member or superuser appends one audit entry; other users leave no trace. */
module AuditlogAuthSignals {
  import opened Wrappers
  import opened Models
  import opened Web

  /** Custom action code the handlers record for both events. */
  const AuthAction: int := 4
  /** The content type of the user model. */
  const UserContentType: string := "auth.user"

  datatype AdminUser = AdminUser(pk: int, username: string, isStaff: bool, isSuperuser: bool)

  datatype AuthEvent = LoggedIn | LoggedOut

  predicate IsAdmin(u: AdminUser)
  {
    u.isStaff || u.isSuperuser
  }

  /** The entry the handler for `event` creates; `id` is the id the database assigns. */
  function AuthEntry(event: AuthEvent, u: AdminUser, ip: IpAttr, id: int, now: Instant): (e: LogEntry)
    ensures e.actor == Some(u.pk) && e.objectId == u.pk && e.action == AuthAction
    ensures e.remoteAddr == AuditlogIpOrNone(ip) && e.timestamp == now
    ensures event.LoggedIn? ==>
              e.objectRepr == "Admin login: " + u.username &&
              e.changes == Dict(map["message" := "Admin user " + u.username + " logged in."])
    ensures event.LoggedOut? ==>
              e.objectRepr == "Admin logout: " + u.username &&
              e.changes == Dict(map["message" := "Admin user " + u.username + " logged out."])
  {
    var repr, message := if event.LoggedIn? then "Admin login: " + u.username else "Admin logout: " + u.username,
                         if event.LoggedIn? then "Admin user " + u.username + " logged in."
                         else "Admin user " + u.username + " logged out.";
    LogEntry(id, Some(u.pk), AuthAction, UserContentType, u.pk, repr, AuditlogIpOrNone(ip), Dict(map["message" := message]), now)
  }

  /** `log_admin_login`: the audit table after the `user_logged_in` signal. */
  method LogAdminLogin(u: AdminUser, ip: IpAttr, log: seq<LogEntry>, newId: int, now: Instant)
    returns (log': seq<LogEntry>)
    ensures !IsAdmin(u) ==> log' == log
    ensures IsAdmin(u) ==> log' == log + [AuthEntry(LoggedIn, u, ip, newId, now)]
  {
    if !(u.isStaff || u.isSuperuser) {
      return log;
    }
    log' := log + [AuthEntry(LoggedIn, u, ip, newId, now)];
  }

  /** `log_admin_logout`: the audit table after the `user_logged_out` signal. */
  method LogAdminLogout(u: AdminUser, ip: IpAttr, log: seq<LogEntry>, newId: int, now: Instant)
    returns (log': seq<LogEntry>)
    ensures !IsAdmin(u) ==> log' == log
    ensures IsAdmin(u) ==> log' == log + [AuthEntry(LoggedOut, u, ip, newId, now)]
  {
    if !(u.isStaff || u.isSuperuser) {
      return log;
    }
    log' := log + [AuthEntry(LoggedOut, u, ip, newId, now)];
  }

  /** The login and logout entries of a user differ only in their description and message. */
  lemma LoginAndLogoutAreSymmetric(u: AdminUser, ip: IpAttr, id: int, now: Instant)
    ensures var a, b := AuthEntry(LoggedIn, u, ip, id, now), AuthEntry(LoggedOut, u, ip, id, now);
            && a.(objectRepr := b.objectRepr, changes := b.changes) == b
            && a.objectRepr != b.objectRepr
  {
    var a, b := AuthEntry(LoggedIn, u, ip, id, now), AuthEntry(LoggedOut, u, ip, id, now);
    assert a.objectRepr[9] == 'i' && b.objectRepr[9] == 'o';
  }
}
