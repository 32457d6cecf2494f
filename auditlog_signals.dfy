/** `set_ip_address` in auditlog_signals.py, run after the audit library writes an entry: entries made
    on behalf of anyone but an authenticated staff member or superuser are deleted, and kept entries
    get the client IP that the audit middleware attached to the request. */
module AuditlogSignals {
  import opened Wrappers
  import opened Tables
  import opened Models
  import opened Web

  /** `request.user`, as far as the guard looks at it. */
  datatype RequestUser = RequestUser(isAuthenticated: bool, isStaff: bool, isSuperuser: bool)

  /** A request: its `user` attribute (absent or `None` alike) and its `auditlog_ip` attribute. */
  datatype AuditRequest = AuditRequest(user: Option<RequestUser>, ipAttr: IpAttr)

  /** The request the handler uses: the instance's own, else the middleware's thread-local one. */
  function RequestOf(instanceRequest: Option<AuditRequest>, threadRequest: Option<AuditRequest>): (r: Option<AuditRequest>)
    ensures instanceRequest.Some? ==> r == instanceRequest
    ensures instanceRequest.None? ==> r == threadRequest
  {
    if instanceRequest.Some? then instanceRequest else threadRequest
  }

  /** `getattr(request, 'user', None)`. */
  function UserOf(r: Option<AuditRequest>): Option<RequestUser>
  {
    if r.Some? then r.value.user else None
  }

  /** The guard that keeps an entry. */
  predicate MayLog(user: Option<RequestUser>)
  {
    user.Some? && user.value.isAuthenticated && (user.value.isStaff || user.value.isSuperuser)
  }

  function NotId(id: int): LogEntry -> bool
  {
    (e: LogEntry) => e.id != id
  }

  /** The table after `log_entry.delete()`. */
  function Deleted(log: seq<LogEntry>, id: int): seq<LogEntry>
  {
    Filter(log, NotId(id))
  }

  /** The table after `log_entry.remote_addr = ip` is saved. */
  function Stamped(log: seq<LogEntry>, id: int, ip: Option<string>): (r: seq<LogEntry>)
    ensures |r| == |log|
  {
    seq(|log|, i requires 0 <= i < |log| => if log[i].id == id then log[i].(remoteAddr := ip) else log[i])
  }

  /** `set_ip_address` for the entry with id `entry` (`None` when no entry was passed). */
  method SetIpAddress(instanceRequest: Option<AuditRequest>, threadRequest: Option<AuditRequest>,
                      entry: Option<int>, log: seq<LogEntry>)
    returns (log': seq<LogEntry>)
    ensures var request := RequestOf(instanceRequest, threadRequest);
            && (entry.None? ==> log' == log)
            && (entry.Some? && !MayLog(UserOf(request)) ==> log' == Deleted(log, entry.value))
            && (entry.Some? && MayLog(UserOf(request)) && request.value.ipAttr.NoIpAttr? ==> log' == log)
            && (entry.Some? && MayLog(UserOf(request)) && request.value.ipAttr.IpAttr? ==>
                  log' == Stamped(log, entry.value, request.value.ipAttr.ip))
  {
    log' := log;
    var request := instanceRequest;
    if request.None? {
      request := threadRequest;
    }
    var user := if request.Some? then request.value.user else None;
    if user.None? || !(user.value.isAuthenticated && (user.value.isStaff || user.value.isSuperuser)) {
      if entry.Some? {
        log' := Deleted(log, entry.value);
      }
      return;
    }
    if request.value.ipAttr.IpAttr? && entry.Some? {
      log' := Stamped(log, entry.value, request.value.ipAttr.ip);
    }
  }

  /** A deleted entry is gone and every other entry stays, in order. */
  lemma DeletionRemovesOnlyThatEntry(log: seq<LogEntry>, id: int)
    ensures forall i :: 0 <= i < |Deleted(log, id)| ==> Deleted(log, id)[i].id != id
    ensures forall i :: 0 <= i < |log| && log[i].id != id ==> log[i] in Deleted(log, id)
    ensures (forall i :: 0 <= i < |log| ==> log[i].id != id) ==> Deleted(log, id) == log
  {
    if forall i :: 0 <= i < |log| ==> log[i].id != id {
      FilterKeepsAll(log, NotId(id));
    }
  }

  /** Stamping writes only `remote_addr`, and only on that entry. */
  lemma OnlyRemoteAddrWritten(log: seq<LogEntry>, id: int, ip: Option<string>, i: nat)
    requires i < |log|
    ensures Stamped(log, id, ip)[i].(remoteAddr := log[i].remoteAddr) == log[i]
    ensures log[i].id == id ==> Stamped(log, id, ip)[i].remoteAddr == ip
    ensures log[i].id != id ==> Stamped(log, id, ip)[i] == log[i]
  {
  }
}
