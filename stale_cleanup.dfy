/** The scheduled sweep of stale_cleanup.py: an open session whose last ping, or, never pinged, whose
    login is more than 15 minutes old is logged out with the tab-closed reason. */
module StaleCleanup {
  import opened Wrappers
  import opened Strings
  import opened Models

  const StaleAfter: int := 15 * MicrosPerMinute
  const TabClosedReason: string := "Auto-logout: Tab closed"

  /** The query's selection, with `cutoff` 15 minutes before now. */
  predicate IsStale(s: AttendanceSession, cutoff: Instant)
  {
    && s.logoutTime.None?
    && ((s.lastPing.Some? && s.lastPing.value < cutoff) || (s.lastPing.None? && s.loginTime < cutoff))
  }

  /** A stale session as the loop saves it: logout time now (not the cutoff) and the same reason on
      both branches; `session_closed` and the status are not written. */
  function CloseStale(s: AttendanceSession, now: Instant): AttendanceSession
  {
    s.(logoutTime := Some(now), logoutReason := TabClosedReason)
  }

  /** The table after a sweep at `now`. */
  function Swept(sessions: seq<AttendanceSession>, now: Instant): (r: seq<AttendanceSession>)
    ensures |r| == |sessions|
  {
    seq(|sessions|, i requires 0 <= i < |sessions| =>
      if IsStale(sessions[i], now - StaleAfter) then CloseStale(sessions[i], now) else sessions[i])
  }

  /** The number of stale sessions in a prefix of the table: the count the sweep prints. */
  function StaleCount(sessions: seq<AttendanceSession>, cutoff: Instant): nat
  {
    if sessions == [] then 0
    else StaleCount(sessions[..|sessions| - 1], cutoff) + (if IsStale(sessions[|sessions| - 1], cutoff) then 1 else 0)
  }

  /** The line printed before the loop, only when something is stale. */
  function FoundMessage(count: nat): (m: Option<string>)
    ensures m.None? <==> count == 0
  {
    if count > 0 then Some("Found " + NatToString(count) + " stale sessions to close.") else None
  }

  /** `close_stale_sessions()`: returns the new table, the count of stale sessions and the line it
      prints. */
  method CloseStaleSessions(sessions: seq<AttendanceSession>, now: Instant)
    returns (result: seq<AttendanceSession>, count: nat, message: Option<string>)
    ensures result == Swept(sessions, now)
    ensures count == StaleCount(sessions, now - StaleAfter)
    ensures message == FoundMessage(count)
  {
    var cutoff := now - StaleAfter;
    result := sessions;
    count := 0;
    var i := 0;
    while i < |sessions|
      invariant 0 <= i <= |sessions| && |result| == |sessions|
      invariant forall j :: 0 <= j < i ==> result[j] == Swept(sessions, now)[j]
      invariant forall j :: i <= j < |sessions| ==> result[j] == sessions[j]
      invariant count == StaleCount(sessions[..i], cutoff)
    {
      var session := sessions[i];
      if session.logoutTime.None? &&
         ((session.lastPing.Some? && session.lastPing.value < cutoff) ||
          (session.lastPing.None? && session.loginTime < cutoff)) {
        var updated := session.(logoutTime := Some(now));
        if session.lastPing.None? {
          updated := updated.(logoutReason := TabClosedReason);
        } else {
          updated := updated.(logoutReason := TabClosedReason);
        }
        result := result[i := updated];
        count := count + 1;
      }
      assert sessions[..i + 1][..i] == sessions[..i];
      i := i + 1;
    }
    assert sessions[..i] == sessions;
    message := FoundMessage(count);
  }

  /** A session pinged at or after the cutoff is left as it was, however old its login. */
  lemma RecentPingKeepsSession(sessions: seq<AttendanceSession>, now: Instant)
    ensures forall i :: 0 <= i < |sessions| && sessions[i].lastPing.Some? && sessions[i].lastPing.value >= now - StaleAfter ==>
              Swept(sessions, now)[i] == sessions[i]
  {
    forall i | 0 <= i < |sessions| && sessions[i].lastPing.Some? && sessions[i].lastPing.value >= now - StaleAfter
      ensures Swept(sessions, now)[i] == sessions[i]
    {
      OnlyLogoutFieldsWritten(sessions, now, i);
    }
  }

  /** A sweep changes only the logout time and reason of the sessions it selects. */
  lemma OnlyLogoutFieldsWritten(sessions: seq<AttendanceSession>, now: Instant, i: nat)
    requires i < |sessions|
    ensures var r := Swept(sessions, now)[i];
            r.(logoutTime := sessions[i].logoutTime, logoutReason := sessions[i].logoutReason) == sessions[i]
    ensures !IsStale(sessions[i], now - StaleAfter) ==> Swept(sessions, now)[i] == sessions[i]
  {
  }

  /** A second sweep at the same time finds nothing stale and changes nothing. */
  lemma {:induction false} SweepIsIdempotent(sessions: seq<AttendanceSession>, now: Instant)
    ensures Swept(Swept(sessions, now), now) == Swept(sessions, now)
    ensures StaleCount(Swept(sessions, now), now - StaleAfter) == 0
    decreases |sessions|
  {
    var r := Swept(sessions, now);
    if sessions != [] {
      var n := |sessions| - 1;
      SweepIsIdempotent(sessions[..n], now);
      assert r[..n] == Swept(sessions[..n], now);
    }
  }
}
