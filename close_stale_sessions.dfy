/** The management command of management/commands/close_stale_sessions.py: sessions pinged more than
    70 seconds ago and not logged out get the cutoff as their logout time. */
module CloseStaleSessions {
  import opened Wrappers
  import opened Strings
  import opened Models

  const Timeout: int := 70 * MicrosPerSecond
  const ClosedReason: string := "Auto-logout: tab/browser closed"

  /** `logout_time__isnull=True, last_ping__lt=cutoff`; a null last ping never compares less. */
  predicate IsSelected(s: AttendanceSession, cutoff: Instant)
  {
    s.logoutTime.None? && s.lastPing.Some? && s.lastPing.value < cutoff
  }

  /** The success line printed for one closed session. */
  function ReportLine(s: AttendanceSession): string
  {
    "Closed stale session " + IntToString(s.id) + " for employee " + IntToString(s.employeeId)
  }

  /** The selected sessions in table order. */
  function Selected(sessions: seq<AttendanceSession>, cutoff: Instant): (r: seq<AttendanceSession>)
    ensures |r| <= |sessions|
    ensures forall k :: 0 <= k < |r| ==> IsSelected(r[k], cutoff) && r[k] in sessions
    decreases |sessions|
  {
    if sessions == [] then []
    else Selected(sessions[..|sessions| - 1], cutoff)
         + (if IsSelected(sessions[|sessions| - 1], cutoff) then [sessions[|sessions| - 1]] else [])
  }

  /** The lines printed for the closed sessions, in order. */
  function Lines(closed: seq<AttendanceSession>): (lines: seq<string>)
    ensures |lines| == |closed|
  {
    seq(|closed|, i requires 0 <= i < |closed| => ReportLine(closed[i]))
  }

  lemma LinesAppend(closed: seq<AttendanceSession>, s: AttendanceSession)
    ensures Lines(closed + [s]) == Lines(closed) + [ReportLine(s)]
  {
  }

  /** A session as the loop leaves it: the cutoff, not now, becomes its logout time. */
  function Close(s: AttendanceSession, cutoff: Instant): AttendanceSession
  {
    if IsSelected(s, cutoff) then s.(logoutTime := Some(cutoff), logoutReason := ClosedReason) else s
  }

  /** The table after the command. */
  function ClosedAll(sessions: seq<AttendanceSession>, cutoff: Instant): (r: seq<AttendanceSession>)
    ensures |r| == |sessions|
  {
    seq(|sessions|, i requires 0 <= i < |sessions| => Close(sessions[i], cutoff))
  }

  /** `Command.handle`: the new table and the lines written, one per closed session. */
  method Handle(sessions: seq<AttendanceSession>, now: Instant)
    returns (result: seq<AttendanceSession>, lines: seq<string>)
    ensures result == ClosedAll(sessions, now - Timeout)
    ensures lines == Lines(Selected(sessions, now - Timeout))
    ensures |lines| <= |sessions|
    ensures forall k :: 0 <= k < |lines| ==>
              var s := Selected(sessions, now - Timeout)[k];
              lines[k] == ReportLine(s) && Close(s, now - Timeout) in result
              && Close(s, now - Timeout).logoutTime == Some(now - Timeout)
  {
    var cutoff := now - Timeout;
    result := sessions;
    lines := [];
    var i := 0;
    while i < |sessions|
      invariant 0 <= i <= |sessions| && |result| == |sessions|
      invariant forall j :: 0 <= j < i ==> result[j] == Close(sessions[j], cutoff)
      invariant forall j :: i <= j < |sessions| ==> result[j] == sessions[j]
      invariant lines == Lines(Selected(sessions[..i], cutoff))
    {
      var session := sessions[i];
      assert sessions[..i + 1][..i] == sessions[..i];
      if session.logoutTime.None? && session.lastPing.Some? && session.lastPing.value < cutoff {
        result := result[i := session.(logoutTime := Some(cutoff), logoutReason := ClosedReason)];
        LinesAppend(Selected(sessions[..i], cutoff), session);
        lines := lines + [ReportLine(session)];
      }
      i := i + 1;
    }
    assert sessions[..i] == sessions;
    SelectedAreClosed(sessions, cutoff);
  }

  /** Every selected session appears in the new table closed at the cutoff. */
  lemma SelectedAreClosed(sessions: seq<AttendanceSession>, cutoff: Instant)
    ensures forall k :: 0 <= k < |Selected(sessions, cutoff)| ==>
              var s := Selected(sessions, cutoff)[k];
              Close(s, cutoff) in ClosedAll(sessions, cutoff) && Close(s, cutoff).logoutTime == Some(cutoff)
  {
    var sel, r := Selected(sessions, cutoff), ClosedAll(sessions, cutoff);
    forall k | 0 <= k < |sel|
      ensures Close(sel[k], cutoff) in r && Close(sel[k], cutoff).logoutTime == Some(cutoff)
    {
      var j :| 0 <= j < |sessions| && sessions[j] == sel[k];
      assert r[j] == Close(sel[k], cutoff);
    }
  }

  /** A closed session gets only its logout time and reason written; others are untouched. */
  lemma OnlyTwoFieldsWritten(s: AttendanceSession, cutoff: Instant)
    ensures Close(s, cutoff).(logoutTime := s.logoutTime, logoutReason := s.logoutReason) == s
    ensures IsSelected(s, cutoff) ==> Close(s, cutoff).logoutTime == Some(cutoff) && Close(s, cutoff).logoutReason == ClosedReason
    ensures !IsSelected(s, cutoff) ==> Close(s, cutoff) == s
  {
  }

  /** After the command nothing is selected any more at the same cutoff: a rerun closes nothing, prints
      nothing and leaves the table as it is. */
  lemma {:induction false} RerunSelectsNothing(sessions: seq<AttendanceSession>, cutoff: Instant)
    ensures Selected(ClosedAll(sessions, cutoff), cutoff) == []
    ensures ClosedAll(ClosedAll(sessions, cutoff), cutoff) == ClosedAll(sessions, cutoff)
    decreases |sessions|
  {
    if sessions != [] {
      var n := |sessions| - 1;
      RerunSelectsNothing(sessions[..n], cutoff);
      assert ClosedAll(sessions, cutoff)[..n] == ClosedAll(sessions[..n], cutoff);
    }
  }

  /** A session that was never pinged is never closed by the command, however old its login. */
  lemma NeverPingedUntouched(s: AttendanceSession, cutoff: Instant)
    requires s.lastPing.None?
    ensures !IsSelected(s, cutoff)
  {
  }
}
