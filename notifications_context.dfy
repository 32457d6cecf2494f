/** `notifications_context` in context_processors.py, the unread-notification count shown on every
    page, and `mark_notification_as_read` in views.py, which lowers it. */
module NotificationsContext {
  import opened Tables
  import opened Models
  import opened Web

  /** A status of employee `e` that is still unread. */
  function UnreadFor(e: int): NotificationStatus -> bool
  {
    (s: NotificationStatus) => s.employeeId == e && !s.isRead
  }

  function BelongsTo(e: int): NotificationStatus -> bool
  {
    (s: NotificationStatus) => s.employeeId == e
  }

  /** `unread_notification_count` for a request whose session is `session`. */
  function UnreadNotificationCount(session: SessionData, statuses: seq<NotificationStatus>): (n: nat)
    ensures !HasEmployee(session) ==> n == 0
    ensures HasEmployee(session) ==> n == Count(statuses, UnreadFor(session.employeeId.value))
    ensures HasEmployee(session) ==> n <= Count(statuses, BelongsTo(session.employeeId.value))
  {
    if HasEmployee(session) then
      UnreadAtMostOwned(statuses, session.employeeId.value);
      Count(statuses, UnreadFor(session.employeeId.value))
    else 0
  }

  lemma {:induction false} UnreadAtMostOwned(statuses: seq<NotificationStatus>, e: int)
    ensures Count(statuses, UnreadFor(e)) <= Count(statuses, BelongsTo(e))
    decreases |statuses|
  {
    if statuses != [] {
      UnreadAtMostOwned(statuses[..|statuses| - 1], e);
    }
  }

  /** Other employees' statuses never affect the count: it is the same over the employee's own rows,
      and a status of someone else added to the table leaves it unchanged. */
  lemma OtherEmployeesIgnored(session: SessionData, statuses: seq<NotificationStatus>, other: NotificationStatus)
    requires HasEmployee(session) ==> other.employeeId != session.employeeId.value
    ensures HasEmployee(session) ==>
              UnreadNotificationCount(session, Filter(statuses, BelongsTo(session.employeeId.value)))
              == UnreadNotificationCount(session, statuses)
    ensures UnreadNotificationCount(session, statuses + [other]) == UnreadNotificationCount(session, statuses)
  {
    if HasEmployee(session) {
      var e := session.employeeId.value;
      CountAfterFilter(statuses, UnreadFor(e), BelongsTo(e));
      FilterAppend(statuses, other, UnreadFor(e));
    }
  }

  /** The row `get_object_or_404(UserNotificationStatus, pk=pk, employee=employee)` looks for. */
  function MatchOf(pk: int, e: int): NotificationStatus -> bool
  {
    (s: NotificationStatus) => s.id == pk && s.employeeId == e
  }

  function UnreadMatch(pk: int, e: int): NotificationStatus -> bool
  {
    (s: NotificationStatus) => s.id == pk && s.employeeId == e && !s.isRead
  }

  /** The table after the matched row is saved as read. */
  function Marked(statuses: seq<NotificationStatus>, pk: int, e: int): (r: seq<NotificationStatus>)
    ensures |r| == |statuses|
  {
    seq(|statuses|, i requires 0 <= i < |statuses| =>
      var s := statuses[i];
      if s.id == pk && s.employeeId == e && !s.isRead then s.(isRead := true) else s)
  }

  datatype MarkOutcome = NotFound | Redirected(statuses: seq<NotificationStatus>) | ServerError

  /** `mark_notification_as_read` for the logged-in employee `e`: a 404 when the status is not theirs
      or does not exist, otherwise the status is read and the list is shown again. */
  function MarkNotificationAsRead(statuses: seq<NotificationStatus>, e: int, pk: int): (o: MarkOutcome)
    ensures o.NotFound? <==> Count(statuses, MatchOf(pk, e)) == 0
    ensures o.Redirected? <==> Count(statuses, MatchOf(pk, e)) == 1
    ensures o.Redirected? ==> o.statuses == Marked(statuses, pk, e)
  {
    match Get(statuses, MatchOf(pk, e))
    case DoesNotExist => NotFound
    case Found(_) => Redirected(Marked(statuses, pk, e))
    case MultipleObjectsReturned => ServerError
  }

  /** Marking lowers the employee's unread count by the number of unread rows it matched. */
  lemma {:induction false} MarkedCount(statuses: seq<NotificationStatus>, pk: int, e: int)
    ensures Count(Marked(statuses, pk, e), UnreadFor(e)) + Count(statuses, UnreadMatch(pk, e)) == Count(statuses, UnreadFor(e))
    decreases |statuses|
  {
    if statuses != [] {
      var n := |statuses| - 1;
      MarkedCount(statuses[..n], pk, e);
      assert Marked(statuses, pk, e)[..n] == Marked(statuses[..n], pk, e);
    }
  }

  /** When exactly one row matches, at most that row is unread among the matches. */
  lemma UniqueMatchCount(statuses: seq<NotificationStatus>, pk: int, e: int)
    requires Get(statuses, MatchOf(pk, e)).Found?
    ensures Count(statuses, UnreadMatch(pk, e)) == if Get(statuses, MatchOf(pk, e)).row.isRead then 0 else 1
  {
    var m := Filter(statuses, MatchOf(pk, e));
    CountAfterFilter(statuses, UnreadMatch(pk, e), MatchOf(pk, e));
    assert m == [m[0]];
    assert Filter(m, UnreadMatch(pk, e)) == Filter([] + [m[0]], UnreadMatch(pk, e));
  }

  /** Marking an unread status as read lowers the employee's badge count by one; marking a read one
      changes nothing. */
  lemma MarkingLowersCountByOne(session: SessionData, statuses: seq<NotificationStatus>, pk: int)
    requires HasEmployee(session)
    requires Get(statuses, MatchOf(pk, session.employeeId.value)).Found?
    ensures var e := session.employeeId.value;
            var o := MarkNotificationAsRead(statuses, e, pk);
            var before := UnreadNotificationCount(session, statuses);
            && o.Redirected?
            && UnreadNotificationCount(session, o.statuses)
               == if Get(statuses, MatchOf(pk, e)).row.isRead then before else before - 1
  {
    var e := session.employeeId.value;
    MarkedCount(statuses, pk, e);
    UniqueMatchCount(statuses, pk, e);
  }

  /** Whatever the employee marks, their badge count never grows. */
  lemma MarkingNeverRaisesCount(session: SessionData, statuses: seq<NotificationStatus>, pk: int)
    requires HasEmployee(session)
    ensures var o := MarkNotificationAsRead(statuses, session.employeeId.value, pk);
            o.Redirected? ==> UnreadNotificationCount(session, o.statuses) <= UnreadNotificationCount(session, statuses)
  {
    MarkedCount(statuses, pk, session.employeeId.value);
  }

  /** Marking the same status a second time finds it again and changes nothing. */
  lemma MarkingTwiceChangesNothing(statuses: seq<NotificationStatus>, e: int, pk: int)
    requires Get(statuses, MatchOf(pk, e)).Found?
    ensures var o := MarkNotificationAsRead(statuses, e, pk);
            o.Redirected? && MarkNotificationAsRead(o.statuses, e, pk) == o
  {
    var r := Marked(statuses, pk, e);
    CountPointwise(statuses, r, MatchOf(pk, e));
    assert Marked(r, pk, e) == r;
  }
}
