/** `renewal_alerts_processor` in context_processors_renewal.py: on the admin index page, the uploads
    whose renewal date has passed or is today, oldest first, with their count. */
module RenewalAlerts {
  import opened Wrappers
  import opened Tables
  import opened Models
  import AdminDisplay

  const AdminIndexPath: string := "/admin/"

  /** The query's selection: a renewal date set and not after today. */
  predicate IsExpired(u: EmployeeUpload, today: Day)
  {
    u.renewalDate.Some? && u.renewalDate.value <= today
  }

  function ExpiredOn(today: Day): EmployeeUpload -> bool
  {
    (u: EmployeeUpload) => IsExpired(u, today)
  }

  /** The ordering key; only uploads with a date are ever ordered. */
  function RenewalKey(u: EmployeeUpload): int
  {
    u.renewalDate.GetOr(0)
  }

  predicate SortedByRenewal(s: seq<EmployeeUpload>)
  {
    forall i, j :: 0 <= i < j < |s| ==> RenewalKey(s[i]) <= RenewalKey(s[j])
  }

  /** Places `u` into a list ordered by renewal date, ahead of the first upload that is due no
      earlier. */
  function Insert(u: EmployeeUpload, s: seq<EmployeeUpload>): (r: seq<EmployeeUpload>)
    ensures |r| == |s| + 1
    ensures forall i :: 0 <= i < |r| ==> r[i] == u || r[i] in s
    ensures multiset(r) == multiset(s) + multiset{u}
  {
    if s == [] then [u]
    else if RenewalKey(u) <= RenewalKey(s[0]) then [u] + s
    else
      assert s == [s[0]] + s[1..];
      [s[0]] + Insert(u, s[1..])
  }

  /** Inserting into an ordered list keeps it ordered. */
  lemma {:induction false} InsertKeepsOrder(u: EmployeeUpload, s: seq<EmployeeUpload>)
    requires SortedByRenewal(s)
    ensures SortedByRenewal(Insert(u, s))
  {
    if s != [] && RenewalKey(u) > RenewalKey(s[0]) {
      var rest := Insert(u, s[1..]);
      InsertKeepsOrder(u, s[1..]);
      forall i | 0 <= i < |rest|
        ensures RenewalKey(s[0]) <= RenewalKey(rest[i])
      {
        if rest[i] != u {
          var j :| 0 <= j < |s[1..]| && s[1..][j] == rest[i];
          assert s[j + 1] == rest[i];
        }
      }
      assert Insert(u, s) == [s[0]] + rest;
    }
  }

  /** `.order_by('renewal_date')`: the same uploads, ordered by renewal date. */
  function OrderByRenewal(s: seq<EmployeeUpload>): (r: seq<EmployeeUpload>)
    ensures multiset(r) == multiset(s)
  {
    if s == [] then []
    else
      assert s == [s[0]] + s[1..];
      Insert(s[0], OrderByRenewal(s[1..]))
  }

  /** The ordering puts earlier renewal dates first. */
  lemma {:induction false} OrderIsAscending(s: seq<EmployeeUpload>)
    ensures SortedByRenewal(OrderByRenewal(s))
  {
    if s != [] {
      OrderIsAscending(s[1..]);
      InsertKeepsOrder(s[0], OrderByRenewal(s[1..]));
    }
  }

  /** The context the processor adds to a page. */
  datatype Context = NoContext | AlertContext(expiredUploads: seq<EmployeeUpload>, expiredCount: nat, showRenewalAlert: bool, today: Day)

  /** The processor for a request whose `path` attribute is `path`, with `today` the current date. */
  function RenewalAlertsProcessor(path: Option<string>, uploads: seq<EmployeeUpload>, today: Day): (c: Context)
    ensures c.NoContext? <==> path != Some(AdminIndexPath)
    ensures c.AlertContext? ==>
              && SortedByRenewal(c.expiredUploads)
              && multiset(c.expiredUploads) == multiset(Filter(uploads, ExpiredOn(today)))
              && c.expiredCount == |c.expiredUploads| == Count(uploads, ExpiredOn(today))
              && (c.showRenewalAlert <==> c.expiredCount > 0)
              && c.today == today
  {
    if path.Some? && path.value == AdminIndexPath then
      var expired := OrderByRenewal(Filter(uploads, ExpiredOn(today)));
      OrderIsAscending(Filter(uploads, ExpiredOn(today)));
      AlertContext(expired, |expired|, |expired| > 0, today)
    else NoContext
  }

  /** On the admin index page an upload is listed exactly when it is in the table with a renewal date
      on or before today, today included. */
  lemma ListedIffExpired(uploads: seq<EmployeeUpload>, today: Day, u: EmployeeUpload)
    ensures var c := RenewalAlertsProcessor(Some(AdminIndexPath), uploads, today);
            u in c.expiredUploads <==> u in uploads && IsExpired(u, today)
  {
    var c := RenewalAlertsProcessor(Some(AdminIndexPath), uploads, today);
    var f := Filter(uploads, ExpiredOn(today));
    assert u in c.expiredUploads <==> u in multiset(f);
    if u in uploads && IsExpired(u, today) {
      var i :| 0 <= i < |uploads| && uploads[i] == u;
      assert ExpiredOn(today)(uploads[i]);
    }
  }

  /** An upload is listed exactly when its admin badge is red. */
  lemma ListedIffBadgeRed(u: EmployeeUpload, today: Day)
    ensures IsExpired(u, today) <==> AdminDisplay.RenewalBadge(u, today).Red?
  {
  }

  /** An upload due tomorrow is not listed today but is listed tomorrow. */
  lemma DueTomorrowListedTomorrow(u: EmployeeUpload, today: Day)
    requires u.renewalDate == Some(today + 1)
    ensures !IsExpired(u, today) && IsExpired(u, today + 1)
  {
  }
}
