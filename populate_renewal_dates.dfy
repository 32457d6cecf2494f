/** The `populate_renewal_dates` management command: an upload with no renewal date gets the date one
    year (365 days) after it was uploaded. */
module PopulateRenewalDates {
  import opened Strings
  import opened Tables
  import opened Models
  import opened Wrappers

  const RenewalPeriod: int := 365 * MicrosPerDay

  /** The query's selection: no renewal date yet. */
  predicate IsCandidate(u: EmployeeUpload)
  {
    u.renewalDate.None?
  }

  function Candidate(): EmployeeUpload -> bool
  {
    (u: EmployeeUpload) => IsCandidate(u)
  }

  /** A candidate that the loop fills: it has an upload time. */
  predicate IsFillable(u: EmployeeUpload)
  {
    IsCandidate(u) && u.uploadedAt.Some?
  }

  function Fillable(): EmployeeUpload -> bool
  {
    (u: EmployeeUpload) => IsFillable(u)
  }

  /** The upload as the loop leaves it. */
  function Populated(u: EmployeeUpload): EmployeeUpload
  {
    if IsFillable(u) then u.(renewalDate := Some(DateOf(u.uploadedAt.value + RenewalPeriod))) else u
  }

  /** The table after the command. */
  function PopulatedAll(uploads: seq<EmployeeUpload>): (r: seq<EmployeeUpload>)
    ensures |r| == |uploads|
  {
    seq(|uploads|, i requires 0 <= i < |uploads| => Populated(uploads[i]))
  }

  function FoundMessage(count: nat): string
  {
    "Found " + NatToString(count) + " uploads without renewal dates"
  }

  function SuccessMessage(updated: nat): string
  {
    "Successfully updated " + NatToString(updated) + " EmployeeUpload records with renewal dates"
  }

  /** `Command.handle`: the new table, the two counters and the two lines it prints. */
  method Handle(uploads: seq<EmployeeUpload>)
    returns (result: seq<EmployeeUpload>, count: nat, updatedCount: nat, messages: seq<string>)
    ensures result == PopulatedAll(uploads)
    ensures count == Count(uploads, Candidate())
    ensures updatedCount == Count(uploads, Fillable())
    ensures messages == [FoundMessage(count), SuccessMessage(updatedCount)]
  {
    count := Count(uploads, Candidate());
    messages := [FoundMessage(count)];
    result := uploads;
    updatedCount := 0;
    var i := 0;
    while i < |uploads|
      invariant 0 <= i <= |uploads| && |result| == |uploads|
      invariant forall j :: 0 <= j < i ==> result[j] == Populated(uploads[j])
      invariant forall j :: i <= j < |uploads| ==> result[j] == uploads[j]
      invariant updatedCount == Count(uploads[..i], Fillable())
    {
      var upload := uploads[i];
      if upload.renewalDate.None? && upload.uploadedAt.Some? {
        upload := upload.(renewalDate := Some(DateOf(upload.uploadedAt.value + 365 * MicrosPerDay)));
        result := result[i := upload];
        updatedCount := updatedCount + 1;
        assert IsFillable(uploads[i]) && result[i] == Populated(uploads[i]);
      } else {
        assert !IsFillable(uploads[i]);
      }
      assert uploads[..i + 1][..i] == uploads[..i];
      i := i + 1;
    }
    assert uploads[..i] == uploads;
    messages := messages + [SuccessMessage(updatedCount)];
  }

  /** Only `renewal_date` is written; a date already set is never overwritten, and a candidate without
      an upload time stays without one. */
  lemma OnlyRenewalDateWritten(u: EmployeeUpload)
    ensures Populated(u).(renewalDate := u.renewalDate) == u
    ensures u.renewalDate.Some? ==> Populated(u) == u
    ensures u.uploadedAt.None? ==> Populated(u) == u
    ensures IsFillable(u) ==> Populated(u).renewalDate == Some(DateOf(u.uploadedAt.value + RenewalPeriod))
  {
  }

  /** The filled date is 365 days after the upload day. */
  lemma RenewalIsAYearLater(u: EmployeeUpload)
    requires IsFillable(u)
    ensures Populated(u).renewalDate.value == DateOf(u.uploadedAt.value) + 365
  {
    var t := u.uploadedAt.value;
    assert t + RenewalPeriod == t + 365 * MicrosPerDay;
  }

  /** The updated count never exceeds the found count. */
  lemma {:induction false} UpdatedAtMostFound(uploads: seq<EmployeeUpload>)
    ensures Count(uploads, Fillable()) <= Count(uploads, Candidate())
    decreases |uploads|
  {
    if uploads != [] {
      UpdatedAtMostFound(uploads[..|uploads| - 1]);
    }
  }

  /** After the command every remaining candidate lacks an upload time, so a rerun fills nothing and
      changes nothing. */
  lemma RerunFillsNothing(uploads: seq<EmployeeUpload>)
    ensures Count(PopulatedAll(uploads), Fillable()) == 0
    ensures PopulatedAll(PopulatedAll(uploads)) == PopulatedAll(uploads)
  {
    CountZero(PopulatedAll(uploads), Fillable());
  }

  /** A rerun finds exactly the candidates the first run could not fill. */
  lemma {:induction false} RerunFindsUnfilled(uploads: seq<EmployeeUpload>)
    ensures Count(PopulatedAll(uploads), Candidate()) == Count(uploads, Candidate()) - Count(uploads, Fillable())
    decreases |uploads|
  {
    if uploads != [] {
      var n := |uploads| - 1;
      RerunFindsUnfilled(uploads[..n]);
      UpdatedAtMostFound(uploads[..n]);
      assert PopulatedAll(uploads)[..n] == PopulatedAll(uploads[..n]);
    }
  }
}
