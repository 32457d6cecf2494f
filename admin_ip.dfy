/** The three override buttons of `AllowedIPAdmin` in admin.py. Two marker rows of the AllowedIP table,
    recognised by their description, switch the IP list off (`GLOBAL_ALLOW_ALL`) or block every address
    (`GLOBAL_BLOCK`); with neither row the list itself decides. */
module AdminIp {
  import opened Wrappers
  import opened Tables
  import opened Models

  const AllowAll: string := "GLOBAL_ALLOW_ALL"
  const BlockAll: string := "GLOBAL_BLOCK"
  const AnyAddress: string := "0.0.0.0/0"

  const AllowAllMessage: string := "Success: IP restrictions are globally DISABLED. All IPs are now allowed."
  const BlockAllMessage: string := "CRITICAL: IP restrictions are globally ENABLED. ALL IPs are now blocked."
  const EnforceMessage: string := "Success: Global overrides have been removed. Access is now determined by your IP list."

  predicate IsOverride(r: AllowedIp)
  {
    r.description == AllowAll || r.description == BlockAll
  }

  function DescribedAs(d: string): AllowedIp -> bool
  {
    (r: AllowedIp) => r.description == d
  }

  function NotDescribedAs(ds: seq<string>): AllowedIp -> bool
  {
    (r: AllowedIp) => r.description !in ds
  }

  /** `AllowedIP.objects.filter(description__in=ds).delete()`. */
  function DeleteDescribed(rows: seq<AllowedIp>, ds: seq<string>): (r: seq<AllowedIp>)
    ensures forall i :: 0 <= i < |r| ==> r[i].description !in ds && r[i] in rows
    ensures forall i :: 0 <= i < |rows| && rows[i].description !in ds ==> rows[i] in r
  {
    Filter(rows, NotDescribedAs(ds))
  }

  /** The marker row with description `d` set to cover every address and made active. */
  function Activated(rows: seq<AllowedIp>, d: string): (r: seq<AllowedIp>)
    ensures |r| == |rows|
  {
    seq(|rows|, i requires 0 <= i < |rows| =>
      if rows[i].description == d then rows[i].(ipAddress := AnyAddress, isActive := true) else rows[i])
  }

  /** `AllowedIP.objects.update_or_create(description=d, defaults={...})`: creates the row when there is
      none, updates it when there is one, and raises `MultipleObjectsReturned` (`None`) for more.
      `newId` is the id of a created row; its `subnet_prefix` is left null. */
  function UpdateOrCreate(rows: seq<AllowedIp>, d: string, newId: int): (r: Option<seq<AllowedIp>>)
    ensures r.None? <==> Count(rows, DescribedAs(d)) >= 2
    ensures r.Some? && Count(rows, DescribedAs(d)) == 0 ==> r.value == rows + [AllowedIp(newId, AnyAddress, None, d, true)]
    ensures r.Some? && Count(rows, DescribedAs(d)) == 1 ==> r.value == Activated(rows, d)
  {
    match Get(rows, DescribedAs(d))
    case DoesNotExist => Some(rows + [AllowedIp(newId, AnyAddress, None, d, true)])
    case Found(_) => Some(Activated(rows, d))
    case MultipleObjectsReturned => None
  }

  /** The state after a button: the table, whether `cache.clear()` ran, and the message level and text.
      `Crashed` keeps the table as the completed delete left it. */
  datatype Result = Switched(rows: seq<AllowedIp>, cacheCleared: bool, level: string, message: string)
                  | Crashed(rows: seq<AllowedIp>)

  /** Deletes the `removed` marker rows and upserts the `kept` one. */
  function Switch(rows: seq<AllowedIp>, removed: string, kept: string, newId: int, level: string, message: string): Result
  {
    var remaining := DeleteDescribed(rows, [removed]);
    match UpdateOrCreate(remaining, kept, newId)
    case None => Crashed(remaining)
    case Some(r) => Switched(r, true, level, message)
  }

  /** `enable_allow_all`. */
  function EnableAllowAll(rows: seq<AllowedIp>, newId: int): (res: Result)
    ensures res.Crashed? <==> Count(rows, DescribedAs(AllowAll)) >= 2
    ensures res.Switched? ==>
              && res.cacheCleared && res.level == "success" && res.message == AllowAllMessage
              && Settled(res.rows, BlockAll, AllowAll) && KeepsOthers(rows, res.rows, BlockAll, AllowAll)
  {
    SwitchState(rows, BlockAll, AllowAll, newId, "success", AllowAllMessage);
    Switch(rows, BlockAll, AllowAll, newId, "success", AllowAllMessage)
  }

  /** `block_all_ips`. */
  function BlockAllIps(rows: seq<AllowedIp>, newId: int): (res: Result)
    ensures res.Crashed? <==> Count(rows, DescribedAs(BlockAll)) >= 2
    ensures res.Switched? ==>
              && res.cacheCleared && res.level == "error" && res.message == BlockAllMessage
              && Settled(res.rows, AllowAll, BlockAll) && KeepsOthers(rows, res.rows, AllowAll, BlockAll)
  {
    SwitchState(rows, AllowAll, BlockAll, newId, "error", BlockAllMessage);
    Switch(rows, AllowAll, BlockAll, newId, "error", BlockAllMessage)
  }

  /** `enforce_ip_list`. */
  function EnforceIpList(rows: seq<AllowedIp>): (res: Result)
    ensures res.Switched? && res.cacheCleared
    ensures forall i :: 0 <= i < |res.rows| ==> !IsOverride(res.rows[i])
    ensures forall i :: 0 <= i < |rows| && !IsOverride(rows[i]) ==> rows[i] in res.rows
    ensures forall i :: 0 <= i < |res.rows| ==> res.rows[i] in rows
  {
    Switched(DeleteDescribed(rows, [AllowAll, BlockAll]), true, "warning", EnforceMessage)
  }

  /** The marker state a switch aims at: no `removed` row and one active `kept` row covering every
      address. */
  predicate Settled(rows: seq<AllowedIp>, removed: string, kept: string)
  {
    && Count(rows, DescribedAs(removed)) == 0
    && Count(rows, DescribedAs(kept)) == 1
    && forall i :: 0 <= i < |rows| && rows[i].description == kept ==> rows[i].ipAddress == AnyAddress && rows[i].isActive
  }

  /** The rows of `after` that are not the `kept` marker all come from `before`, and every row of
      `before` that is neither marker is in `after`. */
  predicate KeepsOthers(before: seq<AllowedIp>, after: seq<AllowedIp>, removed: string, kept: string)
  {
    && (forall i :: 0 <= i < |before| && before[i].description != removed && before[i].description != kept ==>
          before[i] in after)
    && (forall i :: 0 <= i < |after| && after[i].description != kept ==> after[i] in before)
  }

  lemma CreateSettles(remaining: seq<AllowedIp>, removed: string, kept: string, newId: int)
    requires removed != kept
    requires Count(remaining, DescribedAs(removed)) == 0 && Count(remaining, DescribedAs(kept)) == 0
    ensures var r := remaining + [AllowedIp(newId, AnyAddress, None, kept, true)];
            Settled(r, removed, kept) && KeepsOthers(remaining, r, removed, kept)
  {
    var created := AllowedIp(newId, AnyAddress, None, kept, true);
    FilterAppend(remaining, created, DescribedAs(kept));
    FilterAppend(remaining, created, DescribedAs(removed));
    CountZero(remaining, DescribedAs(kept));
    CreatedIsTheOnlyMarker(remaining, created, kept);
    AppendKeepsOthers(remaining, created, removed, kept);
  }

  lemma CreatedIsTheOnlyMarker(remaining: seq<AllowedIp>, created: AllowedIp, kept: string)
    requires forall j :: 0 <= j < |remaining| ==> !DescribedAs(kept)(remaining[j])
    requires created.ipAddress == AnyAddress && created.isActive
    ensures var r := remaining + [created];
            forall i :: 0 <= i < |r| && r[i].description == kept ==> r[i].ipAddress == AnyAddress && r[i].isActive
  {
    var r := remaining + [created];
    forall i | 0 <= i < |r| && r[i].description == kept
      ensures r[i].ipAddress == AnyAddress && r[i].isActive
    {
      assert i == |remaining|;
    }
  }

  lemma AppendKeepsOthers(remaining: seq<AllowedIp>, created: AllowedIp, removed: string, kept: string)
    requires created.description == kept
    ensures KeepsOthers(remaining, remaining + [created], removed, kept)
  {
    var r := remaining + [created];
    forall i | 0 <= i < |remaining|
      ensures remaining[i] in r
    {
      assert r[i] == remaining[i];
    }
    forall i | 0 <= i < |r| && r[i].description != kept
      ensures r[i] in remaining
    {
      assert i < |remaining| && r[i] == remaining[i];
    }
  }

  lemma ActivateSettles(remaining: seq<AllowedIp>, removed: string, kept: string)
    requires removed != kept
    requires Count(remaining, DescribedAs(removed)) == 0 && Count(remaining, DescribedAs(kept)) == 1
    ensures var r := Activated(remaining, kept);
            Settled(r, removed, kept) && KeepsOthers(remaining, r, removed, kept)
  {
    var r := Activated(remaining, kept);
    CountPointwise(remaining, r, DescribedAs(kept));
    CountPointwise(remaining, r, DescribedAs(removed));
    forall i | 0 <= i < |r| && r[i].description != kept
      ensures r[i] in remaining
    {
      assert r[i] == remaining[i];
    }
    forall i | 0 <= i < |remaining| && remaining[i].description != removed && remaining[i].description != kept
      ensures remaining[i] in r
    {
      assert r[i] == remaining[i];
    }
  }

  /** A switch removes every `removed` row and leaves exactly one `kept` row, active and covering every
      address; rows that are neither marker are kept; it fails only when two `kept` rows existed. */
  lemma SwitchState(rows: seq<AllowedIp>, removed: string, kept: string, newId: int, level: string, message: string)
    requires removed != kept
    ensures var res := Switch(rows, removed, kept, newId, level, message);
            && (res.Crashed? <==> Count(rows, DescribedAs(kept)) >= 2)
            && (res.Switched? ==> res.cacheCleared && Settled(res.rows, removed, kept) && KeepsOthers(rows, res.rows, removed, kept))
  {
    var remaining := DeleteDescribed(rows, [removed]);
    CountAfterFilter(rows, DescribedAs(kept), NotDescribedAs([removed]));
    CountZero(remaining, DescribedAs(removed));
    var res := Switch(rows, removed, kept, newId, level, message);
    if res.Switched? {
      if Count(remaining, DescribedAs(kept)) == 0 {
        CreateSettles(remaining, removed, kept, newId);
      } else {
        ActivateSettles(remaining, removed, kept);
      }
      KeepsOthersThroughDelete(rows, remaining, res.rows, removed, kept);
    }
  }

  lemma KeepsOthersThroughDelete(rows: seq<AllowedIp>, remaining: seq<AllowedIp>, after: seq<AllowedIp>, removed: string, kept: string)
    requires remaining == DeleteDescribed(rows, [removed])
    requires KeepsOthers(remaining, after, removed, kept)
    ensures KeepsOthers(rows, after, removed, kept)
  {
    forall i | 0 <= i < |rows| && rows[i].description != removed && rows[i].description != kept
      ensures rows[i] in after
    {
      assert rows[i] in remaining;
      var j :| 0 <= j < |remaining| && remaining[j] == rows[i];
    }
    forall i | 0 <= i < |after| && after[i].description != kept
      ensures after[i] in rows
    {
      var j :| 0 <= j < |remaining| && remaining[j] == after[i];
    }
  }

  /** A switch from the settled state keeps the table as it is. */
  lemma SettledSwitchKeepsRows(rows: seq<AllowedIp>, removed: string, kept: string, newId: int, level: string, message: string)
    requires Settled(rows, removed, kept)
    ensures Switch(rows, removed, kept, newId, level, message) == Switched(rows, true, level, message)
  {
    CountZero(rows, DescribedAs(removed));
    assert forall i :: 0 <= i < |rows| ==> NotDescribedAs([removed])(rows[i]) by {
      forall i | 0 <= i < |rows|
        ensures NotDescribedAs([removed])(rows[i])
      {
        assert !DescribedAs(removed)(rows[i]);
      }
    }
    FilterKeepsAll(rows, NotDescribedAs([removed]));
    assert Activated(rows, kept) == rows;
  }

  /** Pressing allow-all, or block-all, a second time changes nothing more. */
  lemma ButtonsAreIdempotent(rows: seq<AllowedIp>, newId: int, otherId: int)
    ensures EnableAllowAll(rows, newId).Switched? ==>
              var once := EnableAllowAll(rows, newId);
              EnableAllowAll(once.rows, otherId) == once
    ensures BlockAllIps(rows, newId).Switched? ==>
              var once := BlockAllIps(rows, newId);
              BlockAllIps(once.rows, otherId) == once
  {
    var allowText, blockText := AllowAllMessage, BlockAllMessage;
    SwitchState(rows, BlockAll, AllowAll, newId, "success", allowText);
    SwitchState(rows, AllowAll, BlockAll, newId, "error", blockText);
    if EnableAllowAll(rows, newId).Switched? {
      SettledSwitchKeepsRows(EnableAllowAll(rows, newId).rows, BlockAll, AllowAll, otherId, "success", allowText);
    }
    if BlockAllIps(rows, newId).Switched? {
      SettledSwitchKeepsRows(BlockAllIps(rows, newId).rows, AllowAll, BlockAll, otherId, "error", blockText);
    }
  }
}
