/** The IP allow-list middleware of ip_restriction.py. */
module IpRestriction {
  import opened Wrappers
  import opened Strings
  import opened Web
  import Middleware

  const AllowedIps: seq<string> := ["157.48.158.31", "49.37.149.105"]
  const DeniedBody: string := "Access denied."

  /** `get_client_ip`: the first comma-separated entry of a non-empty X-Forwarded-For, not trimmed,
      otherwise REMOTE_ADDR. */
  function GetClientIp(meta: Meta): (ip: Option<string>)
    ensures meta.forwardedFor.Some? && meta.forwardedFor.value != "" ==>
              var xff := meta.forwardedFor.value;
              ip.Some? && ip.value <= xff && ',' !in ip.value && (ip.value == xff || xff[|ip.value|] == ',')
    ensures meta.forwardedFor.None? || meta.forwardedFor.value == "" ==> ip == meta.remoteAddr
  {
    var xff := meta.forwardedFor;
    if xff.Some? && xff.value != "" then Some(FirstField(xff.value, ',')) else meta.remoteAddr
  }

  /** The answer of `RestrictIPMiddleware.__call__`: a 403 with its body, or the downstream response
      passed back unchanged. */
  datatype Reply<R> = Forbidden(body: string) | Passed(response: R)

  /** `ip in ALLOWED_IPS`: exact string equality with one listed address. */
  predicate IsAllowed(ip: Option<string>)
  {
    ip.Some? && ip.value in AllowedIps
  }

  /** `RestrictIPMiddleware.__call__`, with `downstream` what `get_response(request)` would return. */
  function RestrictIp<R>(meta: Meta, downstream: R): (r: Reply<R>)
    ensures r.Forbidden? <==> !IsAllowed(GetClientIp(meta))
    ensures r.Forbidden? ==> r.body == DeniedBody
    ensures r.Passed? ==> r.response == downstream
  {
    if !IsAllowed(GetClientIp(meta)) then Forbidden(DeniedBody) else Passed(downstream)
  }

  /** A forwarded request is judged by its first hop only: a listed address followed by anything after
      a comma is let through, whatever REMOTE_ADDR is. */
  lemma FirstHopDecides<R>(hop: string, rest: string, remote: Option<string>, downstream: R)
    requires hop in AllowedIps
    ensures RestrictIp(Meta(Some(hop + "," + rest), remote), downstream) == Passed(downstream)
  {
    FirstFieldOfJoin(hop, ',', rest);
  }

  /** The first entry is not trimmed, so a header that starts with a space never matches the list,
      whatever follows and whatever REMOTE_ADDR is. */
  lemma UntrimmedEntryDenied<R>(rest: string, remote: Option<string>, downstream: R)
    ensures RestrictIp(Meta(Some(" " + rest), remote), downstream) == Forbidden(DeniedBody)
  {
    var xff := " " + rest;
    assert xff[0] == ' ' && xff[1..] == rest;
    var ip := GetClientIp(Meta(Some(xff), remote)).value;
    assert ip == [' '] + FirstField(rest, ',');
    assert ip[0] == ' ';
    assert AllowedIps[0][0] == '1' && AllowedIps[1][0] == '4';
  }

  /** The allow-list and the audit middleware extract the same address from the same headers. */
  lemma SameAsAuditlogIp(meta: Meta)
    ensures GetClientIp(meta) == Middleware.AuditlogIp(meta)
  {
  }
}
