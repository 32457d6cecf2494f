/** The idle-timeout watcher of auto_logout.js: a counter of idle seconds that activity resets and a
    one-second tick increments; every tick at which the counter is at least 300 posts a logout
    request, and a successful response sends the page to the login page. */
module IdleWatcher {
  import opened Wrappers

  const IdleLimit: nat := 300
  const DiagnosticPeriod: nat := 60
  const LogoutUrl: string := "/logout/"
  const LoginPage: string := "/login/"
  const FormEncoded: string := "application/x-www-form-urlencoded"
  const LogoutBody: string := "logout_reason=Employee is not working"

  /** A `fetch` the watcher issues. */
  datatype LogoutRequest = LogoutRequest(
    httpMethod: string,
    url: string,
    csrfToken: string,
    contentType: string,
    body: string)

  /** The one request the watcher ever sends, carrying the token read at startup. */
  function LogoutRequestFor(token: string): LogoutRequest
  {
    LogoutRequest("POST", LogoutUrl, token, FormEncoded, LogoutBody)
  }

  /** What can happen to the watcher: a click, mouse move or key press; a timer tick; the settlement
      of one earlier fetch (`ok` false for a non-2xx status and for a rejected fetch alike). */
  datatype Event = Activity | Tick | Response(ok: bool)

  /** The watcher's observable state: the counter, the requests sent so far, and the location the page
      was told to go to (None while no navigation has been requested). */
  datatype State = State(idle: nat, sent: seq<LogoutRequest>, location: Option<string>)

  const Start: State := State(0, [], None)

  /** One event handler run to completion. */
  function Step(token: string, s: State, e: Event): (r: State)
    ensures |s.sent| <= |r.sent| <= |s.sent| + 1 && r.sent[..|s.sent|] == s.sent
    ensures |r.sent| > |s.sent| ==> r.sent[|s.sent|] == LogoutRequestFor(token) && e == Tick
  {
    match e
    case Activity => s.(idle := 0)
    case Tick =>
      var n := s.idle + 1;
      s.(idle := n, sent := if n >= IdleLimit then s.sent + [LogoutRequestFor(token)] else s.sent)
    case Response(ok) => if ok then s.(location := Some(LoginPage)) else s
  }

  /** The events handled one after another, the last one last. */
  function Run(token: string, s: State, es: seq<Event>): State
    decreases |es|
  {
    if es == [] then s else Step(token, Run(token, s, es[..|es| - 1]), es[|es| - 1])
  }

  function Ticks(n: nat): (es: seq<Event>)
    ensures |es| == n && forall i :: 0 <= i < n ==> es[i] == Tick
  {
    seq(n, _ => Tick)
  }

  /** The number of ticks since the last activity event, or since the start. */
  function TicksSinceActivity(es: seq<Event>): nat
    decreases |es|
  {
    if es == [] then 0
    else
      match es[|es| - 1]
      case Activity => 0
      case Tick => TicksSinceActivity(es[..|es| - 1]) + 1
      case Response(_) => TicksSinceActivity(es[..|es| - 1])
  }

  function Max0(x: int): nat { if x > 0 then x else 0 }

  /** How many of the ticks numbered c+1 .. c+n reach the limit: each of them sends one request. */
  function Fired(c: nat, n: nat): nat
  {
    Max0(c + n - (IdleLimit - 1)) - Max0(c - (IdleLimit - 1))
  }

  function Copies(r: LogoutRequest, n: nat): (rs: seq<LogoutRequest>)
    ensures |rs| == n && forall i :: 0 <= i < n ==> rs[i] == r
  {
    seq(n, _ => r)
  }

  /** n idle ticks add exactly n to the counter, leave the location alone, and append one logout
      request per tick whose incremented counter is at least 300; a request already sent is never
      withdrawn and no attempt stops the next one. */
  lemma {:induction false} IdleTicks(token: string, s: State, n: nat)
    ensures Run(token, s, Ticks(n)).idle == s.idle + n
    ensures Run(token, s, Ticks(n)).location == s.location
    ensures Run(token, s, Ticks(n)).sent == s.sent + Copies(LogoutRequestFor(token), Fired(s.idle, n))
  {
    if n == 0 {
      assert Copies(LogoutRequestFor(token), 0) == [];
    } else {
      assert Ticks(n)[..n - 1] == Ticks(n - 1);
      IdleTicks(token, s, n - 1);
      var r := LogoutRequestFor(token);
      if s.idle + n >= IdleLimit {
        assert Copies(r, Fired(s.idle, n - 1)) + [r] == Copies(r, Fired(s.idle, n));
      }
    }
  }

  /** From a fresh start 299 idle ticks send nothing and the 300th sends exactly one request. */
  lemma FirstRequestAtLimit(token: string)
    ensures Run(token, Start, Ticks(IdleLimit - 1)).sent == []
    ensures Run(token, Start, Ticks(IdleLimit)).sent == [LogoutRequestFor(token)]
  {
    IdleTicks(token, Start, IdleLimit - 1);
    IdleTicks(token, Start, IdleLimit);
  }

  /** Once the limit is reached every further idle tick sends another request: no cap, no backoff. */
  lemma RetryEveryTick(token: string, s: State, n: nat)
    requires s.idle >= IdleLimit - 1
    ensures |Run(token, s, Ticks(n)).sent| == |s.sent| + n
  {
    IdleTicks(token, s, n);
  }

  /** After an activity event, whatever the counter was, the next request needs 300 idle ticks. */
  lemma ActivityRestartsCountdown(token: string, s: State, n: nat)
    ensures Run(token, Step(token, s, Activity), Ticks(n)).sent ==
            s.sent + Copies(LogoutRequestFor(token), Max0(n - (IdleLimit - 1)))
  {
    IdleTicks(token, Step(token, s, Activity), n);
  }

  /** The counter always equals the number of ticks since the last activity (or the start): responses,
      successful or not, neither reset nor cap it. */
  lemma {:induction false} IdleIsTicksSinceActivity(token: string, es: seq<Event>)
    ensures Run(token, Start, es).idle == TicksSinceActivity(es)
    decreases |es|
  {
    if es != [] {
      IdleIsTicksSinceActivity(token, es[..|es| - 1]);
    }
  }

  /** Every request ever sent is the same POST to /logout/ with the startup token, form-encoded
      content type and the fixed reason; earlier requests stay in the trace. */
  lemma {:induction false} OnlyLogoutRequests(token: string, s: State, es: seq<Event>)
    ensures s.sent <= Run(token, s, es).sent
    ensures forall i :: |s.sent| <= i < |Run(token, s, es).sent| ==> Run(token, s, es).sent[i] == LogoutRequestFor(token)
    decreases |es|
  {
    if es != [] {
      OnlyLogoutRequests(token, s, es[..|es| - 1]);
    }
  }

  /** The page is sent to /login/ exactly when some response was ok; a failed or rejected fetch never
      navigates. */
  lemma {:induction false} NavigationOnlyOnSuccess(token: string, es: seq<Event>)
    ensures Run(token, Start, es).location == if Response(true) in es then Some(LoginPage) else None
    decreases |es|
  {
    if es != [] {
      var init := es[..|es| - 1];
      NavigationOnlyOnSuccess(token, init);
      assert es == init + [es[|es| - 1]];
    }
  }

  /** The watcher as the script holds it: module-level state updated by its event handlers. */
  class Watcher {
    const csrfToken: string
    var idleSeconds: nat
    var sent: seq<LogoutRequest>
    var location: Option<string>

    function Current(): State
      reads this
    {
      State(idleSeconds, sent, location)
    }

    /** Script start: the counter at 0 and the CSRF token read once from the page. */
    constructor (token: string)
      ensures csrfToken == token && Current() == Start
    {
      csrfToken := token;
      idleSeconds := 0;
      sent := [];
      location := None;
    }

    /** `resetIdle`, the listener for click, mousemove and keypress. */
    method OnActivity()
      modifies this
      ensures Current() == Step(csrfToken, old(Current()), Activity)
    {
      idleSeconds := 0;
    }

    /** The one-second interval callback; `logged` tells whether it printed the every-60-seconds
        diagnostic, which affects nothing else. */
    method OnTick() returns (logged: bool)
      modifies this
      ensures Current() == Step(csrfToken, old(Current()), Tick)
      ensures logged <==> idleSeconds % DiagnosticPeriod == 0
    {
      idleSeconds := idleSeconds + 1;
      logged := idleSeconds % DiagnosticPeriod == 0;
      if idleSeconds >= IdleLimit {
        sent := sent + [LogoutRequestFor(csrfToken)];
      }
    }

    /** The continuation of one fetch. */
    method OnResponse(ok: bool)
      modifies this
      ensures Current() == Step(csrfToken, old(Current()), Response(ok))
    {
      if ok {
        location := Some(LoginPage);
      }
    }
  }
}
