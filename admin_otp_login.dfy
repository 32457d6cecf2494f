/** The custom admin login view of admin_otp_login.py: a username step, then either a WhatsApp OTP
    (users with a mobile number) or a password (users without one). The view's state is the pair of
    session keys `admin_otp` and `admin_otp_user`. */
module AdminOtpLogin {
  import opened Wrappers
  import opened Strings
  import opened Tables
  import opened Web

  const UsernameTemplate: string := "admin/login_username.html"
  const OtpTemplate: string := "admin/login_otp.html"
  const PasswordTemplate: string := "admin/login_password.html"
  const AdminLoginUrl: string := "/admin/login/"
  const AdminUrl: string := "/admin/"

  /** A `User` with the `mobile_number` of its profile (`None` when it has no profile). */
  datatype User = User(pk: int, username: string, mobile: Option<string>, isStaff: bool, isSuperuser: bool)

  /** The fields of `request.POST` that the view reads; `None` is a missing key. */
  datatype Form = Form(username: Option<string>, otp: Option<string>, resend: Option<string>, password: Option<string>)

  datatype Request = Request(httpMethod: HttpMethod, form: Form)

  /** `request.POST`, which is empty for any method other than POST. */
  function Posted(r: Request): (f: Form)
    ensures r.httpMethod != POST ==> f == Form(None, None, None, None)
  {
    if r.httpMethod == POST then r.form else Form(None, None, None, None)
  }

  datatype Response =
    | Render(template: string, username: Option<string>, otpSent: bool)
    | Redirect(url: string)
    | ServerError

  datatype Flash = Error(text: string) | Success(text: string)

  /** The call to `send_otp_whatsapp(mobile, otp)`. */
  datatype WhatsApp = WhatsApp(mobile: string, otp: string)

  datatype Outcome = Outcome(session: SessionData, response: Response, flash: Option<Flash>, sent: Option<WhatsApp>)

  /** The value `generate_otp()` returns for the drawn integer. */
  function OtpText(n: nat): (otp: string)
    requires 100000 <= n <= 999999
    ensures |otp| == 6 && AllDigits(otp)
    ensures ParseDigits(otp) == n
  {
    NatToStringLength(n, 5);
    ParseNatToString(n);
    NatToString(n)
  }

  /** The session already records a user other than `pk`. */
  predicate OtherUserLoggedIn(s: SessionData, pk: int)
  {
    s.authUser.Some? && s.authUser != Some(pk)
  }

  /** `login(request, user)`: records the user in the session. A session that already records another
      user is flushed first, so no key of the earlier visitor survives; otherwise only the key is
      cycled and the data kept. */
  function Login(s: SessionData, pk: int): (r: SessionData)
    ensures r.authUser == Some(pk)
    ensures OtherUserLoggedIn(s, pk) ==> r == EmptySession.(authUser := Some(pk))
    ensures !OtherUserLoggedIn(s, pk) ==> r == s.(authUser := Some(pk))
  {
    if OtherUserLoggedIn(s, pk) then EmptySession.(authUser := Some(pk)) else s.(authUser := Some(pk))
  }

  predicate HasUsername(u: User, name: Option<string>)
  {
    name == Some(u.username)
  }

  function Named(name: Option<string>): User -> bool
  {
    u => HasUsername(u, name)
  }

  /** Stores a fresh code for `u` and sends it: the resend and the first-send branches. */
  function Issue(s: SessionData, u: User, username: string, n: nat, message: string): (o: Outcome)
    requires 100000 <= n <= 999999 && Filled(u.mobile)
    ensures o.sent.Some? && o.session.adminOtp == Some(o.sent.value.otp) && o.session.adminOtpUser == Some(u.pk)
    ensures o.session.authUser == s.authUser
  {
    var otp := OtpText(n);
    Outcome(s.(adminOtp := Some(otp), adminOtpUser := Some(u.pk)),
            Render(OtpTemplate, Some(username), true),
            Some(Success(message + u.mobile.value)),
            Some(WhatsApp(u.mobile.value, otp)))
  }

  /** `admin_login_with_otp`, with `n` the integer `generate_otp` draws and `auth` what
      `authenticate(request, username=..., password=...)` returns. */
  function AdminLoginWithOtp(r: Request, users: seq<User>, s: SessionData, n: nat, auth: Option<User>): (o: Outcome)
    requires 100000 <= n <= 999999
    ensures o.session.authUser != s.authUser ==> o.response == Redirect(AdminUrl)
    ensures (o.session.employeeId != s.employeeId || o.session.attendanceSessionId != s.attendanceSessionId) ==>
              && o.response == Redirect(AdminUrl) && s.authUser.Some? && o.session.authUser != s.authUser
              && o.session == EmptySession.(authUser := o.session.authUser)
    ensures !(o.session.authUser.Some? && OtherUserLoggedIn(s, o.session.authUser.value)) ==>
              o.session.employeeId == s.employeeId && o.session.attendanceSessionId == s.attendanceSessionId
  {
    var f := Posted(r);
    if r.httpMethod == GET || (r.httpMethod == POST && f.username.None?) then
      Outcome(s, Render(UsernameTemplate, None, false), None, None)
    else
      match Get(users, Named(f.username))
      case MultipleObjectsReturned => Outcome(s, ServerError, None, None)
      case DoesNotExist => Outcome(s, Render(UsernameTemplate, None, false), Some(Error("Invalid username.")), None)
      case Found(u) =>
        var username := f.username.value;
        if Filled(u.mobile) then
          if Filled(f.resend) then
            Issue(s, u, username, n, "OTP resent to ")
          else if Filled(f.otp) then
            if s.adminOtpUser != Some(u.pk) then
              Outcome(s, Redirect(AdminLoginUrl), Some(Error("Session mismatch. Please try again.")), None)
            else if f.otp == s.adminOtp then
              Outcome(Login(s, u.pk).(adminOtp := None, adminOtpUser := None), Redirect(AdminUrl), None, None)
            else
              Outcome(s, Render(OtpTemplate, Some(username), true), Some(Error("Invalid OTP. Please try again.")), None)
          else
            Issue(s, u, username, n, "OTP sent to ")
        else if Filled(f.password) then
          if auth.Some? && (auth.value.isStaff || auth.value.isSuperuser) then
            Outcome(Login(s, auth.value.pk), Redirect(AdminUrl), None, None)
          else
            Outcome(s, Render(PasswordTemplate, Some(username), false), Some(Error("Invalid username or password.")), None)
        else
          Outcome(s, Render(PasswordTemplate, Some(username), false), None, None)
  }

  /** The user the view looks up. */
  function Lookup(r: Request, users: seq<User>): Lookup<User>
  {
    Get(users, Named(Posted(r).username))
  }

  /** A request that reaches the user lookup. */
  predicate PastFirstStep(r: Request)
  {
    r.httpMethod != GET && !(r.httpMethod == POST && Posted(r).username.None?)
  }

  /** The request reaches the OTP branch for `u`. */
  predicate InOtpBranch(r: Request, users: seq<User>, u: User)
  {
    PastFirstStep(r) && Lookup(r, users) == Found(u) && Filled(u.mobile)
  }

  /** A GET, or a POST without `username`, shows the username page and changes nothing. */
  lemma UsernameStepUntouched(r: Request, users: seq<User>, s: SessionData, n: nat, auth: Option<User>)
    requires 100000 <= n <= 999999
    requires !PastFirstStep(r)
    ensures AdminLoginWithOtp(r, users, s, n, auth) == Outcome(s, Render(UsernameTemplate, None, false), None, None)
  {
  }

  /** Any other method reads an empty form, so it is answered as an unknown username (no stored user has
      the `None` username). */
  lemma OtherMethodIsUnknownUser(form: Form, users: seq<User>, s: SessionData, n: nat, auth: Option<User>)
    requires 100000 <= n <= 999999
    ensures var o := AdminLoginWithOtp(Request(OtherMethod, form), users, s, n, auth);
            o.session == s && o.flash == Some(Error("Invalid username."))
  {
    var r := Request(OtherMethod, form);
    CountZero(users, Named(Posted(r).username));
  }

  /** An unknown username gives the error and the username page with the session unchanged. */
  lemma UnknownUsername(r: Request, users: seq<User>, s: SessionData, n: nat, auth: Option<User>)
    requires 100000 <= n <= 999999
    requires PastFirstStep(r)
    requires forall i :: 0 <= i < |users| ==> !HasUsername(users[i], Posted(r).username)
    ensures AdminLoginWithOtp(r, users, s, n, auth)
            == Outcome(s, Render(UsernameTemplate, None, false), Some(Error("Invalid username.")), None)
  {
    CountZero(users, Named(Posted(r).username));
  }

  /** `resend` comes before any entered code and overwrites whatever was stored with a fresh code for
      this user, which is sent to the user's mobile number. */
  lemma ResendOverwrites(r: Request, users: seq<User>, u: User, s: SessionData, n: nat, auth: Option<User>)
    requires 100000 <= n <= 999999
    requires InOtpBranch(r, users, u) && Filled(Posted(r).resend)
    ensures var o := AdminLoginWithOtp(r, users, s, n, auth);
            && o.session == s.(adminOtp := Some(OtpText(n)), adminOtpUser := Some(u.pk))
            && o.sent == Some(WhatsApp(u.mobile.value, OtpText(n)))
            && o.response == Render(OtpTemplate, Posted(r).username, true)
  {
  }

  /** Neither `resend` nor a code: a fresh code is stored and sent, as with `resend`. */
  lemma FirstVisitIssuesCode(r: Request, users: seq<User>, u: User, s: SessionData, n: nat, auth: Option<User>)
    requires 100000 <= n <= 999999
    requires InOtpBranch(r, users, u) && !Filled(Posted(r).resend) && !Filled(Posted(r).otp)
    ensures var o := AdminLoginWithOtp(r, users, s, n, auth);
            && o.session == s.(adminOtp := Some(OtpText(n)), adminOtpUser := Some(u.pk))
            && o.sent == Some(WhatsApp(u.mobile.value, OtpText(n)))
  {
  }

  /** A code entered when the stored user is another one, or none, redirects back without login. */
  lemma MismatchRedirects(r: Request, users: seq<User>, u: User, s: SessionData, n: nat, auth: Option<User>)
    requires 100000 <= n <= 999999
    requires InOtpBranch(r, users, u) && !Filled(Posted(r).resend) && Filled(Posted(r).otp)
    requires s.adminOtpUser != Some(u.pk)
    ensures var o := AdminLoginWithOtp(r, users, s, n, auth);
            o.session == s && o.response == Redirect(AdminLoginUrl)
  {
  }

  /** The stored user and code both match: the user is logged in and both keys are removed. */
  lemma MatchLogsInAndConsumes(r: Request, users: seq<User>, u: User, s: SessionData, n: nat, auth: Option<User>)
    requires 100000 <= n <= 999999
    requires InOtpBranch(r, users, u) && !Filled(Posted(r).resend) && Filled(Posted(r).otp)
    requires s.adminOtpUser == Some(u.pk) && Posted(r).otp == s.adminOtp
    ensures var o := AdminLoginWithOtp(r, users, s, n, auth);
            && o.session == Login(s, u.pk).(adminOtp := None, adminOtpUser := None)
            && (!OtherUserLoggedIn(s, u.pk) ==> o.session == s.(authUser := Some(u.pk), adminOtp := None, adminOtpUser := None))
            && (OtherUserLoggedIn(s, u.pk) ==> o.session == EmptySession.(authUser := Some(u.pk)))
            && o.response == Redirect(AdminUrl)
  {
  }

  /** Submitting the same code again after a successful login is a session mismatch: the code cannot
      be reused. */
  lemma {:induction false} ReplayIsRejected(r: Request, users: seq<User>, u: User, s: SessionData, n: nat, auth: Option<User>)
    requires 100000 <= n <= 999999
    requires InOtpBranch(r, users, u) && !Filled(Posted(r).resend) && Filled(Posted(r).otp)
    requires s.adminOtpUser == Some(u.pk) && Posted(r).otp == s.adminOtp
    ensures var first := AdminLoginWithOtp(r, users, s, n, auth);
            var second := AdminLoginWithOtp(r, users, first.session, n, auth);
            second.session == first.session && second.response == Redirect(AdminLoginUrl)
  {
    MatchLogsInAndConsumes(r, users, u, s, n, auth);
    var first := AdminLoginWithOtp(r, users, s, n, auth);
    MismatchRedirects(r, users, u, first.session, n, auth);
  }

  /** A wrong code keeps the stored code, so the user may try again, without limit. */
  lemma WrongCodeKeepsState(r: Request, users: seq<User>, u: User, s: SessionData, n: nat, auth: Option<User>)
    requires 100000 <= n <= 999999
    requires InOtpBranch(r, users, u) && !Filled(Posted(r).resend) && Filled(Posted(r).otp)
    requires s.adminOtpUser == Some(u.pk) && Posted(r).otp != s.adminOtp
    ensures var o := AdminLoginWithOtp(r, users, s, n, auth);
            o.session == s && o.flash == Some(Error("Invalid OTP. Please try again.")) && o.sent.None?
  {
  }

  /** A user without a mobile number is logged in iff a password is given, it authenticates, and the
      authenticated user is staff or superuser; the OTP keys are never touched on that path. */
  lemma PasswordPathNeedsStaff(r: Request, users: seq<User>, u: User, s: SessionData, n: nat, auth: Option<User>)
    requires 100000 <= n <= 999999
    requires PastFirstStep(r) && Lookup(r, users) == Found(u) && !Filled(u.mobile)
    ensures var o := AdminLoginWithOtp(r, users, s, n, auth);
            var ok := Filled(Posted(r).password) && auth.Some? && (auth.value.isStaff || auth.value.isSuperuser);
            && (ok ==> o.session == Login(s, auth.value.pk) && o.response == Redirect(AdminUrl))
            && (ok && OtherUserLoggedIn(s, auth.value.pk) ==> o.session.employeeId.None? && o.session.attendanceSessionId.None?)
            && (!ok ==> o.session == s)
            && o.sent.None?
  {
  }

  /** The OTP path has no staff check: a user who is neither staff nor superuser but has a mobile
      number is logged in by a matching code. */
  lemma OtpPathSkipsStaffCheck(r: Request, users: seq<User>, u: User, s: SessionData, n: nat, auth: Option<User>)
    requires 100000 <= n <= 999999
    requires InOtpBranch(r, users, u) && !Filled(Posted(r).resend) && Filled(Posted(r).otp)
    requires s.adminOtpUser == Some(u.pk) && Posted(r).otp == s.adminOtp
    requires !u.isStaff && !u.isSuperuser
    ensures var o := AdminLoginWithOtp(r, users, s, n, auth);
            o.session.authUser == Some(u.pk) && o.response == Redirect(AdminUrl)
  {
    MatchLogsInAndConsumes(r, users, u, s, n, auth);
  }

  /** `request.session` of one browser, rewritten in place by successive visits to the view. */
  class AdminLoginSession {
    var data: SessionData

    constructor(initial: SessionData)
      ensures data == initial
    {
      data := initial;
    }

    /** One visit: the response, flash message and WhatsApp call are returned, the keys updated. */
    method Visit(r: Request, users: seq<User>, n: nat, auth: Option<User>)
      returns (response: Response, flash: Option<Flash>, sent: Option<WhatsApp>)
      requires 100000 <= n <= 999999
      modifies this
      ensures var o := AdminLoginWithOtp(r, users, old(data), n, auth);
              data == o.session && response == o.response && flash == o.flash && sent == o.sent
    {
      var o := AdminLoginWithOtp(r, users, data, n, auth);
      data := o.session;
      response := o.response;
      flash := o.flash;
      sent := o.sent;
    }
  }
}
