/** Authentication and session handling (security/auth.py): a fixed user table, a numeric role
    hierarchy, and the per-browser session state that login, logout and the timeout check
    update. The wall clock is the parameter `now`, in microseconds. */
module Auth {
  import opened Common

  const MicrosPerSecond: int := 1_000_000
  const MicrosPerDay: int := 86_400_000_000

  /** Session length without "remember me", and the default of a fresh session, in seconds. */
  const DefaultTimeout: int := 1800
  /** Session length with "remember me", in seconds. */
  const RememberedTimeout: int := 3600
  /** The expiry warning starts this many seconds before the end. */
  const WarningWindow: int := 300

  datatype UserEntry = UserEntry(password: string, role: string, fullName: string, email: string)

  /** The demonstration accounts. */
  const Users: map<string, UserEntry> := map[
    "admin" := UserEntry("admin123", "admin", "Administrateur Système", "admin@sonelgaz.dz"),
    "superviseur" := UserEntry("super123", "superviseur", "Superviseur Réseau", "superviseur@sonelgaz.dz"),
    "technicien" := UserEntry("tech123", "technicien", "Technicien Maintenance", "technicien@sonelgaz.dz"),
    "lecture" := UserEntry("lecture123", "lecture", "Consultant Lecture", "consultant@sonelgaz.dz")
  ]

  /** The role hierarchy; a role outside it has level 0. */
  function Level(role: string): (n: nat)
    ensures n <= 4
    ensures n == 0 <==> role !in ["lecture", "technicien", "superviseur", "admin"]
  {
    if role == "lecture" then 1
    else if role == "technicien" then 2
    else if role == "superviseur" then 3
    else if role == "admin" then 4
    else 0
  }

  /** An authenticated user with role `current` may act where `required` is asked. */
  predicate Permits(current: string, required: string)
  {
    Level(current) >= Level(required)
  }

  /** admin satisfies every requirement, and any role satisfies an unknown one. */
  lemma PermitsExtremes(current: string, required: string)
    ensures Permits("admin", required)
    ensures Level(required) == 0 ==> Permits(current, required)
    ensures required == "admin" && Permits(current, required) ==> current == "admin"
  {
  }

  /** The check is reflexive and transitive, and a higher role permits whatever a lower one does. */
  lemma PermitsOrder(a: string, b: string, c: string)
    ensures Permits(a, a)
    ensures Permits(a, b) && Permits(b, c) ==> Permits(a, c)
    ensures Level(a) >= Level(b) ==> forall r :: Permits(b, r) ==> Permits(a, r)
  {
  }

  /** A submitted login form. */
  datatype LoginForm = LoginForm(username: string, password: string, remember: bool)

  /** The form is accepted: both fields filled in and the password the one stored for the user. */
  predicate Accepts(form: LoginForm)
  {
    && form.username != "" && form.password != ""
    && form.username in Users && Users[form.username].password == form.password
  }

  /** An empty field is refused whatever the other holds, and exactly the four stored pairs are
      accepted. */
  lemma AcceptsExactly(form: LoginForm)
    ensures form.username == "" || form.password == "" ==> !Accepts(form)
    ensures Accepts(form) <==> form.username in Users && Users[form.username].password == form.password
  {
  }

  /** `timedelta.seconds` of a duration given in microseconds: the whole seconds within its
      last day, which is also what a negative duration normalises to. */
  function SecondsField(micros: int): (s: int)
    ensures 0 <= s < 86400
    ensures 0 <= micros < MicrosPerDay ==> s == micros / MicrosPerSecond
  {
    (micros / MicrosPerSecond) % 86400
  }

  /** The elapsed duration exceeds a timeout given in seconds: the rule `authenticate` applies. */
  predicate ElapsedExceeds(micros: int, timeout: int)
  {
    micros > timeout * MicrosPerSecond
  }

  datatype Remaining = Remaining(minutes: int, seconds: int)

  /** What `check_session_timeout` decided: whether the session is over, and the minutes and
      seconds shown in the expiry warning, if one is shown. */
  datatype TimeoutCheck = TimeoutCheck(expired: bool, warning: Option<Remaining>)

  /** The warning for `elapsed` seconds out of `timeout`: shown in the last five minutes while
      time remains, as minutes and leftover seconds. */
  function WarningFor(timeout: int, elapsed: int): (w: Option<Remaining>)
    ensures w.Some? <==> elapsed > timeout - WarningWindow && timeout - elapsed > 0
    ensures w.Some? ==>
      && 0 <= w.value.seconds < 60 && 0 <= w.value.minutes < 5
      && w.value.minutes * 60 + w.value.seconds == timeout - elapsed
  {
    var remaining := timeout - elapsed;
    if elapsed > timeout - WarningWindow && remaining > 0 then Some(Remaining(remaining / 60, remaining % 60))
    else None
  }

  /** `check_session_timeout` as written: it compares the `.seconds` field of the elapsed time,
      which restarts from zero every day. */
  function CheckAsWritten(authenticated: bool, loginTime: Option<int>, timeout: int, now: int): (c: TimeoutCheck)
    ensures !authenticated ==> c == TimeoutCheck(true, None)
    ensures authenticated && loginTime.Some? ==>
      (c.expired <==> SecondsField(now - loginTime.value) > timeout)
    ensures c.expired ==> c.warning.None?
  {
    if !authenticated then TimeoutCheck(true, None)
    else if loginTime.None? then TimeoutCheck(false, None)
    else
      var secs := SecondsField(now - loginTime.value);
      if secs > timeout then TimeoutCheck(true, None)
      else TimeoutCheck(false, WarningFor(timeout, secs))
  }

  /** The check with the whole elapsed time, as `authenticate` measures it. */
  function CheckCorrected(authenticated: bool, loginTime: Option<int>, timeout: int, now: int): (c: TimeoutCheck)
    ensures !authenticated ==> c == TimeoutCheck(true, None)
    ensures authenticated ==> (c.expired <==> loginTime.Some? && ElapsedExceeds(now - loginTime.value, timeout))
    ensures c.expired ==> c.warning.None?
    ensures c.warning.Some? ==> 0 < c.warning.value.minutes * 60 + c.warning.value.seconds < WarningWindow
  {
    if !authenticated then TimeoutCheck(true, None)
    else if loginTime.None? then TimeoutCheck(false, None)
    else if ElapsedExceeds(now - loginTime.value, timeout) then TimeoutCheck(true, None)
    else TimeoutCheck(false, WarningFor(timeout, (now - loginTime.value) / MicrosPerSecond))
  }

  /** A session logged in one day and one minute ago, with the default half-hour timeout, is
      not reported as expired, because `.seconds` of that duration is 60. */
  lemma AsWrittenMissesDayOldSession()
    ensures SecondsField(86_460 * MicrosPerSecond) == 60
    ensures !CheckAsWritten(true, Some(0), DefaultTimeout, 86_460 * MicrosPerSecond).expired
    ensures CheckCorrected(true, Some(0), DefaultTimeout, 86_460 * MicrosPerSecond).expired
  {
  }

  /** Within the first day, and on whole seconds, the corrected check decides as the written one. */
  lemma CorrectedAgreesWithinADay(loginTime: int, timeout: int, now: int)
    requires 0 <= now - loginTime < MicrosPerDay && (now - loginTime) % MicrosPerSecond == 0
    ensures CheckCorrected(true, Some(loginTime), timeout, now) == CheckAsWritten(true, Some(loginTime), timeout, now)
  {
    var d := now - loginTime;
    assert d == (d / MicrosPerSecond) * MicrosPerSecond;
    assert SecondsField(d) == d / MicrosPerSecond;
    assert d > timeout * MicrosPerSecond <==> d / MicrosPerSecond > timeout;
  }

  /** The session state of one browser; `None` stands for a key that is not set (or set to None). */
  class Session {
    var authenticated: Option<bool>
    var user: Option<string>
    var role: Option<string>
    var fullName: Option<string>
    var email: Option<string>
    var loginTime: Option<int>
    var sessionTimeout: Option<int>

    /** A fresh, empty session state. */
    constructor()
      ensures authenticated.None? && user.None? && role.None? && fullName.None? && email.None?
      ensures loginTime.None? && sessionTimeout.None?
    {
      authenticated, user, role, fullName, email := None, None, None, None, None;
      loginTime, sessionTimeout := None, None;
    }

    predicate IsAuthenticated()
      reads this
    {
      authenticated == Some(true)
    }

    /** `session_timeout`, 1800 when unset. */
    function Timeout(): int
      reads this
    {
      if sessionTimeout.Some? then sessionTimeout.value else DefaultTimeout
    }

    /** `authenticate`'s expiry rule: logged in, and more than the timeout since login. */
    predicate Expired(now: int)
      reads this
    {
      IsAuthenticated() && loginTime.Some? && ElapsedExceeds(now - loginTime.value, Timeout())
    }

    /** `require_role`: never for an unauthenticated session; otherwise the hierarchy check of
        the session's role (the empty role when unset) against the required one. */
    function RequireRole(required: string): (r: bool)
      reads this
      ensures !IsAuthenticated() ==> !r
      ensures IsAuthenticated() ==> (r <==> Permits(if role.Some? then role.value else "", required))
    {
      IsAuthenticated() && Permits(if role.Some? then role.value else "", required)
    }

    /** `authenticate` for one run of the page, `form` being the submitted login form if any.
        A first run initialises the state. An expired session is logged out (only the flag is
        cleared) and fails; a live one succeeds unchanged. Otherwise an accepted form logs the
        user in with the table's role, name and email, the login time and the chosen timeout,
        and anything else fails leaving the user fields as they were. */
    method Authenticate(now: int, form: Option<LoginForm>) returns (ok: bool)
      modifies this
      ensures ok <==>
        (old(IsAuthenticated()) && !old(Expired(now))) || (!old(IsAuthenticated()) && form.Some? && Accepts(form.value))
      ensures old(IsAuthenticated()) ==>
        && user == old(user) && role == old(role) && fullName == old(fullName) && email == old(email)
        && loginTime == old(loginTime) && sessionTimeout == old(sessionTimeout)
        && authenticated == Some(!old(Expired(now)))
      ensures !old(IsAuthenticated()) && ok ==>
        var u := form.value.username;
        && authenticated == Some(true) && user == Some(u)
        && role == Some(Users[u].role) && fullName == Some(Users[u].fullName) && email == Some(Users[u].email)
        && loginTime == Some(now)
        && sessionTimeout == Some(if form.value.remember then RememberedTimeout else DefaultTimeout)
      ensures !old(IsAuthenticated()) && !ok ==>
        && authenticated == Some(false)
        && user == old(user) && role == old(role) && fullName == old(fullName) && email == old(email)
        && loginTime == (if old(authenticated).None? then None else old(loginTime))
        && sessionTimeout == (if old(authenticated).None? then Some(DefaultTimeout) else old(sessionTimeout))
    {
      if authenticated.None? {
        authenticated := Some(false);
        loginTime := None;
        sessionTimeout := Some(DefaultTimeout);
      }
      if authenticated == Some(true) && loginTime.Some? && now - loginTime.value > Timeout() * MicrosPerSecond {
        authenticated := Some(false);
        return false;
      }
      if authenticated == Some(true) {
        return true;
      }
      assert authenticated.Some? && !authenticated.value;
      if form.None? {
        return false;
      }
      var f := form.value;
      if f.username == "" || f.password == "" {
        return false;
      }
      if f.username in Users && Users[f.username].password == f.password {
        var entry := Users[f.username];
        authenticated := Some(true);
        user := Some(f.username);
        role := Some(entry.role);
        fullName := Some(entry.fullName);
        email := Some(entry.email);
        loginTime := Some(now);
        sessionTimeout := Some(if f.remember then RememberedTimeout else DefaultTimeout);
        return true;
      }
      return false;
    }

    /** `logout`: an authenticated session's state is cleared entirely; otherwise nothing happens. */
    method Logout()
      modifies this
      ensures old(IsAuthenticated()) ==>
        && authenticated.None? && user.None? && role.None? && fullName.None? && email.None?
        && loginTime.None? && sessionTimeout.None?
      ensures !old(IsAuthenticated()) ==>
        && authenticated == old(authenticated) && user == old(user) && role == old(role)
        && fullName == old(fullName) && email == old(email)
        && loginTime == old(loginTime) && sessionTimeout == old(sessionTimeout)
    {
      if authenticated == Some(true) {
        authenticated, user, role, fullName, email := None, None, None, None, None;
        loginTime, sessionTimeout := None, None;
      }
    }

    /** `check_session_timeout` as written; an expired session is logged out, its state cleared
        entirely. */
    method CheckSessionTimeout(now: int) returns (c: TimeoutCheck)
      modifies this
      ensures c == CheckAsWritten(old(IsAuthenticated()), old(loginTime), old(Timeout()), now)
      ensures old(IsAuthenticated()) && c.expired ==>
        && authenticated.None? && user.None? && role.None? && fullName.None? && email.None?
        && loginTime.None? && sessionTimeout.None?
      ensures !(old(IsAuthenticated()) && c.expired) ==>
        && authenticated == old(authenticated) && user == old(user) && role == old(role)
        && fullName == old(fullName) && email == old(email)
        && loginTime == old(loginTime) && sessionTimeout == old(sessionTimeout)
    {
      c := CheckAsWritten(IsAuthenticated(), loginTime, Timeout(), now);
      if IsAuthenticated() && c.expired {
        Logout();
      }
    }

    /** The timeout check measured on the whole elapsed time: it logs out exactly the sessions
        `authenticate` would find expired. */
    method CheckSessionTimeoutCorrected(now: int) returns (c: TimeoutCheck)
      modifies this
      ensures c == CheckCorrected(old(IsAuthenticated()), old(loginTime), old(Timeout()), now)
      ensures old(IsAuthenticated()) ==> (c.expired <==> old(Expired(now)))
      ensures old(Expired(now)) ==>
        && authenticated.None? && user.None? && role.None? && fullName.None? && email.None?
        && loginTime.None? && sessionTimeout.None?
      ensures !old(Expired(now)) ==>
        && authenticated == old(authenticated) && user == old(user) && role == old(role)
        && fullName == old(fullName) && email == old(email)
        && loginTime == old(loginTime) && sessionTimeout == old(sessionTimeout)
    {
      c := CheckCorrected(IsAuthenticated(), loginTime, Timeout(), now);
      if IsAuthenticated() && c.expired {
        Logout();
      }
    }
  }
}
