/** auth.py: the stored-hash format checks, the authentication decision and
    its row updates, and the session dictionary's login, logout and access
    checks.  Hashing is outside the model: the caller supplies the SHA-256
    digest of the password and the outcome of bcrypt's check. */
module Auth {
  import opened Wrappers
  import opened Text
  import opened Schema
  import opened Timestamps
  import opened DbUtils

  // ---------------------------------------------------------------- hash formats

  predicate StartsWith(s: string, prefix: string) {
    |prefix| <= |s| && s[..|prefix|] == prefix
  }

  /** _looks_like_bcrypt: the `$2` prefix of the bcrypt family and more than
      50 characters. */
  function LooksLikeBcrypt(h: string): (r: bool)
    ensures r <==> StartsWith(h, "$2") && |h| > 50
  {
    |h| > 50 && h[0] == '$' && h[1] == '2'
  }

  /** Base-16 digits with single underscores between them, the digit part
      `int(x, 16)` accepts. */
  predicate HexDigitRun(s: string) {
    s != [] && IsHexDigit(s[0]) && IsHexDigit(s[|s| - 1])
    && (forall i :: 0 <= i < |s| ==> IsHexDigit(s[i]) || s[i] == '_')
    && (forall i, j :: 0 <= i < |s| && 0 <= j < |s| && j == i + 1 ==> IsHexDigit(s[i]) || IsHexDigit(s[j]))
  }

  /** The texts `int(x, 16)` parses: surrounding whitespace, an optional
      sign, an optional `0x`/`0X` prefix that may be followed by one
      underscore, then a digit run (only ASCII digits are modelled). */
  predicate HexIntText(s: string) {
    var t := Strip(s);
    var u := if t != [] && (t[0] == '+' || t[0] == '-') then t[1..] else t;
    HexDigitRun(u)
    || (|u| > 2 && u[0] == '0' && (u[1] == 'x' || u[1] == 'X')
        && (HexDigitRun(u[2..]) || (u[2] == '_' && HexDigitRun(u[3..]))))
  }

  /** _looks_like_sha256_hex: 64 characters that `int(x, 16)` accepts.  Every
      hex digest qualifies, and nothing of another length does. */
  function LooksLikeSha256Hex(h: string): (r: bool)
    ensures |h| != 64 ==> !r
    ensures |h| == 64 && (forall i :: 0 <= i < |h| ==> IsHexDigit(h[i])) ==> r
  {
    if |h| == 64 && (forall i :: 0 <= i < |h| ==> IsHexDigit(h[i])) then
      DigestIsHexInt(h);
      true
    else |h| == 64 && HexIntText(h)
  }

  lemma DigestIsHexInt(h: string)
    requires h != [] && forall i :: 0 <= i < |h| ==> IsHexDigit(h[i])
    ensures HexIntText(h)
  {
    StripNoSpaces(h);
  }

  /** The check is looser than its name: `int()` also takes a sign and
      surrounding whitespace, so a 64-character text that is no digest, such
      as a minus sign before 63 hex digits, passes. */
  lemma SignedTextLooksLikeSha256(h: string)
    requires |h| == 64 && h[0] == '-'
    requires forall i :: 1 <= i < |h| ==> IsHexDigit(h[i])
    ensures LooksLikeSha256Hex(h)
  {
    var u := h[1..];
    assert forall i :: 0 <= i < |u| ==> IsHexDigit(u[i]);
    assert HexDigitRun(u);
    StripFixed(h);
  }

  // ---------------------------------------------------------------- authenticate_user

  /** What bcrypt contributes: the module is missing, or `checkpw` answered
      (an exception inside it counts as a mismatch, as the source treats it). */
  datatype BcryptCheck = NoBcrypt | Checked(matches: bool)

  datatype AuthResult = AuthResult(ok: bool, role: Option<string>)

  /** The row is readable and not deactivated: `COALESCE(is_active,1)` is
      consulted only while the column exists, and only 0 blocks. */
  predicate Admissible(u: User, hasIsActive: bool) {
    !hasIsActive || Coalesce1(u.isActive) != 0
  }

  /** The password matches the stored hash: through bcrypt for a bcrypt-format
      hash, otherwise by comparing SHA-256 hex digests. */
  predicate PasswordMatches(storedHash: string, passwordDigest: string, bcrypt: BcryptCheck) {
    if LooksLikeBcrypt(storedHash) then bcrypt == Checked(true) else storedHash == passwordDigest
  }

  /** authenticate_user's answer for the row found (None: no such user). */
  function AuthDecision(row: Option<User>, hasIsActive: bool, passwordDigest: string, bcrypt: BcryptCheck): (r: AuthResult)
    ensures row.None? ==> r == AuthResult(false, None)
    ensures row.Some? && !Admissible(row.value, hasIsActive) ==> r == AuthResult(false, None)
    ensures r.ok <==> row.Some? && Admissible(row.value, hasIsActive) && PasswordMatches(row.value.passwordHash, passwordDigest, bcrypt)
    ensures r.ok ==> r.role == row.value.role
    ensures !r.ok ==> r.role.None?
  {
    if row.None? || !Admissible(row.value, hasIsActive) then AuthResult(false, None)
    else if PasswordMatches(row.value.passwordHash, passwordDigest, bcrypt) then AuthResult(true, row.value.role)
    else AuthResult(false, None)
  }

  /** An unknown or deactivated user is refused whatever the password. */
  lemma RefusedWhateverPassword(users: map<string, User>, hasIsActive: bool, username: string,
                                d1: string, b1: BcryptCheck, d2: string, b2: BcryptCheck)
    requires username !in users || !Admissible(users[username], hasIsActive)
    ensures var row := if username in users then Some(users[username]) else None;
            AuthDecision(row, hasIsActive, d1, b1) == AuthDecision(row, hasIsActive, d2, b2) == AuthResult(false, None)
  {
  }

  /** The row after a successful login: a bcrypt hash is replaced by the
      SHA-256 digest, and `last_login` is the current instant. */
  function LoggedIn(u: User, passwordDigest: string, now: DateTime): (v: User)
    requires ValidDateTime(now)
    ensures v.role == u.role && v.isActive == u.isActive && v.createdDate == u.createdDate
    ensures v.lastLogin == Some(Format(now))
  {
    u.(passwordHash := if LooksLikeBcrypt(u.passwordHash) then passwordDigest else u.passwordHash,
       lastLogin := Some(Format(now)))
  }

  /** After a successful login the stored hash is always the SHA-256 digest
      of the password, whichever path verified it. */
  lemma LoggedInStoresDigest(u: User, passwordDigest: string, bcrypt: BcryptCheck, now: DateTime)
    requires ValidDateTime(now)
    requires PasswordMatches(u.passwordHash, passwordDigest, bcrypt)
    ensures LoggedIn(u, passwordDigest, now).passwordHash == passwordDigest
  {
  }

  /** authenticate_user: the decision, and on success the hash downgrade and
      the `last_login` update; a refusal changes nothing. */
  method AuthenticateUser(db: Database, username: string, passwordDigest: string, bcrypt: BcryptCheck, now: DateTime)
    returns (ok: bool, role: Option<string>)
    requires db.Valid() && ValidDateTime(now)
    modifies db`users
    ensures db.Valid()
    ensures AuthResult(ok, role) == AuthDecision(if username in old(db.users) then Some(old(db.users)[username]) else None,
                                                 db.usersHasIsActive, passwordDigest, bcrypt)
    ensures !ok ==> db.users == old(db.users)
    ensures ok ==> db.users == old(db.users)[username := LoggedIn(old(db.users)[username], passwordDigest, now)]
    ensures ok ==> db.users[username].passwordHash == passwordDigest
  {
    if username !in db.users {
      return false, None;
    }
    var u := db.users[username];
    if !Admissible(u, db.usersHasIsActive) {
      return false, None;
    }
    var authed := false;
    if LooksLikeBcrypt(u.passwordHash) {
      if bcrypt.Checked? {
        authed := bcrypt.matches;
        if authed {
          db.users := db.users[username := u.(passwordHash := passwordDigest)];
        }
      }
    } else {
      authed := u.passwordHash == passwordDigest;
    }
    if authed {
      db.users := db.users[username := LoggedIn(u, passwordDigest, now)];
      LoggedInStoresDigest(u, passwordDigest, bcrypt, now);
      return true, u.role;
    }
    return false, None;
  }

  // ---------------------------------------------------------------- session

  /** A value held in the session dictionary. */
  datatype SessionValue = SBool(b: bool) | SNone | SText(s: string) | SInstant(at: DateTime)

  /** Python truthiness of a session value. */
  predicate SessionTruthy(v: SessionValue) {
    match v
    case SBool(b) => b
    case SNone => false
    case SText(s) => s != ""
    case SInstant(_) => true
  }

  function TextOrNone(s: Option<string>): SessionValue {
    if s.Some? then SText(s.value) else SNone
  }

  /** The username a session value names, for the audit log. */
  function NameOf(v: SessionValue): Option<string> {
    if v.SText? then Some(v.s) else None
  }

  /** init_session_state's default dictionary, in its insertion order. */
  function SessionDefaults(now: DateTime): seq<(string, SessionValue)> {
    [("authenticated", SBool(false)), ("username", SNone), ("user_role", SNone),
     ("login_attempted", SBool(false)), ("login_loading", SBool(false)), ("need_rerun", SBool(false)),
     ("last_activity", SInstant(now)), ("maintenance_run", SNone), ("backup_created", SBool(false))]
  }

  /** The dictionary a sequence of pairs spells; the first pair of a key wins. */
  function PairsMap(ds: seq<(string, SessionValue)>): (m: map<string, SessionValue>)
    ensures forall i :: 0 <= i < |ds| ==> ds[i].0 in m
    ensures forall k :: k in m ==> exists i :: 0 <= i < |ds| && ds[i].0 == k && m[k] == ds[i].1
    decreases |ds|
  {
    if ds == [] then map[]
    else
      var m := PairsMap(ds[..|ds| - 1]);
      var last := ds[|ds| - 1];
      assert forall i :: 0 <= i < |ds| - 1 ==> ds[i] == ds[..|ds| - 1][i];
      if last.0 in m then m else m[last.0 := last.1]
  }

  /** The session after init_session_state: the defaults for the keys it
      lacks, its own values everywhere else. */
  function InitSession(vars: map<string, SessionValue>, now: DateTime): map<string, SessionValue> {
    PairsMap(SessionDefaults(now)) + vars
  }

  /** init_session_state never overwrites a key, adds every default key,
      and fills the missing ones with their defaults. */
  lemma InitSessionSpec(vars: map<string, SessionValue>, now: DateTime)
    ensures forall k :: k in vars ==> k in InitSession(vars, now) && InitSession(vars, now)[k] == vars[k]
    ensures forall i :: 0 <= i < |SessionDefaults(now)| ==> SessionDefaults(now)[i].0 in InitSession(vars, now)
    ensures forall k :: k in InitSession(vars, now) && k !in vars ==> InitSession(vars, now)[k] == PairsMap(SessionDefaults(now))[k]
  {
  }

  /** The default keys do not depend on the clock. */
  lemma DefaultKeysFixed(now: DateTime, later: DateTime)
    ensures PairsMap(SessionDefaults(now)).Keys == PairsMap(SessionDefaults(later)).Keys
  {
    SameKeysSameDomain(SessionDefaults(now), SessionDefaults(later));
  }

  /** Two pair sequences with the same keys in the same places spell
      dictionaries with the same keys. */
  lemma {:induction false} SameKeysSameDomain(ds: seq<(string, SessionValue)>, es: seq<(string, SessionValue)>)
    requires |ds| == |es| && forall i :: 0 <= i < |ds| ==> ds[i].0 == es[i].0
    ensures PairsMap(ds).Keys == PairsMap(es).Keys
    decreases |ds|
  {
    if ds != [] {
      var n := |ds| - 1;
      assert forall i :: 0 <= i < n ==> ds[..n][i] == ds[i] && es[..n][i] == es[i];
      SameKeysSameDomain(ds[..n], es[..n]);
    }
  }

  /** A second init_session_state changes nothing, whatever the clock says
      then. */
  lemma InitSessionIdempotent(vars: map<string, SessionValue>, now: DateTime, later: DateTime)
    ensures InitSession(InitSession(vars, now), later) == InitSession(vars, now)
  {
    DefaultKeysFixed(now, later);
    var once := InitSession(vars, now);
    UnionAbsorbed(PairsMap(SessionDefaults(later)), once);
  }

  lemma UnionAbsorbed(a: map<string, SessionValue>, b: map<string, SessionValue>)
    requires a.Keys <= b.Keys
    ensures a + b == b
  {
    assert (a + b).Keys == b.Keys;
  }

  /** One step of the defaults loop on a dictionary union. */
  lemma UnionStep(pm: map<string, SessionValue>, vars: map<string, SessionValue>, k: string, v: SessionValue)
    ensures (if k in pm then pm else pm[k := v]) + vars
            == (if k in pm + vars then pm + vars else (pm + vars)[k := v])
  {
    if k !in pm && k in vars {
      assert (pm[k := v] + vars).Keys == (pm + vars).Keys;
    }
  }

  /** The session dictionary. */
  class Session {
    var vars: map<string, SessionValue>

    constructor ()
      ensures vars == map[]
    {
      vars := map[];
    }

    /** init_session_state: the loop over the defaults that sets only the
        keys not yet present. */
    method InitSessionState(now: DateTime)
      modifies this
      ensures vars == InitSession(old(vars), now)
    {
      var defaults := SessionDefaults(now);
      ghost var start := vars;
      for i := 0 to |defaults|
        invariant vars == PairsMap(defaults[..i]) + start
      {
        var (key, value) := defaults[i];
        assert defaults[..i + 1][..i] == defaults[..i];
        UnionStep(PairsMap(defaults[..i]), start, key, value);
        if key !in vars {
          vars := vars[key := value];
        }
      }
      assert defaults[..|defaults|] == defaults;
    }

    /** login_form after the form is submitted: the authentication outcome
        is recorded in the session and in the audit log. */
    method SubmitLogin(db: Database, username: string, outcome: AuthResult, now: DateTime)
      requires ValidDateTime(now)
      modifies this, db`log
      ensures vars == LoginVars(old(vars), username, outcome)
      ensures outcome.ok ==> db.log == old(db.log) + [LogEntry(Format(now), Some(username), "login", None, None, None, None)]
      ensures !outcome.ok ==> db.log == old(db.log) + [LogEntry(Format(now), Some(username), "login_failed", None, None, None, None)]
    {
      vars := vars["login_loading" := SBool(true)];
      if outcome.ok {
        vars := vars["authenticated" := SBool(true)]["username" := SText(username)]["user_role" := TextOrNone(outcome.role)]
                    ["login_attempted" := SBool(false)]["view" := SText("main")];
        db.LogActivity(Some(username), "login", None, None, None, None, now);
        vars := vars["need_rerun" := SBool(true)]["login_loading" := SBool(false)];
      } else {
        vars := vars["login_attempted" := SBool(true)];
        db.LogActivity(Some(username), "login_failed", None, None, None, None, now);
        vars := vars["login_loading" := SBool(false)];
      }
    }

    /** logout: a logout entry only for an authenticated session, then the
        session is anonymous and back on the main view. */
    method Logout(db: Database, now: DateTime)
      requires ValidDateTime(now)
      requires "authenticated" in vars && (SessionTruthy(vars["authenticated"]) ==> "username" in vars)
      modifies this, db`log
      ensures vars == LoggedOut(old(vars))
      ensures SessionTruthy(old(vars)["authenticated"]) ==>
                db.log == old(db.log) + [LogEntry(Format(now), NameOf(old(vars)["username"]), "logout", None, None, None, None)]
      ensures !SessionTruthy(old(vars)["authenticated"]) ==> db.log == old(db.log)
    {
      if SessionTruthy(vars["authenticated"]) {
        db.LogActivity(NameOf(vars["username"]), "logout", None, None, None, None, now);
      }
      vars := LoggedOut(vars);
    }
  }

  /** The session state a submitted login form leaves: on success the user,
      the role and the main view; on failure only the attempt is marked. */
  function LoginVars(vars: map<string, SessionValue>, username: string, outcome: AuthResult): (r: map<string, SessionValue>)
    ensures r.Keys == vars.Keys + {"login_loading", "login_attempted"}
                      + (if outcome.ok then {"authenticated", "username", "user_role", "view", "need_rerun"} else {})
    ensures outcome.ok ==> && r["authenticated"] == SBool(true) && r["username"] == SText(username)
                           && r["user_role"] == TextOrNone(outcome.role) && r["view"] == SText("main")
    ensures !outcome.ok ==> r["login_attempted"] == SBool(true)
                            && forall k :: k in vars && k != "login_attempted" && k != "login_loading" ==> k in r && r[k] == vars[k]
    ensures r["login_loading"] == SBool(false)
  {
    if outcome.ok then
      vars["login_loading" := SBool(true)]["authenticated" := SBool(true)]["username" := SText(username)]
          ["user_role" := TextOrNone(outcome.role)]["login_attempted" := SBool(false)]["view" := SText("main")]
          ["need_rerun" := SBool(true)]["login_loading" := SBool(false)]
    else vars["login_loading" := SBool(true)]["login_attempted" := SBool(true)]["login_loading" := SBool(false)]
  }

  /** The login form and require_admin together: after a login attempt an
      admin page opens exactly when the stored user is active, the password
      matched and the role is admin, or the attempt failed and the session
      already held an administrator. */
  lemma AdminAccessAfterLogin(vars: map<string, SessionValue>, users: map<string, User>, hasIsActive: bool,
                              username: string, passwordDigest: string, bcrypt: BcryptCheck)
    requires "authenticated" in vars && "user_role" in vars
    ensures var row := if username in users then Some(users[username]) else None;
            var outcome := AuthDecision(row, hasIsActive, passwordDigest, bcrypt);
            RequireAdmin(LoginVars(vars, username, outcome)) == Allowed <==>
              || (&& username in users && Admissible(users[username], hasIsActive)
                  && PasswordMatches(users[username].passwordHash, passwordDigest, bcrypt)
                  && users[username].role == Some("admin"))
              || (!outcome.ok && RequireAdmin(vars) == Allowed)
  {
    var row := if username in users then Some(users[username]) else None;
    var outcome := AuthDecision(row, hasIsActive, passwordDigest, bcrypt);
    if !outcome.ok {
      assert LoginVars(vars, username, outcome)["authenticated"] == vars["authenticated"];
      assert LoginVars(vars, username, outcome)["user_role"] == vars["user_role"];
    }
  }

  /** The session state logout leaves. */
  function LoggedOut(vars: map<string, SessionValue>): (r: map<string, SessionValue>)
    ensures r.Keys == vars.Keys + {"authenticated", "username", "user_role", "login_attempted", "view", "need_rerun"}
    ensures r["authenticated"] == SBool(false) && r["username"] == SNone && r["user_role"] == SNone
    ensures r["view"] == SText("main") && r["login_attempted"] == SBool(false) && r["need_rerun"] == SBool(true)
    ensures forall k :: k in vars && k !in {"authenticated", "username", "user_role", "login_attempted", "view", "need_rerun"} ==>
              k in r && r[k] == vars[k]
  {
    vars["authenticated" := SBool(false)]["username" := SNone]["user_role" := SNone]
        ["login_attempted" := SBool(false)]["view" := SText("main")]["need_rerun" := SBool(true)]
  }

  // ---------------------------------------------------------------- require_admin

  /** How a page guarded by require_admin proceeds: the login form is shown
      (and the page stops unless that form logs in), the administrator
      message is shown and the page stops, or the page runs. */
  datatype Access = NeedsLogin | Denied(message: string) | Allowed

  function RequireAdmin(vars: map<string, SessionValue>): (a: Access)
    requires "authenticated" in vars && "user_role" in vars
    ensures a == Allowed <==> SessionTruthy(vars["authenticated"]) && vars["user_role"] == SText("admin")
    ensures a == NeedsLogin <==> !SessionTruthy(vars["authenticated"])
    ensures a.Denied? ==> a.message == "Administrator access required"
  {
    if !SessionTruthy(vars["authenticated"]) then NeedsLogin
    else if vars["user_role"] != SText("admin") then Denied("Administrator access required")
    else Allowed
  }

  /** Logging out closes every admin page; logging in opens them exactly for
      the admin role. */
  lemma AccessAfterTransitions(vars: map<string, SessionValue>, username: string, role: Option<string>)
    ensures RequireAdmin(LoggedOut(vars)) == NeedsLogin
    ensures var after := vars["authenticated" := SBool(true)]["username" := SText(username)]["user_role" := TextOrNone(role)];
            RequireAdmin(after) == Allowed <==> role == Some("admin")
  {
  }
}
