/**
 * The authentication service: password-strength scoring, the login decision with its lockout and
 * failed-login bookkeeping, session tokens and their expiry, and password reset by emailed token.
 *
 * A lookup of a user row by email or by token is given as the row the query returned (`None` when
 * it found no row, or failed). The password hash comparison, the hashing itself and the random bytes
 * of a token are parameters: they come from libraries outside this model.
 */
module Auth {
  import opened Wrappers
  import opened Schema
  import Seqs
  import Text
  import Store

  // ---------------------------------------------------------------- password strength

  /** The five criteria, in the order they are checked and their messages listed. */
  datatype Criterion = MinLength | HasUpper | HasLower | HasDigit | HasSpecial

  const Criteria: seq<Criterion> := [MinLength, HasUpper, HasLower, HasDigit, HasSpecial]

  /** The characters of the special-character class. */
  const SpecialChars: string := "!@#$%^&*(),.?\":{}|<>"

  predicate Meets(password: string, c: Criterion) {
    match c
    case MinLength => Text.Utf16Length(password) >= 8
    case HasUpper => exists i :: 0 <= i < |password| && Text.IsAsciiUpper(password[i])
    case HasLower => exists i :: 0 <= i < |password| && Text.IsAsciiLower(password[i])
    case HasDigit => exists i :: 0 <= i < |password| && Text.IsAsciiDigit(password[i])
    case HasSpecial => exists i :: 0 <= i < |password| && password[i] in SpecialChars
  }

  /** A strength verdict; each feedback message is named by the criterion it asks for. */
  datatype Strength = Strength(score: int, feedback: seq<Criterion>, isValid: bool)

  function MetBy(password: string): Criterion -> bool {
    c => Meets(password, c)
  }

  /** The verdict, stated as counts: the criteria met, and the criteria missed in their fixed order. */
  function StrengthOf(password: string): Strength {
    var score := |Seqs.Filter(Criteria, MetBy(password))|;
    Strength(score, Seqs.Filter(Criteria, Seqs.Negate(MetBy(password))), score >= 4)
  }

  /** `validatePasswordStrength`: five checks in turn, each adding a point or a message. */
  method ValidatePasswordStrength(password: string) returns (s: Strength)
    ensures s == StrengthOf(password)
  {
    ghost var met := MetBy(password);
    ghost var missed := Seqs.Negate(met);
    // What each criterion contributes: a point, or its message.
    ghost var f0, f1, f2, f3, f4 :=
      Pick(missed, MinLength), Pick(missed, HasUpper), Pick(missed, HasLower), Pick(missed, HasDigit), Pick(missed, HasSpecial);
    ghost var n0, n1, n2, n3, n4 :=
      |Pick(met, MinLength)|, |Pick(met, HasUpper)|, |Pick(met, HasLower)|, |Pick(met, HasDigit)|, |Pick(met, HasSpecial)|;
    PickEither(password, MinLength);
    PickEither(password, HasUpper);
    PickEither(password, HasLower);
    PickEither(password, HasDigit);
    PickEither(password, HasSpecial);
    var feedback: seq<Criterion> := [];
    var score := 0;
    if Meets(password, MinLength) { score := score + 1; } else { feedback := feedback + [MinLength]; }
    assert feedback == f0 && score == n0;
    if Meets(password, HasUpper) { score := score + 1; } else { feedback := feedback + [HasUpper]; }
    assert feedback == f0 + f1 && score == n0 + n1;
    if Meets(password, HasLower) { score := score + 1; } else { feedback := feedback + [HasLower]; }
    assert feedback == f0 + f1 + f2 && score == n0 + n1 + n2;
    if Meets(password, HasDigit) { score := score + 1; } else { feedback := feedback + [HasDigit]; }
    assert feedback == f0 + f1 + f2 + f3 && score == n0 + n1 + n2 + n3;
    if Meets(password, HasSpecial) { score := score + 1; } else { feedback := feedback + [HasSpecial]; }
    assert feedback == f0 + f1 + f2 + f3 + f4 && score == n0 + n1 + n2 + n3 + n4;
    StrengthInParts(password);
    assert feedback == StrengthOf(password).feedback && score == StrengthOf(password).score;
    s := Strength(score, feedback, score >= 4);
  }

  /** The verdict put together criterion by criterion. */
  lemma StrengthInParts(password: string)
    ensures var met, missed := MetBy(password), Seqs.Negate(MetBy(password));
      StrengthOf(password).feedback ==
        Pick(missed, MinLength) + Pick(missed, HasUpper) + Pick(missed, HasLower) + Pick(missed, HasDigit) + Pick(missed, HasSpecial) &&
      StrengthOf(password).score ==
        |Pick(met, MinLength)| + |Pick(met, HasUpper)| + |Pick(met, HasLower)| + |Pick(met, HasDigit)| + |Pick(met, HasSpecial)|
    ensures StrengthOf(password) ==
              Strength(StrengthOf(password).score, StrengthOf(password).feedback, StrengthOf(password).score >= 4)
  {
    UnrollCriteria(MetBy(password));
    UnrollCriteria(Seqs.Negate(MetBy(password)));
  }

  function Pick(p: Criterion -> bool, c: Criterion): seq<Criterion> {
    if p(c) then [c] else []
  }

  /** A criterion is picked as met or as missed, according to whether the password meets it. */
  lemma PickEither(password: string, c: Criterion)
    ensures Meets(password, c) ==> Pick(MetBy(password), c) == [c] && Pick(Seqs.Negate(MetBy(password)), c) == []
    ensures !Meets(password, c) ==> Pick(MetBy(password), c) == [] && Pick(Seqs.Negate(MetBy(password)), c) == [c]
  {
  }

  /** A filter over the five criteria, written out one criterion at a time. */
  lemma UnrollCriteria(p: Criterion -> bool)
    ensures Seqs.Filter(Criteria, p) ==
            Pick(p, MinLength) + Pick(p, HasUpper) + Pick(p, HasLower) + Pick(p, HasDigit) + Pick(p, HasSpecial)
  {
    var c0: seq<Criterion> := [];
    var c1 := c0 + [MinLength];
    var c2 := c1 + [HasUpper];
    var c3 := c2 + [HasLower];
    var c4 := c3 + [HasDigit];
    assert Criteria == c4 + [HasSpecial];
    Seqs.FilterAppend(c0, MinLength, p);
    Seqs.FilterAppend(c1, HasUpper, p);
    Seqs.FilterAppend(c2, HasLower, p);
    Seqs.FilterAppend(c3, HasDigit, p);
    Seqs.FilterAppend(c4, HasSpecial, p);
  }

  /** Every criterion either scores a point or adds a message: the two always add up to five. */
  lemma ScorePlusFeedback(password: string)
    ensures StrengthOf(password).score + |StrengthOf(password).feedback| == |Criteria| == 5
  {
    Seqs.FilterPartition(Criteria, MetBy(password));
  }

  /** The feedback lists exactly the missed criteria, in the order they are checked. */
  lemma FeedbackIsMissedCriteria(password: string, c: Criterion)
    ensures c in StrengthOf(password).feedback <==> !Meets(password, c)
    ensures Seqs.IsSublist(StrengthOf(password).feedback, Criteria)
  {
    assert c in Criteria;
    if !Meets(password, c) {
      Seqs.FilterKeeps(Criteria, Seqs.Negate(MetBy(password)), c);
    }
    Seqs.FilterIsSublist(Criteria, Seqs.Negate(MetBy(password)));
  }

  /** A password is strong enough when it misses at most one criterion. */
  lemma ValidMissesAtMostOne(password: string)
    ensures StrengthOf(password).isValid <==> |StrengthOf(password).feedback| <= 1
  {
    ScorePlusFeedback(password);
  }

  /** `StrongPass123!` meets every criterion. */
  lemma StrongPassExample()
    ensures StrengthOf("StrongPass123!") == Strength(5, [], true)
  {
    var p := "StrongPass123!";
    assert Text.IsAsciiUpper(p[0]) && Text.IsAsciiLower(p[1]) && Text.IsAsciiDigit(p[10]) && p[13] in SpecialChars;
    forall c | c in Criteria ensures Meets(p, c) { }
    Seqs.FilterAll(Criteria, MetBy(p));
    ScorePlusFeedback(p);
  }

  /** A password with lower-case letters and nothing else that counts scores one, and is not accepted. */
  lemma OnlyLowerScoresOne(p: string)
    requires Meets(p, HasLower) && !Meets(p, MinLength)
    requires !Meets(p, HasUpper) && !Meets(p, HasDigit) && !Meets(p, HasSpecial)
    ensures StrengthOf(p).score == 1 && StrengthOf(p).feedback == [MinLength, HasUpper, HasDigit, HasSpecial]
    ensures !StrengthOf(p).isValid
  {
    var missed := Seqs.Negate(MetBy(p));
    UnrollCriteria(missed);
    ScorePlusFeedback(p);
    assert Pick(missed, MinLength) == [MinLength] && Pick(missed, HasUpper) == [HasUpper];
    assert Pick(missed, HasLower) == [] && Pick(missed, HasDigit) == [HasDigit] && Pick(missed, HasSpecial) == [HasSpecial];
  }

  /** `weak` meets only the lower-case criterion, so it is not accepted. */
  lemma WeakExample(p: string)
    requires p == "weak"
    ensures StrengthOf(p).score == 1 && StrengthOf(p).feedback == [MinLength, HasUpper, HasDigit, HasSpecial]
    ensures !StrengthOf(p).isValid
  {
    WeakMeetsOnlyLower(p);
    OnlyLowerScoresOne(p);
  }

  lemma WeakMeetsOnlyLower(p: string)
    requires p == "weak"
    ensures Meets(p, HasLower) && !Meets(p, MinLength)
    ensures !Meets(p, HasUpper) && !Meets(p, HasDigit) && !Meets(p, HasSpecial)
  {
    assert Text.IsAsciiLower(p[0]);
    forall i | 0 <= i < |p| ensures !Text.IsAsciiUpper(p[i]) && !Text.IsAsciiDigit(p[i]) && p[i] !in SpecialChars {
      assert p[i] == 'w' || p[i] == 'e' || p[i] == 'a' || p[i] == 'k';
    }
  }

  // ---------------------------------------------------------------- lockout and login

  /** `isAccountLocked`: the row has a lockout time strictly after now. */
  predicate IsAccountLocked(record: Option<User>, now: Millis) {
    record.Some? && record.value.lockedUntil.Some? && record.value.lockedUntil.value > now
  }

  /**
   * A row the lookup did not return is never locked, and a lockout is a window: locked at some instant,
   * the account is locked at every earlier one, and from the stored instant on it is not.
   */
  lemma LockoutIsAWindow(record: Option<User>, t: Millis, later: Millis)
    requires t <= later
    ensures !IsAccountLocked(None, t)
    ensures IsAccountLocked(record, later) ==> IsAccountLocked(record, t)
    ensures record.Some? && record.value.lockedUntil.Some? && record.value.lockedUntil.value <= t ==>
              !IsAccountLocked(record, later)
  {
  }

  /** The stored procedures a login attempt calls, with the email they are called for. */
  datatype Rpc = HandleFailedLogin(email: string) | HandleSuccessfulLogin(email: string)

  datatype LoginFailure = AccountLocked(lockoutTime: Option<Millis>) | BadCredentials | EmailNotVerified | SignInFailed

  datatype LoginResult = LoggedIn(user: User) | LoginRefused(failure: LoginFailure)

  datatype LoginAttempt = LoginAttempt(result: LoginResult, calls: seq<Rpc>)

  /**
   * `attemptLogin`: `record` is the row looked up by the email, `passwordMatches` the hash comparison
   * of the typed password with the row's hash, `authFails` an error from the sign-in service.
   */
  function AttemptLogin(email: string, record: Option<User>, now: Millis, passwordMatches: bool, authFails: bool): (a: LoginAttempt)
    ensures a.result.LoggedIn? <==>
              !IsAccountLocked(record, now) && record.Some? && record.value.emailVerified && passwordMatches && !authFails
    ensures a.result.LoggedIn? ==> a.result.user == record.value
    ensures IsAccountLocked(record, now) ==> a == LoginAttempt(LoginRefused(AccountLocked(record.value.lockedUntil)), [])
    ensures a.calls == [HandleSuccessfulLogin(email)] <==> a.result.LoggedIn?
    ensures a.calls == [HandleFailedLogin(email)] <==>
              !IsAccountLocked(record, now) &&
              (record.None? || (record.value.emailVerified && (!passwordMatches || authFails)))
    ensures a.calls == [] <==> IsAccountLocked(record, now) || (record.Some? && !record.value.emailVerified)
  {
    if IsAccountLocked(record, now) then LoginAttempt(LoginRefused(AccountLocked(record.value.lockedUntil)), [])
    else if record.None? then LoginAttempt(LoginRefused(BadCredentials), [HandleFailedLogin(email)])
    else if !record.value.emailVerified then LoginAttempt(LoginRefused(EmailNotVerified), [])
    else if !passwordMatches then LoginAttempt(LoginRefused(BadCredentials), [HandleFailedLogin(email)])
    else if authFails then LoginAttempt(LoginRefused(SignInFailed), [HandleFailedLogin(email)])
    else LoginAttempt(LoggedIn(record.value), [HandleSuccessfulLogin(email)])
  }

  /** An unknown email and a wrong password get the same answer, so the reply does not reveal which emails exist. */
  lemma UnknownAndWrongPasswordLookAlike(email: string, u: User, now: Millis, authFails: bool)
    requires !IsAccountLocked(Some(u), now) && u.emailVerified
    ensures AttemptLogin(email, None, now, false, authFails) == AttemptLogin(email, Some(u), now, false, authFails)
  {
  }

  // ---------------------------------------------------------------- session tokens

  /** A string of lower-case hex digits only. */
  predicate IsHexString(s: string) {
    forall i :: 0 <= i < |s| ==> Text.IsDigitOf(s[i], 16)
  }

  lemma HexConcat(a: string, b: string)
    requires |a| == 2 && Text.IsDigitOf(a[0], 16) && Text.IsDigitOf(a[1], 16) && IsHexString(b)
    ensures IsHexString(a + b)
  {
    assert forall i :: 2 <= i < |a + b| ==> (a + b)[i] == b[i - 2];
  }

  /** A byte's high and low nibble as hex digits. */
  function Nibbles(b: Text.byte): (r: string)
    ensures |r| == 2 && Text.IsDigitOf(r[0], 16) && Text.IsDigitOf(r[1], 16)
    ensures Text.DigitValue(r[0]) * 16 + Text.DigitValue(r[1]) == b as int
  {
    Text.DigitRoundTrip(b as nat / 16);
    Text.DigitRoundTrip(b as nat % 16);
    [Text.DigitChar(b as nat / 16), Text.DigitChar(b as nat % 16)]
  }

  /** `bytes.map(b => b.toString(16).padStart(2, '0')).join('')`, each byte's part written as its two nibbles. */
  function SessionToken(bytes: seq<Text.byte>): (r: string)
    ensures |r| == 2 * |bytes|
    ensures IsHexString(r)
    decreases |bytes|
  {
    if bytes == [] then ""
    else
      var head, rest := Nibbles(bytes[0]), SessionToken(bytes[1..]);
      HexConcat(head, rest);
      head + rest
  }

  /** Each byte's part of the token is what `toString(16).padStart(2, '0')` writes for it. */
  lemma SessionTokenJoinsByteHex(bytes: seq<Text.byte>)
    requires bytes != []
    ensures SessionToken(bytes) == Text.ByteHex(bytes[0]) + SessionToken(bytes[1..])
  {
    Text.ByteHexDigits(bytes[0]);
  }

  /** Reads a token back as bytes, two hex digits at a time. */
  function DecodeToken(s: string): seq<int>
    decreases |s|
  {
    if |s| < 2 then [] else [Text.DigitValue(s[0]) * 16 + Text.DigitValue(s[1])] + DecodeToken(s[2..])
  }

  /** The integer values of a byte sequence. */
  function Values(bytes: seq<Text.byte>): seq<int> {
    seq(|bytes|, i requires 0 <= i < |bytes| => bytes[i] as int)
  }

  lemma DecodeTokenCons(h: string, t: string, v: int)
    requires |h| == 2 && Text.DigitValue(h[0]) * 16 + Text.DigitValue(h[1]) == v
    ensures DecodeToken(h + t) == [v] + DecodeToken(t)
  {
    assert (h + t)[2..] == t;
  }

  /** Decoding a token gives back its first byte, then the decoding of the rest. */
  lemma DecodeTokenStep(bytes: seq<Text.byte>)
    requires bytes != []
    ensures DecodeToken(SessionToken(bytes)) == [bytes[0] as int] + DecodeToken(SessionToken(bytes[1..]))
  {
    var h, t := Nibbles(bytes[0]), SessionToken(bytes[1..]);
    assert SessionToken(bytes) == h + t;
    DecodeTokenCons(h, t, bytes[0] as int);
  }

  /** The token loses nothing: each byte can be read back from its two digits. */
  lemma {:induction false} SessionTokenRoundTrip(bytes: seq<Text.byte>)
    ensures DecodeToken(SessionToken(bytes)) == Values(bytes)
    decreases |bytes|
  {
    if bytes != [] {
      DecodeTokenStep(bytes);
      SessionTokenRoundTrip(bytes[1..]);
      assert Values(bytes) == [bytes[0] as int] + Values(bytes[1..]);
    }
  }

  /** The token of the 32 random bytes a session gets is 64 lower-case hex digits. */
  lemma SessionTokenShape(bytes: seq<Text.byte>)
    requires |bytes| == 32
    ensures |SessionToken(bytes)| == 64
    ensures forall i :: 0 <= i < 64 ==> ('0' <= SessionToken(bytes)[i] <= '9' || 'a' <= SessionToken(bytes)[i] <= 'f')
  {
    var t := SessionToken(bytes);
    assert IsHexString(t);
  }

  // ---------------------------------------------------------------- sessions

  /** The expiry of a new session: thirty days with "remember me", a day otherwise. */
  function SessionExpiry(now: Millis, rememberMe: bool): (e: Millis)
    ensures e > now
    ensures e - now == (if rememberMe then 30 else 1) * DayMs
  {
    if rememberMe then now + 30 * DayMs else now + 24 * HourMs
  }

  /**
   * `createSession`: the token of the random bytes is returned whether or not the insert succeeded,
   * since the insert's error is not looked at.
   */
  method CreateSession(db: Store.Database, userId: Id, random: seq<Text.byte>, deviceInfo: string, rememberMe: bool,
                       now: Millis, insertFails: bool) returns (token: string)
    modifies db
    ensures token == SessionToken(random)
    ensures db.sessions == if insertFails then old(db.sessions)
                           else old(db.sessions) + [Session(userId, token, deviceInfo, SessionExpiry(now, rememberMe))]
    ensures db.users == old(db.users) && db.draws == old(db.draws) && db.tickets == old(db.tickets)
    ensures db.deposits == old(db.deposits) && db.withdrawals == old(db.withdrawals)
    ensures db.transactions == old(db.transactions) && db.nextId == old(db.nextId)
  {
    token := SessionToken(random);
    if !insertFails {
      db.sessions := db.sessions + [Session(userId, token, deviceInfo, SessionExpiry(now, rememberMe))];
    }
  }

  function HasToken(token: string): Session -> bool {
    (s: Session) => s.token == token
  }

  function SessionsWithToken(sessions: seq<Session>, token: string): seq<Session> {
    Seqs.Filter(sessions, HasToken(token))
  }

  /** `validateSession`: exactly one session row has the token, and it expires strictly after now. */
  predicate ValidateSession(sessions: seq<Session>, token: string, now: Millis) {
    var rows := SessionsWithToken(sessions, token);
    |rows| == 1 && rows[0].expiresAt > now
  }

  /**
   * `.single()` fails unless exactly one row has the token, and then the session is not valid; a valid
   * session stays valid at every earlier instant, and some stored session with the token outlives now.
   */
  lemma SessionValidityIsAWindow(sessions: seq<Session>, token: string, t: Millis, later: Millis)
    requires t <= later
    ensures |SessionsWithToken(sessions, token)| != 1 ==> !ValidateSession(sessions, token, t)
    ensures ValidateSession(sessions, token, later) ==> ValidateSession(sessions, token, t)
    ensures ValidateSession(sessions, token, t) ==>
              exists i :: 0 <= i < |sessions| && sessions[i].token == token && t < sessions[i].expiresAt
  {
    if ValidateSession(sessions, token, t) {
      var s := SessionsWithToken(sessions, token)[0];
      assert s in SessionsWithToken(sessions, token);
      assert s in sessions && s.token == token;
      var i :| 0 <= i < |sessions| && sessions[i] == s;
    }
  }

  /** A session created under a token no other session has is valid until, and not at, its expiry. */
  lemma NewSessionValidUntilExpiry(sessions: seq<Session>, s: Session, now: Millis)
    requires forall i :: 0 <= i < |sessions| ==> sessions[i].token != s.token
    ensures ValidateSession(sessions + [s], s.token, now) <==> now < s.expiresAt
  {
    Seqs.FilterAppend(sessions, s, HasToken(s.token));
    Seqs.FilterNone(sessions, HasToken(s.token));
  }

  /** Lockout and session validity both end at the stored instant itself. */
  lemma ExpiryIsStrict(u: User, sessions: seq<Session>, token: string)
    requires u.lockedUntil.Some?
    requires |SessionsWithToken(sessions, token)| == 1
    ensures !IsAccountLocked(Some(u), u.lockedUntil.value)
    ensures !ValidateSession(sessions, token, SessionsWithToken(sessions, token)[0].expiresAt)
  {
  }

  // ---------------------------------------------------------------- password reset

  /** `new Date(password_reset_expires)`: a missing expiry reads as the epoch. */
  function ResetDeadline(u: User): (t: Millis)
    ensures u.resetExpires.Some? ==> t == u.resetExpires.value
    ensures u.resetExpires.None? ==> t == 0
  {
    if u.resetExpires.Some? then u.resetExpires.value else 0
  }

  /** The token is refused once its deadline is strictly in the past. */
  predicate ResetExpired(u: User, now: Millis) {
    ResetDeadline(u) < now
  }

  /** The row a successful reset leaves: the new hash, no reset token or deadline, and the change time. */
  function WithNewPassword(u: User, newHash: string, now: Millis): User {
    u.(passwordHash := newHash, resetToken := None, resetExpires := None, lastPasswordChange := Some(now))
  }

  /**
   * `resetPassword`: `record` is the row looked up by the token, `newHash` the hash of the new
   * password, `updateFails` an error from the write. Every refusal returns false without writing.
   */
  method ResetPassword(db: Store.Database, token: string, newPassword: string, record: Option<User>,
                       newHash: string, now: Millis, updateFails: bool) returns (ok: bool)
    requires db.Valid()
    requires record.Some? ==> record.value.id in db.users && record.value.resetToken == Some(token)
    modifies db
    ensures db.Valid()
    ensures ok <==> StrengthOf(newPassword).isValid && record.Some? && !ResetExpired(record.value, now) && !updateFails
    ensures ok ==> db.users == old(db.users)[record.value.id := WithNewPassword(old(db.users)[record.value.id], newHash, now)]
    ensures !ok ==> db.users == old(db.users)
    ensures db.draws == old(db.draws) && db.tickets == old(db.tickets) && db.sessions == old(db.sessions)
    ensures db.deposits == old(db.deposits) && db.withdrawals == old(db.withdrawals)
    ensures db.transactions == old(db.transactions) && db.nextId == old(db.nextId)
  {
    var strength := ValidatePasswordStrength(newPassword);
    if !strength.isValid {
      return false;
    }
    if record.None? {
      return false;
    }
    if ResetExpired(record.value, now) {
      return false;
    }
    if updateFails {
      return false;
    }
    var id := record.value.id;
    db.users := db.users[id := WithNewPassword(db.users[id], newHash, now)];
    ok := true;
  }
}
