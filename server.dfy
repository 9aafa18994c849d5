/**
 * The stand-alone account server: a `users` table (id, unique email, password hash, creation and
 * last-login times) behind register, login, delete-one and delete-all routes, with a regular-expression
 * check on emails and passwords. Password hashing and comparison are parameters.
 */
module Server {
  import opened Wrappers
  import opened Schema
  import Seqs
  import Text
  import Auth

  // ---------------------------------------------------------------- validators

  /** `[^\s@]`: a character that is neither white space nor `@`. */
  predicate EmailChar(c: char) {
    !Text.IsJsWhitespace(c) && c != '@'
  }

  /**
   * `/^[^\s@]+@[^\s@]+\.[^\s@]+$/`: an `@` at `a` and a `.` at `d`, each run around them non-empty,
   * and every other character an email character.
   */
  predicate ValidateEmail(s: string) {
    exists a, d :: 0 < a < |s| && a + 1 < d < |s| - 1 && s[a] == '@' && s[d] == '.' &&
                   forall j :: 0 <= j < |s| && j != a ==> EmailChar(s[j])
  }

  /** The part after the one `@` has a `.` that is neither its first nor its last character. */
  predicate DottedDomain(domain: string) {
    exists k :: 0 < k < |domain| - 1 && domain[k] == '.'
  }

  /** The shape of an accepted email, said in words: no white space, one `@`, a local part, a dotted domain. */
  predicate EmailShape(s: string) {
    (forall j :: 0 <= j < |s| ==> !Text.IsJsWhitespace(s[j])) &&
    exists a :: 0 < a < |s| && s[a] == '@' && (forall j :: 0 <= j < |s| && s[j] == '@' ==> j == a) &&
                DottedDomain(s[a + 1..])
  }

  /** The pattern accepts exactly the emails of that shape. */
  lemma ValidateEmailExact(s: string)
    ensures ValidateEmail(s) <==> EmailShape(s)
  {
    if ValidateEmail(s) {
      var a, d :| 0 < a < |s| && a + 1 < d < |s| - 1 && s[a] == '@' && s[d] == '.' &&
                  forall j :: 0 <= j < |s| && j != a ==> EmailChar(s[j]);
      assert s[a + 1..][d - a - 1] == '.';
      assert DottedDomain(s[a + 1..]);
      forall j | 0 <= j < |s| ensures !Text.IsJsWhitespace(s[j]) {
        if j != a {
          assert EmailChar(s[j]);
        }
      }
    }
    if EmailShape(s) {
      var a :| 0 < a < |s| && s[a] == '@' && (forall j :: 0 <= j < |s| && s[j] == '@' ==> j == a) &&
               DottedDomain(s[a + 1..]);
      var k :| 0 < k < |s[a + 1..]| - 1 && s[a + 1..][k] == '.';
      var d := a + 1 + k;
      assert s[d] == '.';
      forall j | 0 <= j < |s| && j != a ensures EmailChar(s[j]) { }
    }
  }

  /** `/^[a-zA-Z0-9]{6,20}$/`. */
  predicate ValidatePassword(p: string) {
    6 <= |p| <= 20 && forall i :: 0 <= i < |p| ==> Text.IsAsciiAlnum(p[i])
  }

  /** The pattern's edges: 6 and 20 letters or digits pass; 5, 21, or a punctuation mark do not. */
  lemma ValidatePasswordBounds()
    ensures ValidatePassword("abc123") && ValidatePassword("ABCdef0123456789wxyz")
    ensures !ValidatePassword("abc12") && !ValidatePassword("ABCdef0123456789wxyz0") && !ValidatePassword("abc12!")
  {
    assert "abc12!"[5] == '!';
  }

  /**
   * The server admits letters and digits only, so a password it accepts never meets the client's
   * special-character criterion, whose message the client's strength check therefore always shows.
   */
  lemma ServerPasswordLacksSpecial(p: string)
    requires ValidatePassword(p)
    ensures !Auth.Meets(p, Auth.HasSpecial)
    ensures Auth.HasSpecial in Auth.StrengthOf(p).feedback
  {
    forall i | 0 <= i < |p|
      ensures p[i] !in Auth.SpecialChars
    {
      AlnumIsNotSpecial(p[i]);
    }
    Auth.FeedbackIsMissedCriteria(p, Auth.HasSpecial);
  }

  lemma AlnumIsNotSpecial(c: char)
    requires Text.IsAsciiAlnum(c)
    ensures c !in Auth.SpecialChars
  {
    forall k | 0 <= k < |Auth.SpecialChars|
      ensures Auth.SpecialChars[k] != c
    {
      assert !Text.IsAsciiAlnum(Auth.SpecialChars[k]);
    }
  }

  // ---------------------------------------------------------------- the table and the replies

  datatype Account = Account(id: Id, email: string, passwordHash: string, createdAt: Millis, lastLogin: Option<Millis>)

  datatype ServerError =
    | FieldsRequired | InvalidEmail | InvalidPassword | EmailExists | DatabaseError | InvalidCredentials | UserNotFound

  /** The user object a successful login sends back: the row without its password hash. */
  datatype PublicAccount = PublicAccount(id: Id, email: string, createdAt: Millis, lastLogin: Option<Millis>)

  function Public(a: Account): (p: PublicAccount)
    ensures p.id == a.id && p.email == a.email && p.createdAt == a.createdAt && p.lastLogin == a.lastLogin
  {
    PublicAccount(a.id, a.email, a.createdAt, a.lastLogin)
  }

  /** The reply does not depend on the stored hash: rows differing only in it give the same reply. */
  lemma PublicForgetsHash(a: Account, hash: string)
    ensures Public(a.(passwordHash := hash)) == Public(a)
  {
  }

  datatype Response = Failure(status: int, error: ServerError) | Created(userId: Id) | LoggedIn(account: PublicAccount) | Done

  /** The HTTP status a reply is sent with. */
  function StatusOf(r: Response): int {
    match r
    case Failure(status, _) => status
    case Created(_) => 201
    case LoggedIn(_) => 200
    case Done => 200
  }

  /** `!field`: a body field that is absent or empty. */
  predicate Missing(field: Option<string>) {
    field.None? || field.value == ""
  }

  /** The position of the row with this email, if there is one. */
  function FindEmail(rows: seq<Account>, email: string): (r: Option<nat>)
    ensures r.Some? ==> r.value < |rows| && rows[r.value].email == email
    ensures r.None? <==> forall i :: 0 <= i < |rows| ==> rows[i].email != email
    decreases |rows|
  {
    if rows == [] then None
    else if rows[|rows| - 1].email == email then Some(|rows| - 1)
    else FindEmail(rows[..|rows| - 1], email)
  }

  /** The checks of the register route, in order; all of them answer 400. */
  function RegisterCheck(rows: seq<Account>, email: Option<string>, password: Option<string>): (r: Option<ServerError>)
    ensures r == Some(FieldsRequired) <==> Missing(email) || Missing(password)
    ensures r == Some(InvalidEmail) <==> !Missing(email) && !Missing(password) && !ValidateEmail(email.value)
    ensures r == Some(InvalidPassword) <==>
              !Missing(email) && !Missing(password) && ValidateEmail(email.value) && !ValidatePassword(password.value)
    ensures r == Some(EmailExists) <==>
              !Missing(email) && !Missing(password) && ValidateEmail(email.value) && ValidatePassword(password.value) &&
              exists i :: 0 <= i < |rows| && rows[i].email == email.value
    ensures r.None? ==> email.Some? && password.Some? && ValidateEmail(email.value) && ValidatePassword(password.value)
  {
    if Missing(email) || Missing(password) then Some(FieldsRequired)
    else if !ValidateEmail(email.value) then Some(InvalidEmail)
    else if !ValidatePassword(password.value) then Some(InvalidPassword)
    else if FindEmail(rows, email.value).Some? then Some(EmailExists)
    else None
  }

  /** The rows left by `DELETE ... WHERE id = ?`. */
  function WithoutId(rows: seq<Account>, id: int): seq<Account> {
    Seqs.Filter(rows, (r: Account) => r.id != id)
  }

  predicate UniqueIds(rows: seq<Account>) {
    forall i, j :: 0 <= i < j < |rows| ==> rows[i].id != rows[j].id
  }

  /** Deleting a present id takes out that one row and keeps every other row. */
  lemma {:induction false} WithoutIdRemovesOne(rows: seq<Account>, k: nat)
    requires UniqueIds(rows) && k < |rows|
    ensures |WithoutId(rows, rows[k].id)| == |rows| - 1
    ensures forall x :: x in WithoutId(rows, rows[k].id) <==> x in rows && x.id != rows[k].id
    decreases |rows|
  {
    var id := rows[k].id;
    var p := (r: Account) => r.id != id;
    var init := rows[..|rows| - 1];
    forall x | x in rows && x.id != id ensures x in WithoutId(rows, id) {
      Seqs.FilterKeeps(rows, p, x);
    }
    if k == |rows| - 1 {
      assert forall i :: 0 <= i < |init| ==> p(init[i]);
      Seqs.FilterAll(init, p);
    } else {
      WithoutIdRemovesOne(init, k);
      assert init[k] == rows[k];
    }
  }

  /** Ids and emails are unique, and every id is below the counter. */
  predicate WellFormed(rows: seq<Account>, nextId: Id) {
    UniqueIds(rows) &&
    (forall i, j :: 0 <= i < j < |rows| ==> rows[i].email != rows[j].email) &&
    (forall i :: 0 <= i < |rows| ==> rows[i].id < nextId)
  }

  /** Deleting rows by id keeps the table well formed. */
  lemma {:induction false} WithoutIdWellFormed(rows: seq<Account>, nextId: Id, id: int)
    requires WellFormed(rows, nextId)
    ensures WellFormed(WithoutId(rows, id), nextId)
    decreases |rows|
  {
    if rows != [] {
      var init := rows[..|rows| - 1];
      var last := rows[|rows| - 1];
      assert WellFormed(init, nextId);
      WithoutIdWellFormed(init, nextId, id);
      var kept := WithoutId(init, id);
      forall x | x in kept ensures x.id != last.id && x.email != last.email {
        var i :| 0 <= i < |init| && init[i] == x;
        assert rows[i] == x;
      }
    }
  }

  /** The table, with the next value of its autoincrement counter. */
  class UserTable {
    var rows: seq<Account>
    var nextId: Id

    /** Ids and emails are unique, and every id was handed out by the counter. */
    ghost predicate Valid()
      reads this
    {
      WellFormed(rows, nextId)
    }

    constructor ()
      ensures Valid() && rows == [] && nextId == 1
    {
      rows := [];
      nextId := 1;
    }

    /**
     * `POST /api/register`: `hash` is the bcrypt hash of the password and `insertFails` a storage
     * error other than the unique-email constraint.
     */
    method Register(email: Option<string>, password: Option<string>, hash: string, now: Millis, insertFails: bool)
      returns (r: Response)
      requires Valid()
      modifies this
      ensures Valid()
      ensures RegisterCheck(old(rows), email, password).Some? ==>
                r == Failure(400, RegisterCheck(old(rows), email, password).value)
      ensures RegisterCheck(old(rows), email, password).None? && insertFails ==> r == Failure(500, DatabaseError)
      ensures !r.Created? ==> rows == old(rows) && nextId == old(nextId)
      ensures r.Created? ==>
                RegisterCheck(old(rows), email, password).None? && !insertFails &&
                r.userId == old(nextId) && nextId == old(nextId) + 1 &&
                rows == old(rows) + [Account(r.userId, email.value, hash, now, None)]
      ensures RegisterCheck(old(rows), email, password).None? && !insertFails ==> r.Created?
    {
      var check := RegisterCheck(rows, email, password);
      if check.Some? {
        return Failure(400, check.value);
      }
      if insertFails {
        return Failure(500, DatabaseError);
      }
      var id := nextId;
      rows := rows + [Account(id, email.value, hash, now, None)];
      nextId := id + 1;
      r := Created(id);
    }

    /**
     * `POST /api/login`: `passwordMatches` is the bcrypt comparison against the found row's hash;
     * the last-login update's own error is not looked at, so `updateFails` leaves the row as it was.
     */
    method Login(email: Option<string>, password: Option<string>, passwordMatches: bool, queryFails: bool,
                 now: Millis, updateFails: bool) returns (r: Response)
      requires Valid()
      modifies this
      ensures Valid()
      ensures nextId == old(nextId) && |rows| == |old(rows)|
      ensures Missing(email) || Missing(password) ==> r == Failure(400, FieldsRequired)
      ensures !Missing(email) && !Missing(password) && queryFails ==> r == Failure(500, DatabaseError)
      ensures !Missing(email) && !Missing(password) && !queryFails ==>
                (r == Failure(401, InvalidCredentials) <==> FindEmail(old(rows), email.value).None? || !passwordMatches)
      ensures !r.LoggedIn? ==> rows == old(rows)
      ensures r.LoggedIn? ==>
                var k := FindEmail(old(rows), email.value).value;
                !Missing(email) && !Missing(password) && !queryFails && passwordMatches &&
                r.account == Public(old(rows)[k].(lastLogin := Some(now))) &&
                rows == if updateFails then old(rows) else old(rows)[k := old(rows)[k].(lastLogin := Some(now))]
      ensures (!Missing(email) && !Missing(password) && !queryFails && FindEmail(old(rows), email.value).Some? &&
               passwordMatches) ==> r.LoggedIn?
    {
      if Missing(email) || Missing(password) {
        return Failure(400, FieldsRequired);
      }
      if queryFails {
        return Failure(500, DatabaseError);
      }
      var found := FindEmail(rows, email.value);
      if found.None? {
        return Failure(401, InvalidCredentials);
      }
      if !passwordMatches {
        return Failure(401, InvalidCredentials);
      }
      var k := found.value;
      var updated := rows[k].(lastLogin := Some(now));
      if !updateFails {
        rows := rows[k := updated];
      }
      r := LoggedIn(Public(updated));
    }

    /** `DELETE /api/users/reset`: empties the table; the counter keeps counting. */
    method ResetAll(deleteFails: bool) returns (r: Response)
      requires Valid()
      modifies this
      ensures Valid()
      ensures r == if deleteFails then Failure(500, DatabaseError) else Done
      ensures rows == if deleteFails then old(rows) else []
      ensures nextId == old(nextId)
    {
      if deleteFails {
        return Failure(500, DatabaseError);
      }
      rows := [];
      r := Done;
    }

    /** `DELETE /api/users/:id`. */
    method DeleteUser(id: int, deleteFails: bool) returns (r: Response)
      requires Valid()
      modifies this
      ensures Valid()
      ensures deleteFails ==> r == Failure(500, DatabaseError) && rows == old(rows)
      ensures !deleteFails && (forall i :: 0 <= i < |old(rows)| ==> old(rows)[i].id != id) ==>
                r == Failure(404, UserNotFound) && rows == old(rows)
      ensures !deleteFails && (exists i :: 0 <= i < |old(rows)| && old(rows)[i].id == id) ==>
                r == Done && rows == WithoutId(old(rows), id) && |rows| == |old(rows)| - 1
      ensures nextId == old(nextId)
    {
      if deleteFails {
        return Failure(500, DatabaseError);
      }
      var remaining := WithoutId(rows, id);
      if |remaining| == |rows| {
        if exists i :: 0 <= i < |rows| && rows[i].id == id {
          var k :| 0 <= k < |rows| && rows[k].id == id;
          WithoutIdRemovesOne(rows, k);
        }
        return Failure(404, UserNotFound);
      }
      var k :| 0 <= k < |rows| && rows[k].id == id by {
        if forall i :: 0 <= i < |rows| ==> rows[i].id != id {
          Seqs.FilterAll(rows, (x: Account) => x.id != id);
        }
      }
      WithoutIdRemovesOne(rows, k);
      WithoutIdWellFormed(rows, nextId, id);
      rows := remaining;
      r := Done;
    }
  }

}
