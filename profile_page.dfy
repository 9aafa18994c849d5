/**
 * The profile page: saving the name and phone of the signed-in user, changing the password after
 * checking the current one, and the three show/hide toggles of the password inputs.
 * bcrypt's comparison and hashing are parameters.
 */
module ProfilePage {
  import opened Wrappers
  import opened Schema
  import Store
  import Text

  datatype ProfileForm = ProfileForm(firstName: string, lastName: string, phone: string, email: string)

  datatype PasswordForm = PasswordForm(currentPassword: string, newPassword: string, confirmPassword: string)

  /** The form's fields after a successful password change. */
  const EmptyPasswordForm := PasswordForm("", "", "")

  // ---------------------------------------------------------------- saving the profile

  /** The save handler needs a first name, a last name and an email. */
  predicate ProfileComplete(form: ProfileForm) {
    form.firstName != "" && form.lastName != "" && form.email != ""
  }

  /** An empty phone field is stored as null. */
  function StoredPhone(phone: string): (r: Option<string>)
    ensures r.None? <==> phone == ""
    ensures r.Some? ==> r.value == phone
  {
    if phone == "" then None else Some(phone)
  }

  /** The row after the save: names, phone and update time from the form, everything else as it was. */
  function SavedProfile(u: User, form: ProfileForm, now: Millis): (r: User)
    ensures r.firstName == form.firstName && r.lastName == form.lastName && r.phone == StoredPhone(form.phone)
    ensures r.updatedAt == now
    ensures r.id == u.id && r.email == u.email && r.passwordHash == u.passwordHash && r.role == u.role
    ensures r.balance == u.balance && r.status == u.status && r.emailVerified == u.emailVerified
    ensures r.lastLogin == u.lastLogin && r.lockedUntil == u.lockedUntil && r.resetToken == u.resetToken
    ensures r.resetExpires == u.resetExpires && r.lastPasswordChange == u.lastPasswordChange
  {
    u.(firstName := form.firstName, lastName := form.lastName, phone := StoredPhone(form.phone), updatedAt := now)
  }

  /** The email typed into the form is never written: saving keeps the stored email whatever the form says. */
  lemma SaveNeverWritesEmail(u: User, form: ProfileForm, email: string, now: Millis)
    ensures SavedProfile(u, form.(email := email), now) == SavedProfile(u, form, now)
    ensures SavedProfile(u, form, now).email == u.email
  {
  }

  datatype SaveOutcome = Incomplete | SaveFailed | Saved

  /**
   * `handleSaveProfile` for the signed-in user; `updateFails` stands for a storage error on the update.
   * An update that matches no row is not an error.
   */
  method SaveProfile(db: Store.Database, userId: Id, form: ProfileForm, now: Millis, updateFails: bool)
    returns (outcome: SaveOutcome)
    requires db.Valid()
    modifies db
    ensures db.Valid()
    ensures outcome == (if !ProfileComplete(form) then Incomplete else if updateFails then SaveFailed else Saved)
    ensures db.users ==
              if outcome == Saved && userId in old(db.users)
              then old(db.users)[userId := SavedProfile(old(db.users)[userId], form, now)]
              else old(db.users)
    ensures db.draws == old(db.draws) && db.tickets == old(db.tickets) && db.deposits == old(db.deposits)
    ensures db.withdrawals == old(db.withdrawals) && db.transactions == old(db.transactions)
    ensures db.sessions == old(db.sessions) && db.nextId == old(db.nextId)
  {
    if !ProfileComplete(form) {
      return Incomplete;
    }
    if updateFails {
      return SaveFailed;
    }
    if userId in db.users {
      db.users := db.users[userId := SavedProfile(db.users[userId], form, now)];
    }
    outcome := Saved;
  }

  // ---------------------------------------------------------------- changing the password

  /** Why a password change stops before the current password is checked, in the handler's order. */
  datatype PasswordError = MissingPasswordField | NewPasswordsDiffer | NewPasswordTooShort

  /** The handler's checks on the three fields. */
  function PasswordCheck(f: PasswordForm): (r: Option<PasswordError>)
    ensures r == Some(MissingPasswordField) <==> f.currentPassword == "" || f.newPassword == "" || f.confirmPassword == ""
    ensures r == Some(NewPasswordsDiffer) <==>
              f.currentPassword != "" && f.newPassword != "" && f.confirmPassword != "" && f.newPassword != f.confirmPassword
    ensures r == Some(NewPasswordTooShort) <==>
              f.currentPassword != "" && f.newPassword != "" && f.newPassword == f.confirmPassword && Text.Utf16Length(f.newPassword) < 6
    ensures r.None? <==> f.currentPassword != "" && f.newPassword == f.confirmPassword && Text.Utf16Length(f.newPassword) >= 6
  {
    if f.currentPassword == "" || f.newPassword == "" || f.confirmPassword == "" then Some(MissingPasswordField)
    else if f.newPassword != f.confirmPassword then Some(NewPasswordsDiffer)
    else if Text.Utf16Length(f.newPassword) < 6 then Some(NewPasswordTooShort)
    else None
  }

  /** The row after the change: the new hash and the update time, everything else as it was. */
  function WithPasswordHash(u: User, newHash: string, now: Millis): (r: User)
    ensures r.passwordHash == newHash && r.updatedAt == now
    ensures r.id == u.id && r.email == u.email && r.firstName == u.firstName && r.lastName == u.lastName
    ensures r.phone == u.phone && r.balance == u.balance && r.role == u.role && r.status == u.status
    ensures r.lastPasswordChange == u.lastPasswordChange && r.resetToken == u.resetToken
  {
    u.(passwordHash := newHash, updatedAt := now)
  }

  datatype ChangeOutcome = Refused(error: PasswordError) | WrongCurrentPassword | ChangeFailed | Changed

  /**
   * `handleChangePassword` for the signed-in user. `currentMatches` is bcrypt's comparison of the typed
   * current password with the stored hash and `newHash` the hash of the new one; `selectFails` and
   * `updateFails` stand for storage errors. The reply also gives the password fields as the page then
   * shows them. The relay of the new password to the hosted auth service ignores its own errors and is
   * not modelled.
   */
  method ChangePassword(db: Store.Database, userId: Id, f: PasswordForm, currentMatches: bool, newHash: string,
                        now: Millis, selectFails: bool, updateFails: bool)
    returns (outcome: ChangeOutcome, fields: PasswordForm)
    requires db.Valid()
    modifies db
    ensures db.Valid()
    ensures PasswordCheck(f).Some? ==> outcome == Refused(PasswordCheck(f).value)
    ensures PasswordCheck(f).None? ==>
              outcome == (if selectFails || userId !in old(db.users) then ChangeFailed
                          else if !currentMatches then WrongCurrentPassword
                          else if updateFails then ChangeFailed
                          else Changed)
    ensures fields == if outcome == Changed then EmptyPasswordForm else f
    ensures db.users ==
              if outcome == Changed then old(db.users)[userId := WithPasswordHash(old(db.users)[userId], newHash, now)]
              else old(db.users)
    ensures db.draws == old(db.draws) && db.tickets == old(db.tickets) && db.deposits == old(db.deposits)
    ensures db.withdrawals == old(db.withdrawals) && db.transactions == old(db.transactions)
    ensures db.sessions == old(db.sessions) && db.nextId == old(db.nextId)
  {
    var check := PasswordCheck(f);
    if check.Some? {
      return Refused(check.value), f;
    }
    if selectFails || userId !in db.users {
      return ChangeFailed, f;
    }
    if !currentMatches {
      return WrongCurrentPassword, f;
    }
    if updateFails {
      return ChangeFailed, f;
    }
    db.users := db.users[userId := WithPasswordHash(db.users[userId], newHash, now)];
    outcome, fields := Changed, EmptyPasswordForm;
  }

  // ---------------------------------------------------------------- show / hide

  datatype PasswordInput = CurrentInput | NewInput | ConfirmInput

  datatype Visibility = Visibility(current: bool, new_: bool, confirm: bool)

  function Shown(v: Visibility, input: PasswordInput): bool {
    match input
    case CurrentInput => v.current
    case NewInput => v.new_
    case ConfirmInput => v.confirm
  }

  /** `togglePasswordVisibility`: the named input flips and the other two keep their state. */
  function ToggleVisibility(v: Visibility, input: PasswordInput): (r: Visibility)
    ensures Shown(r, input) == !Shown(v, input)
    ensures forall other :: other != input ==> Shown(r, other) == Shown(v, other)
  {
    match input
    case CurrentInput => v.(current := !v.current)
    case NewInput => v.(new_ := !v.new_)
    case ConfirmInput => v.(confirm := !v.confirm)
  }

  /** Toggling the same input twice restores the previous state. */
  lemma ToggleTwice(v: Visibility, input: PasswordInput)
    ensures ToggleVisibility(ToggleVisibility(v, input), input) == v
  {
  }
}
