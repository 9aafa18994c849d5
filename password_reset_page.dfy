/**
 * The password-reset page: asking for a reset link by email, and choosing a new password for the token
 * in the link. The strength checker and the reset itself are the auth service's.
 */
module PasswordResetPage {
  import opened Wrappers
  import Auth

  /** What submitting the request form does. */
  datatype RequestAction = EmailRequired | CallRequestReset(email: string)

  /** `handleRequestReset`, up to the call of `requestPasswordReset`. */
  function HandleRequestReset(email: string): (r: RequestAction)
    ensures r == EmailRequired <==> email == ""
    ensures r.CallRequestReset? ==> r.email == email
  {
    if email == "" then EmailRequired else CallRequestReset(email)
  }

  /** Why a new password is turned down before `resetPassword` is called, in the handler's order. */
  datatype ResetError = MissingFields | PasswordsDiffer | TooWeak(feedback: seq<Auth.Criterion>)

  datatype ResetAction = Rejected(error: ResetError) | CallResetPassword(password: string)

  /** `handleResetPassword`, up to the call of `resetPassword`. */
  function HandleResetPassword(newPassword: string, confirmPassword: string): (r: ResetAction)
    ensures r == Rejected(MissingFields) <==> newPassword == "" || confirmPassword == ""
    ensures r == Rejected(PasswordsDiffer) <==> newPassword != "" && confirmPassword != "" && newPassword != confirmPassword
    ensures (r.Rejected? && r.error.TooWeak?) <==>
              newPassword != "" && newPassword == confirmPassword && !Auth.StrengthOf(newPassword).isValid
    ensures r.Rejected? && r.error.TooWeak? ==> r.error.feedback == Auth.StrengthOf(newPassword).feedback
    ensures r.CallResetPassword? <==>
              newPassword != "" && newPassword == confirmPassword && Auth.StrengthOf(newPassword).isValid
    ensures r.CallResetPassword? ==> r.password == newPassword
  {
    if newPassword == "" || confirmPassword == "" then Rejected(MissingFields)
    else if newPassword != confirmPassword then Rejected(PasswordsDiffer)
    else
      var strength := Auth.StrengthOf(newPassword);
      if !strength.isValid then Rejected(TooWeak(strength.feedback))
      else CallResetPassword(newPassword)
  }

  /** A refusal for weakness lists at least two unmet criteria. */
  lemma WeakRefusalNamesTwoCriteria(newPassword: string, confirmPassword: string)
    requires var r := HandleResetPassword(newPassword, confirmPassword); r.Rejected? && r.error.TooWeak?
    ensures |HandleResetPassword(newPassword, confirmPassword).error.feedback| >= 2
  {
    Auth.ScorePlusFeedback(newPassword);
  }

  /** The strength shown under the input: none while it is empty. */
  function StrengthShown(newPassword: string): (r: Option<Auth.Strength>)
    ensures r.None? <==> newPassword == ""
    ensures r.Some? ==> r.value == Auth.StrengthOf(newPassword)
  {
    if newPassword == "" then None else Some(Auth.StrengthOf(newPassword))
  }

  datatype StrengthLabel = Weak | Medium | Strong

  /** The label (and colour) of a score: weak up to 2, medium at 3, strong above. */
  function LabelOf(score: int): (l: StrengthLabel)
    ensures l == Weak <==> score <= 2
    ensures l == Medium <==> score == 3
    ensures l == Strong <==> score >= 4
  {
    if score <= 2 then Weak else if score <= 3 then Medium else Strong
  }

  /** The label reads "strong" exactly when the auth service would accept the password. */
  lemma StrongLabelMeansValid(newPassword: string)
    ensures LabelOf(Auth.StrengthOf(newPassword).score) == Strong <==> Auth.StrengthOf(newPassword).isValid
  {
  }

  /** The submit button's `disabled` condition. */
  predicate SubmitDisabled(loading: bool, newPassword: string) {
    var shown := StrengthShown(newPassword);
    loading || (shown.Some? && !shown.value.isValid)
  }

  /**
   * With both fields filled in and equal, the button is enabled exactly when the handler goes on to
   * `resetPassword`.
   */
  lemma ButtonMatchesHandler(newPassword: string, confirmPassword: string)
    requires newPassword != "" && newPassword == confirmPassword
    ensures !SubmitDisabled(false, newPassword) <==> HandleResetPassword(newPassword, confirmPassword).CallResetPassword?
  {
  }

  /** With the new password still empty the button is enabled, and the handler refuses the form as incomplete. */
  lemma ButtonEnabledWhileEmpty(confirmPassword: string)
    ensures !SubmitDisabled(false, "")
    ensures HandleResetPassword("", confirmPassword) == Rejected(MissingFields)
  {
  }
}
