/**
 * The registration form: six text fields, a change handler that overwrites one of them, and a submit
 * handler whose checks run in a fixed order before the account is handed to the auth service.
 */
module RegisterPage {
  import opened Wrappers
  import Text

  datatype RegisterForm = RegisterForm(
    firstName: string, lastName: string, email: string, phone: string, password: string, confirmPassword: string)

  /** The `name` attribute of each input. */
  datatype FormField = FirstName | LastName | Email | Phone | Password | ConfirmPassword

  /** The form's value for one field. */
  function FieldValue(form: RegisterForm, field: FormField): string {
    match field
    case FirstName => form.firstName
    case LastName => form.lastName
    case Email => form.email
    case Phone => form.phone
    case Password => form.password
    case ConfirmPassword => form.confirmPassword
  }

  /** `handleChange`: the named field takes the typed value and every other field keeps its own. */
  function HandleChange(form: RegisterForm, field: FormField, value: string): (r: RegisterForm)
    ensures FieldValue(r, field) == value
    ensures forall other :: other != field ==> FieldValue(r, other) == FieldValue(form, other)
  {
    match field
    case FirstName => form.(firstName := value)
    case LastName => form.(lastName := value)
    case Email => form.(email := value)
    case Phone => form.(phone := value)
    case Password => form.(password := value)
    case ConfirmPassword => form.(confirmPassword := value)
  }

  /** Typing the value a field already holds leaves the form as it is. */
  lemma ChangeToSameValue(form: RegisterForm, field: FormField)
    ensures HandleChange(form, field, FieldValue(form, field)) == form
  {
  }

  /** Why a submission stops before `register` is called, in the order the handler checks. */
  datatype RegisterError = MissingRequired | PasswordsDiffer | PasswordTooShort

  /** What `register` receives; an empty phone is passed as `undefined`. */
  datatype Registration = Registration(firstName: string, lastName: string, email: string, phone: Option<string>, password: string)

  datatype SubmitResult = Rejected(error: RegisterError) | CallRegister(data: Registration)

  /** `handleSubmit`, up to the call of `register`. */
  function HandleSubmit(form: RegisterForm): (r: SubmitResult)
    ensures r == Rejected(MissingRequired) <==>
              form.firstName == "" || form.lastName == "" || form.email == "" || form.password == ""
    ensures r == Rejected(PasswordsDiffer) <==>
              form.firstName != "" && form.lastName != "" && form.email != "" && form.password != "" &&
              form.password != form.confirmPassword
    ensures r == Rejected(PasswordTooShort) <==>
              form.firstName != "" && form.lastName != "" && form.email != "" && form.password != "" &&
              form.password == form.confirmPassword && Text.Utf16Length(form.password) < 6
    ensures r.CallRegister? <==>
              form.firstName != "" && form.lastName != "" && form.email != "" &&
              form.password == form.confirmPassword && Text.Utf16Length(form.password) >= 6
    ensures r.CallRegister? ==>
              r.data.firstName == form.firstName && r.data.lastName == form.lastName && r.data.email == form.email &&
              r.data.password == form.password &&
              (r.data.phone.None? <==> form.phone == "") && (r.data.phone.Some? ==> r.data.phone.value == form.phone)
  {
    if form.firstName == "" || form.lastName == "" || form.email == "" || form.password == "" then Rejected(MissingRequired)
    else if form.password != form.confirmPassword then Rejected(PasswordsDiffer)
    else if Text.Utf16Length(form.password) < 6 then Rejected(PasswordTooShort)
    else CallRegister(Registration(form.firstName, form.lastName, form.email,
                                   if form.phone == "" then None else Some(form.phone), form.password))
  }

  /** Editing the phone never changes whether the form is accepted; only what is sent for the phone. */
  lemma PhoneIsOptional(form: RegisterForm, phone: string)
    ensures HandleSubmit(HandleChange(form, Phone, phone)).CallRegister? <==> HandleSubmit(form).CallRegister?
  {
  }
}
