/**
 * The two view models posted by the account pages and the validation their
 * data-annotation attributes imply. A string property is `None` when the
 * bound value is null.
 */
module Forms {
  import opened Wrappers

  /** The characters for which .NET's `char.IsWhiteSpace` holds. */
  predicate IsWhiteSpace(c: char) {
    || c == ' ' || ('\t' <= c <= '\r') || c == '\U{85}' || c == '\U{A0}' || c == '\U{1680}'
    || ('\U{2000}' <= c <= '\U{200A}') || c == '\U{2028}' || c == '\U{2029}'
    || c == '\U{202F}' || c == '\U{205F}' || c == '\U{3000}'
  }

  /** Empty, or made of white space only. */
  predicate IsBlank(s: string) {
    forall i | 0 <= i < |s| :: IsWhiteSpace(s[i])
  }

  /** What `[Required]` accepts on a string: not null, and not blank. */
  predicate Present(v: Option<string>) {
    v.Some? && !IsBlank(v.value)
  }

  /** What `[MaxLength(max)]` accepts on a string: null, or at most `max` characters. */
  predicate FitsMaxLength(v: Option<string>, max: nat) {
    v.None? || |v.value| <= max
  }

  /** The validation attributes that occur on the two view models. */
  datatype Rule = Required | MaxLength(length: nat) | Compare(otherProperty: string, errorMessage: string)

  /** One failed attribute: the property it stands on and the attribute. */
  datatype Violation = Violation(property: string, rule: Rule)

  const PasswordsDoNotMatch := "Passwords do not match"

  function CheckRequired(property: string, v: Option<string>): (r: seq<Violation>)
    ensures r == [] <==> Present(v)
    ensures forall x | x in r :: x.property == property && x.rule == Required
  {
    if Present(v) then [] else [Violation(property, Required)]
  }

  function CheckMaxLength(property: string, v: Option<string>, max: nat): (r: seq<Violation>)
    ensures r == [] <==> FitsMaxLength(v, max)
    ensures forall x | x in r :: x.property == property && x.rule == MaxLength(max)
  {
    if FitsMaxLength(v, max) then [] else [Violation(property, MaxLength(max))]
  }

  function CheckCompare(property: string, v: Option<string>, otherProperty: string, other: Option<string>,
                        message: string): (r: seq<Violation>)
    ensures r == [] <==> v == other
    ensures forall x | x in r :: x.property == property && x.rule == Compare(otherProperty, message)
  {
    if v == other then [] else [Violation(property, Compare(otherProperty, message))]
  }

  /** The registration form (`RegisterViewModel`). */
  datatype RegisterViewModel = RegisterViewModel(
    login: Option<string>,
    password: Option<string>,
    confirmPassword: Option<string>,
    email: Option<string>)

  /**
   * The attribute failures of a registration form, property by property in
   * declaration order: Login and Email carry Required, Password does not, and
   * ConfirmPassword is compared with Password.
   */
  function RegisterViolations(m: RegisterViewModel, maxStringLength: nat): (r: seq<Violation>)
    ensures Violation("Login", Required) in r <==> !Present(m.login)
    ensures Violation("Email", Required) in r <==> !Present(m.email)
    ensures Violation("Password", Required) !in r
    ensures Violation("ConfirmPassword", Compare("Password", PasswordsDoNotMatch)) in r
            <==> m.confirmPassword != m.password
    ensures forall v | v in r :: v.property in {"Login", "Password", "ConfirmPassword", "Email"}
  {
    CheckRequired("Login", m.login) + CheckMaxLength("Login", m.login, maxStringLength)
    + CheckMaxLength("Password", m.password, maxStringLength)
    + CheckCompare("ConfirmPassword", m.confirmPassword, "Password", m.password, PasswordsDoNotMatch)
    + CheckRequired("Email", m.email) + CheckMaxLength("Email", m.email, maxStringLength)
  }

  /**
   * `ModelState.IsValid` after binding a registration form: Login and Email
   * present and bounded, Password only bounded (an empty password passes),
   * ConfirmPassword equal to Password.
   */
  predicate RegisterValid(m: RegisterViewModel, maxStringLength: nat): (ok: bool)
    ensures ok <==>
      && Present(m.login) && FitsMaxLength(m.login, maxStringLength)
      && FitsMaxLength(m.password, maxStringLength)
      && m.confirmPassword == m.password
      && Present(m.email) && FitsMaxLength(m.email, maxStringLength)
  {
    RegisterViolations(m, maxStringLength) == []
  }

  /** A valid registration form also has a bounded ConfirmPassword, through the Compare rule. */
  lemma ValidRegistrationBoundsConfirmation(m: RegisterViewModel, maxStringLength: nat)
    requires RegisterValid(m, maxStringLength)
    ensures FitsMaxLength(m.confirmPassword, maxStringLength)
    ensures m.login.Some? && m.email.Some?
  {
  }

  /** The registration validator alone lets an empty password through. */
  lemma EmptyPasswordPassesRegistration(login: string, email: string, maxStringLength: nat)
    requires Present(Some(login)) && |login| <= maxStringLength
    requires Present(Some(email)) && |email| <= maxStringLength
    ensures RegisterValid(RegisterViewModel(Some(login), Some(""), Some(""), Some(email)), maxStringLength)
  {
  }

  /** The sign-in form (`LoginViewModel`). */
  datatype LoginViewModel = LoginViewModel(login: Option<string>, password: Option<string>)

  /** The attribute failures of a sign-in form: both properties carry Required and MaxLength. */
  function LoginViolations(m: LoginViewModel, maxStringLength: nat): (r: seq<Violation>)
    ensures Violation("Login", Required) in r <==> !Present(m.login)
    ensures Violation("Password", Required) in r <==> !Present(m.password)
    ensures forall v | v in r :: v.property == "Login" || v.property == "Password"
  {
    CheckRequired("Login", m.login) + CheckMaxLength("Login", m.login, maxStringLength)
    + CheckRequired("Password", m.password) + CheckMaxLength("Password", m.password, maxStringLength)
  }

  /** `ModelState.IsValid` after binding a sign-in form: both fields present and bounded. */
  predicate LoginValid(m: LoginViewModel, maxStringLength: nat): (ok: bool)
    ensures ok <==>
      && Present(m.login) && FitsMaxLength(m.login, maxStringLength)
      && Present(m.password) && FitsMaxLength(m.password, maxStringLength)
  {
    LoginViolations(m, maxStringLength) == []
  }
}
