/** The credentials payload built by `handleSubmit` in
    src/components/form/LoginForm.tsx: the identifier goes into the field
    its detected type names, with the password beside it, and the
    remember-me flag travels with it to the `login` thunk. */
module LoginForm {
  import opened InputType

  /** `LoginPayload` of src/types/authTypes.ts: a password and exactly one
      of email, phone or username. */
  datatype Credentials =
    | EmailCredentials(email: string, password: string)
    | PhoneCredentials(phone: string, password: string)
    | UsernameCredentials(username: string, password: string)

  /** The `{ credentials, rememberMe }` argument of the `login` thunk. */
  datatype LoginRequest = LoginRequest(credentials: Credentials, rememberMe: bool)

  /** The one identifier field a payload carries. */
  function Identifier(c: Credentials): string {
    match c
    case EmailCredentials(email, _) => email
    case PhoneCredentials(phone, _) => phone
    case UsernameCredentials(username, _) => username
  }

  /** Which identifier field a payload carries. */
  function Kind(c: Credentials): InputType {
    match c
    case EmailCredentials(_, _) => Email
    case PhoneCredentials(_, _) => Phone
    case UsernameCredentials(_, _) => Username
  }

  /** A payload is fixed by its kind, its identifier and its password. */
  lemma CredentialsDetermined(a: Credentials, b: Credentials)
    ensures a == b <==> Kind(a) == Kind(b) && Identifier(a) == Identifier(b) && a.password == b.password
  {
  }

  function BuildCredentials(identifier: string, password: string): (c: Credentials)
    ensures Kind(c) == DetectInputType(identifier)
    ensures Identifier(c) == identifier && c.password == password
  {
    var inputType := DetectInputType(identifier);
    if inputType == Email then EmailCredentials(identifier, password)
    else if inputType == Phone then PhoneCredentials(identifier, password)
    else UsernameCredentials(identifier, password)
  }

  /** `handleSubmit`: what it dispatches for the form's current fields. */
  function HandleSubmit(identifier: string, password: string, rememberMe: bool): (req: LoginRequest)
    ensures req.rememberMe == rememberMe
    ensures Identifier(req.credentials) == identifier && req.credentials.password == password
    ensures req.credentials.EmailCredentials? <==> IsEmail(identifier)
    ensures req.credentials.PhoneCredentials? <==> IsPhone(identifier)
    ensures req.credentials.UsernameCredentials? <==> !IsEmail(identifier) && !IsPhone(identifier)
  {
    LoginRequest(BuildCredentials(identifier, password), rememberMe)
  }

  /** The payload is the only one with the identifier and password in the
      field the detected type names: any payload that agrees with the
      detection is the one the form builds. */
  lemma SubmitIsUnique(identifier: string, password: string, c: Credentials)
    requires Kind(c) == DetectInputType(identifier)
    requires Identifier(c) == identifier && c.password == password
    ensures HandleSubmit(identifier, password, false).credentials == c
    ensures HandleSubmit(identifier, password, true).credentials == c
  {
    CredentialsDetermined(c, BuildCredentials(identifier, password));
  }

  /** An identifier with an `@` never goes out as a phone number. */
  lemma AtSignNeverSentAsPhone(identifier: string, password: string, rememberMe: bool)
    requires '@' in identifier
    ensures !HandleSubmit(identifier, password, rememberMe).credentials.PhoneCredentials?
  {
    AtSignIsNeverPhone(identifier);
  }

  /** An empty identifier is sent as an empty username. */
  lemma EmptyIdentifierIsUsername(password: string, rememberMe: bool)
    ensures HandleSubmit("", password, rememberMe) == LoginRequest(UsernameCredentials("", password), rememberMe)
  {
    ShortInputIsUsername("");
  }
}
