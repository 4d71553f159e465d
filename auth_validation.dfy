/**
 * The authentication schemas of lib/validations/auth.ts. zod's email check
 * is the parameter `isEmail`.
 */
module AuthValidation {
  import opened Wrappers
  import opened Json
  import opened Schema

  const MIN_PASSWORD_LENGTH: nat := 8

  /** The `nip` pattern /^\d{10}$/: exactly ten ASCII digits. */
  predicate IsNip(s: string) {
    |s| == 10 && forall i :: 0 <= i < |s| ==> '0' <= s[i] <= '9'
  }

  datatype RegisterForm = RegisterForm(
    email: string,
    password: string,
    confirmPassword: string,
    companyName: string,
    nip: string,
    address: string)

  /** The object part of `registerSchema`, before the refinement. */
  function CheckRegisterFields(v: JsValue, isEmail: string -> bool): (c: Checked<RegisterForm>)
  {
    if !v.Obj? then Aborted([[]])
    else
      var email := CheckedString(Get(v, "email"), [Key("email")], isEmail);
      var password := StringMin(Get(v, "password"), [Key("password")], MIN_PASSWORD_LENGTH);
      var confirm := AnyString(Get(v, "confirmPassword"), [Key("confirmPassword")]);
      var company := StringMin(Get(v, "companyName"), [Key("companyName")], 2);
      var nip := CheckedString(Get(v, "nip"), [Key("nip")], IsNip);
      var address := StringMin(Get(v, "address"), [Key("address")], 5);
      var issues := email.issues + password.issues + confirm.issues + company.issues + nip.issues + address.issues;
      if email.Aborted? || password.Aborted? || confirm.Aborted? || company.Aborted? || nip.Aborted? || address.Aborted?
      then Aborted(issues)
      else Parsed(RegisterForm(email.value, password.value, confirm.value, company.value, nip.value, address.value), issues)
  }

  /** `registerSchema`: the fields, then `password === confirmPassword` reported on `confirmPassword`. */
  function CheckRegister(v: JsValue, isEmail: string -> bool): (c: Checked<RegisterForm>)
  {
    Refine(CheckRegisterFields(v, isEmail), (f: RegisterForm) => f.password == f.confirmPassword, [Key("confirmPassword")])
  }

  predicate ValidRegisterBody(v: JsValue, isEmail: string -> bool) {
    v.Obj?
    && Get(v, "email").Str? && isEmail(Get(v, "email").s)
    && Get(v, "password").Str? && |Get(v, "password").s| >= MIN_PASSWORD_LENGTH
    && Get(v, "confirmPassword") == Get(v, "password")
    && Get(v, "companyName").Str? && |Get(v, "companyName").s| >= 2
    && Get(v, "nip").Str? && IsNip(Get(v, "nip").s)
    && Get(v, "address").Str? && |Get(v, "address").s| >= 5
  }

  /** `registerSchema.safeParse`. */
  function RegisterSchema(v: JsValue, isEmail: string -> bool): (r: Result<RegisterForm, seq<Path>>)
    ensures r.Ok? <==> ValidRegisterBody(v, isEmail)
    ensures r.Ok? ==> r.value.password == r.value.confirmPassword && IsNip(r.value.nip)
  {
    Outcome(CheckRegister(v, isEmail))
  }

  /**
   * Different passwords are reported on `confirmPassword` whenever every
   * field has the right type, even if other checks fail as well.
   */
  lemma RegisterMismatchReported(v: JsValue, isEmail: string -> bool)
    requires v.Obj? && Get(v, "email").Str? && Get(v, "password").Str? && Get(v, "confirmPassword").Str?
    requires Get(v, "companyName").Str? && Get(v, "nip").Str? && Get(v, "address").Str?
    requires Get(v, "password") != Get(v, "confirmPassword")
    ensures RegisterSchema(v, isEmail).Err?
    ensures RegisterSchema(v, isEmail).error[|RegisterSchema(v, isEmail).error| - 1] == [Key("confirmPassword")]
  {
  }

  /** A wrongly typed field stops the refinement: the mismatch is then not reported. */
  lemma RegisterMismatchNotCheckedWhenAborted(v: JsValue, isEmail: string -> bool)
    requires v.Obj? && !Get(v, "address").Str?
    ensures CheckRegister(v, isEmail).Aborted?
    ensures CheckRegister(v, isEmail) == CheckRegisterFields(v, isEmail)
  {
  }

  datatype LoginForm = LoginForm(email: string, password: string)

  function CheckLogin(v: JsValue, isEmail: string -> bool): (c: Checked<LoginForm>)
  {
    if !v.Obj? then Aborted([[]])
    else
      var email := CheckedString(Get(v, "email"), [Key("email")], isEmail);
      var password := StringMin(Get(v, "password"), [Key("password")], 1);
      var issues := email.issues + password.issues;
      if email.Aborted? || password.Aborted? then Aborted(issues)
      else Parsed(LoginForm(email.value, password.value), issues)
  }

  /** `loginSchema.safeParse`: any non-empty password. */
  function LoginSchema(v: JsValue, isEmail: string -> bool): (r: Result<LoginForm, seq<Path>>)
    ensures r.Ok? <==> (v.Obj? && Get(v, "email").Str? && isEmail(Get(v, "email").s)
      && Get(v, "password").Str? && |Get(v, "password").s| >= 1)
    ensures r.Ok? ==> r.value == LoginForm(Get(v, "email").s, Get(v, "password").s)
  {
    Outcome(CheckLogin(v, isEmail))
  }

  datatype ForgotPasswordForm = ForgotPasswordForm(email: string)

  function CheckForgotPassword(v: JsValue, isEmail: string -> bool): (c: Checked<ForgotPasswordForm>)
  {
    if !v.Obj? then Aborted([[]])
    else
      var email := CheckedString(Get(v, "email"), [Key("email")], isEmail);
      if email.Aborted? then Aborted(email.issues) else Parsed(ForgotPasswordForm(email.value), email.issues)
  }

  /** `forgotPasswordSchema.safeParse`. */
  function ForgotPasswordSchema(v: JsValue, isEmail: string -> bool): (r: Result<ForgotPasswordForm, seq<Path>>)
    ensures r.Ok? <==> v.Obj? && Get(v, "email").Str? && isEmail(Get(v, "email").s)
  {
    Outcome(CheckForgotPassword(v, isEmail))
  }

  datatype ResetPasswordForm = ResetPasswordForm(password: string, confirmPassword: string)

  function CheckResetPassword(v: JsValue): (c: Checked<ResetPasswordForm>)
  {
    var fields :=
      if !v.Obj? then Aborted([[]])
      else
        var password := StringMin(Get(v, "password"), [Key("password")], MIN_PASSWORD_LENGTH);
        var confirm := AnyString(Get(v, "confirmPassword"), [Key("confirmPassword")]);
        var issues := password.issues + confirm.issues;
        if password.Aborted? || confirm.Aborted? then Aborted(issues)
        else Parsed(ResetPasswordForm(password.value, confirm.value), issues);
    Refine(fields, (f: ResetPasswordForm) => f.password == f.confirmPassword, [Key("confirmPassword")])
  }

  /** `resetPasswordSchema.safeParse`. */
  function ResetPasswordSchema(v: JsValue): (r: Result<ResetPasswordForm, seq<Path>>)
    ensures r.Ok? <==> (v.Obj? && Get(v, "password").Str? && |Get(v, "password").s| >= MIN_PASSWORD_LENGTH
      && Get(v, "confirmPassword") == Get(v, "password"))
    ensures r.Ok? ==> r.value.password == r.value.confirmPassword
  {
    Outcome(CheckResetPassword(v))
  }

  /** Every body that registers can log in with the same email and password. */
  lemma RegisteredCanLogIn(v: JsValue, isEmail: string -> bool)
    requires RegisterSchema(v, isEmail).Ok?
    ensures LoginSchema(v, isEmail).Ok?
    ensures LoginSchema(v, isEmail).value ==
      LoginForm(RegisterSchema(v, isEmail).value.email, RegisterSchema(v, isEmail).value.password)
  {
  }

  /** Reset enforces the same password rules as registration. */
  lemma RegisterPasswordRulesAreResetRules(v: JsValue, isEmail: string -> bool)
    requires RegisterSchema(v, isEmail).Ok?
    ensures ResetPasswordSchema(v).Ok?
  {
  }

  /** Every login body names an email the reset-request form accepts. */
  lemma LoginEmailIsForgotEmail(v: JsValue, isEmail: string -> bool)
    requires LoginSchema(v, isEmail).Ok?
    ensures ForgotPasswordSchema(v, isEmail).Ok?
  {
  }
}
