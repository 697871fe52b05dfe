/** The two validators of a registration: the data annotations on the
    server's RegisterDto and the client's zod `registerSchema`. */
module Registration {
  import opened Wrappers
  import opened Text

  const EmailMaxLength: int := 255
  const PasswordMinLength: int := 8

  /** The fields a validation issue is reported on. */
  datatype Field = Email | Password | ConfirmPassword | DataProcessingConsent

  datatype Issue = Issue(path: Field, message: string)

  predicate HasUpper(s: string) { exists i :: 0 <= i < |s| && IsUpperAscii(s[i]) }
  predicate HasLower(s: string) { exists i :: 0 <= i < |s| && IsLowerAscii(s[i]) }
  predicate HasDigit(s: string) { exists i :: 0 <= i < |s| && IsDigitAscii(s[i]) }

  // ---------------------------------------------------------------------
  // Server: RegisterDto's attributes
  // ---------------------------------------------------------------------

  /** The JSON body as bound to RegisterDto: a null string is None; a
      missing boolean binds as false. */
  datatype RegisterDto = RegisterDto(email: Option<string>, password: Option<string>, dataProcessingConsent: bool)

  /** [Required] on a string: present and not white space only. */
  predicate Required(v: Option<string>) {
    !IsNullOrWhiteSpace(v)
  }

  /** The position of the first `c` in s, or -1 (IndexOf). */
  function IndexOf(s: string, c: char): (r: int)
    ensures -1 <= r < |s|
    ensures r >= 0 ==> s[r] == c && forall k :: 0 <= k < r ==> s[k] != c
    ensures r == -1 <==> c !in s
  {
    if s == [] then -1
    else if s[0] == c then 0
    else
      var r := IndexOf(s[1..], c);
      assert forall k :: 1 <= k < |s| ==> s[k] == s[1..][k - 1];
      if r == -1 then -1 else r + 1
  }

  /** The position of the last `c` in s, or -1 (LastIndexOf). */
  function LastIndexOf(s: string, c: char): (r: int)
    ensures -1 <= r < |s|
    ensures r >= 0 ==> s[r] == c && forall k :: r < k < |s| ==> s[k] != c
    ensures r == -1 <==> c !in s
  {
    if s == [] then -1
    else if s[|s| - 1] == c then |s| - 1
    else
      var r := LastIndexOf(s[..|s| - 1], c);
      assert forall k :: 0 <= k < |s| - 1 ==> s[k] == s[..|s| - 1][k];
      r
  }

  /** [EmailAddress]: null passes; otherwise exactly one '@', neither the
      first nor the last character. */
  predicate EmailAddress(v: Option<string>) {
    v.None? ||
    var i := IndexOf(v.value, '@');
    i > 0 && i != |v.value| - 1 && i == LastIndexOf(v.value, '@')
  }

  /** [MaxLength(n)] and [MinLength(n)]: null passes. */
  predicate MaxLength(v: Option<string>, n: int) { v.None? || |v.value| <= n }
  predicate MinLength(v: Option<string>, n: int) { v.None? || |v.value| >= n }

  /** `^(?=.*[a-z])(?=.*[A-Z]).{8,}$` matched against the whole value, as
      [RegularExpression] requires. `.` matches any character but a line
      feed, so the match must cover a line-feed-free string of at least
      eight characters, and the two look-aheads then find an ASCII lower-
      and upper-case letter anywhere in it. */
  predicate PasswordPatternMatches(p: string) {
    |p| >= 8 && '\n' !in p && HasLower(p) && HasUpper(p)
  }

  /** [RegularExpression]: null and the empty string pass. */
  predicate RegularExpression(v: Option<string>) {
    v.None? || v.value == "" || PasswordPatternMatches(v.value)
  }

  /** Every failing attribute, in declaration order, as model-state errors. */
  function ServerErrors(dto: RegisterDto): (r: seq<Issue>)
    ensures forall e :: e in r && e.path == Email
              ==> !Required(dto.email) || !EmailAddress(dto.email) || !MaxLength(dto.email, EmailMaxLength)
  {
    (if Required(dto.email) then [] else [Issue(Email, "Email is required")])
    + (if EmailAddress(dto.email) then [] else [Issue(Email, "Invalid email format")])
    + (if MaxLength(dto.email, EmailMaxLength) then []
       else [Issue(Email, "The field Email must be a string or array type with a maximum length of '255'.")])
    + (if Required(dto.password) then [] else [Issue(Password, "Password is required")])
    + (if MinLength(dto.password, PasswordMinLength) then [] else [Issue(Password, "Password must be at least 8 characters")])
    + (if RegularExpression(dto.password) then [] else [Issue(Password, "Password must contain: uppercase, lowercase")])
    + (if dto.dataProcessingConsent then [] else [Issue(DataProcessingConsent, "You must consent to data processing")])
  }

  /** The server's password rule, all three password attributes together. */
  predicate ServerPasswordOk(p: string) {
    Required(Some(p)) && MinLength(Some(p), PasswordMinLength) && RegularExpression(Some(p))
  }

  /** The server accepts a body exactly when the email is present with one
      inner '@' and at most 255 characters, the password has at least eight
      characters, no line feed, and an ASCII lower- and upper-case letter,
      and consent is given. */
  lemma {:induction false} ServerAcceptsIff(dto: RegisterDto)
    ensures ServerErrors(dto) == []
        <==> && dto.email.Some? && dto.password.Some?
             && !IsNullOrWhiteSpace(dto.email) && EmailAddress(dto.email) && |dto.email.value| <= EmailMaxLength
             && PasswordPatternMatches(dto.password.value)
             && dto.dataProcessingConsent
  {
    if dto.password.Some? && PasswordPatternMatches(dto.password.value) {
      PatternPasswordIsNotBlank(dto.password.value);
    }
  }

  /** A password with a letter in it is not white space only. */
  lemma PatternPasswordIsNotBlank(p: string)
    requires HasUpper(p)
    ensures Required(Some(p))
  {
    var i :| 0 <= i < |p| && IsUpperAscii(p[i]);
    assert !IsWhiteSpace(p[i]);
  }

  // ---------------------------------------------------------------------
  // Client: registerSchema
  // ---------------------------------------------------------------------

  /** The form's values. */
  datatype RegisterForm = RegisterForm(email: string, password: string, confirmPassword: string, dataProcessingConsent: bool)

  /** The password checks: min(8) and the three regex tests, each searching
      anywhere in the string. */
  predicate ClientPasswordOk(p: string) {
    |p| >= 8 && HasUpper(p) && HasLower(p) && HasDigit(p)
  }

  /** The password field's issues: min(8), then the three regex tests. */
  function PasswordIssues(p: string): (r: seq<Issue>)
    ensures r == [] <==> ClientPasswordOk(p)
    ensures forall e :: e in r ==> e.path == Password
  {
    (if |p| >= 8 then [] else [Issue(Password, "Password must be at least 8 characters")])
    + (if HasUpper(p) then [] else [Issue(Password, "Password must contain at least one uppercase letter")])
    + (if HasLower(p) then [] else [Issue(Password, "Password must contain at least one lowercase letter")])
    + (if HasDigit(p) then [] else [Issue(Password, "Password must contain at least one number")])
  }

  /** The issues `registerSchema` reports, field checks first and then the
      object refinement on confirmPassword. `isEmail` is z.string().email(). */
  function ClientIssues(form: RegisterForm, isEmail: string -> bool): (r: seq<Issue>)
    ensures forall e :: e in r && e.path == ConfirmPassword ==> form.password != form.confirmPassword
    ensures forall e :: e in r && e.path == Password ==> !ClientPasswordOk(form.password)
    ensures forall e :: e in r && e.path == DataProcessingConsent ==> !form.dataProcessingConsent
    ensures forall e :: e in r && e.path == Email ==> !isEmail(form.email)
  {
    var emailIssues := if isEmail(form.email) then [] else [Issue(Email, "Invalid email address")];
    var consentIssues :=
      if form.dataProcessingConsent then [] else [Issue(DataProcessingConsent, "You must accept data processing consent")];
    var matchIssues := if form.password == form.confirmPassword then [] else [Issue(ConfirmPassword, "Passwords don't match")];
    emailIssues + PasswordIssues(form.password) + consentIssues + matchIssues
  }

  /** The schema accepts exactly a valid email, a password meeting all four
      checks, consent, and a matching confirmation. */
  lemma ClientAcceptsIff(form: RegisterForm, isEmail: string -> bool)
    ensures ClientIssues(form, isEmail) == []
        <==> isEmail(form.email) && ClientPasswordOk(form.password)
             && form.dataProcessingConsent && form.password == form.confirmPassword
  {
  }

  /** A mismatch is reported on confirmPassword, never on password. */
  lemma MismatchIsReportedOnConfirm(form: RegisterForm, isEmail: string -> bool)
    requires form.password != form.confirmPassword
    ensures Issue(ConfirmPassword, "Passwords don't match") in ClientIssues(form, isEmail)
    ensures ClientPasswordOk(form.password) ==> forall e :: e in ClientIssues(form, isEmail) ==> e.path != Password
  {
  }

  /** A password the client accepts also passes the server's three password
      attributes, provided it holds no line feed. */
  lemma {:induction false} ClientPasswordPassesServer(p: string)
    requires ClientPasswordOk(p) && '\n' !in p
    ensures ServerPasswordOk(p)
  {
    PatternPasswordIsNotBlank(p);
  }

  /** The line-feed proviso is needed: the client accepts this password and
      the server's pattern refuses it. */
  lemma LineFeedPasswordSplitsClientAndServer()
    ensures ClientPasswordOk("Abcdefg1\n") && !ServerPasswordOk("Abcdefg1\n")
  {
    var p := "Abcdefg1\n";
    assert IsUpperAscii(p[0]) && IsLowerAscii(p[1]) && IsDigitAscii(p[7]);
    assert p[8] == '\n';
  }

  /** The converse fails: the server accepts a password without a digit,
      which the client refuses. */
  lemma ServerPasswordWithoutDigit()
    ensures ServerPasswordOk("abcdefgH") && !ClientPasswordOk("abcdefgH")
  {
    var p := "abcdefgH";
    assert IsUpperAscii(p[7]) && IsLowerAscii(p[0]);
    PatternPasswordIsNotBlank(p);
  }
}
