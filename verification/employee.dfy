/** The field rules of `employeeSchema` in `src/lib/validations/employee.ts`.
    Every check of a field runs and each failure is reported; the value is
    accepted only when no check fails. The grammar behind `.email()` belongs
    to the validation library and is a parameter here. */
module EmployeeValidation {
  import opened Wrappers
  import opened Text

  datatype Role = Doctor | Nurse | Administrator

  function ParseRole(s: string): (r: Option<Role>)
    ensures r.Some? <==> s in ["Doctor", "Nurse", "Administrator"]
  {
    if s == "Doctor" then Some(Doctor)
    else if s == "Nurse" then Some(Nurse)
    else if s == "Administrator" then Some(Administrator)
    else None
  }

  /** Which check failed, with the message the schema attaches to it. */
  datatype Check =
    | TooShort(message: string)
    | TooLong(message: string)
    | PatternMismatch(message: string)
    | NotAnEmail(message: string)
    | RoleMissing(message: string)
    | NotARole

  datatype Issue = Issue(field: string, check: Check)

  /** The submitted form; an absent role is `None`. */
  datatype EmployeeInput = EmployeeInput(
    fullName: string, email: string, password: string, role: Option<string>, employeeCode: string)

  datatype Employee = Employee(
    fullName: string, email: string, password: string, role: Role, employeeCode: string)

  /** The lower and upper length bounds of a field, each with its own message. */
  function LengthChecks(s: string, lo: nat, hi: nat, short: string, long: string): (r: seq<Check>)
    ensures r == [] <==> lo <= |s| <= hi
  {
    (if |s| < lo then [TooShort(short)] else []) + (if |s| > hi then [TooLong(long)] else [])
  }

  // ---------------------------------------------------------------------
  // The employee-code pattern ^[A-Za-z0-9][-A-Za-z0-9]*[A-Za-z0-9]$

  /** A recognizer for the pattern: the state after reading a prefix. */
  datatype CodeState = Start | OneChar | EndsAlnum | EndsHyphen | Reject

  function Step(q: CodeState, c: char): CodeState {
    match q
    case Start => if IsAlnum(c) then OneChar else Reject
    case Reject => Reject
    case _ => if IsAlnum(c) then EndsAlnum else if c == '-' then EndsHyphen else Reject
  }

  function StateAfter(s: string): CodeState
    decreases |s|
  {
    if s == [] then Start else Step(StateAfter(s[..|s| - 1]), s[|s| - 1])
  }

  predicate MatchesCodePattern(s: string) {
    StateAfter(s) == EndsAlnum
  }

  /** What the pattern says in words: at least two characters, the first and
      last a letter or digit, those in between a letter, digit or hyphen. */
  predicate CodeShape(s: string) {
    && |s| >= 2
    && IsAlnum(s[0])
    && IsAlnum(s[|s| - 1])
    && forall i :: 0 < i < |s| - 1 ==> IsAlnum(s[i]) || s[i] == '-'
  }

  /** Every character after the first is a letter, digit or hyphen. */
  predicate TailOk(s: string) {
    forall i :: 0 < i < |s| ==> IsAlnum(s[i]) || s[i] == '-'
  }

  /** The state after a prefix, described without the recognizer. */
  function Expected(s: string): CodeState {
    if s == [] then Start
    else if !IsAlnum(s[0]) || !TailOk(s) then Reject
    else if |s| == 1 then OneChar
    else if IsAlnum(s[|s| - 1]) then EndsAlnum
    else EndsHyphen
  }

  lemma {:induction false} StateAfterIsExpected(s: string)
    ensures StateAfter(s) == Expected(s)
    decreases |s|
  {
    if s != [] {
      var p := s[..|s| - 1];
      StateAfterIsExpected(p);
      if p != [] {
        assert p[0] == s[0];
        assert TailOk(s) <==> TailOk(p) && (IsAlnum(s[|s| - 1]) || s[|s| - 1] == '-') by {
          assert forall i :: 0 < i < |p| ==> p[i] == s[i];
        }
      }
    }
  }

  /** The recognizer accepts exactly the strings of the pattern's shape. */
  lemma CodePatternMeaning(s: string)
    ensures MatchesCodePattern(s) <==> CodeShape(s)
  {
    StateAfterIsExpected(s);
  }

  /** A string of the pattern's shape contains no whitespace. */
  lemma CodeShapeHasNoSpace(s: string)
    requires CodeShape(s)
    ensures NoSpace(s)
  {
  }

  // ---------------------------------------------------------------------
  // The fields

  const CodeTooShort := "Employee code must be at least 2 characters"
  const CodeTooLong := "Employee code must be less than 20 characters"
  const CodeBadPattern := "Employee code must start and end with a letter or number, and can contain hyphens in between"

  /** The `employee_code` rule, which `employeeCodeSchema` reuses for login:
      accepted iff it has 2 to 20 characters and the pattern's shape; the
      trailing `trim` then returns the code unchanged. */
  function ValidateEmployeeCode(code: string): (r: Result<string, seq<Check>>)
    ensures r.Success? <==> 2 <= |code| <= 20 && CodeShape(code)
    ensures r.Success? ==> r.value == code
    ensures r.Failure? ==> r.error != []
  {
    CodePatternMeaning(code);
    var checks := LengthChecks(code, 2, 20, CodeTooShort, CodeTooLong)
      + (if MatchesCodePattern(code) then [] else [PatternMismatch(CodeBadPattern)]);
    if checks == [] then
      CodeShapeHasNoSpace(code);
      Success(Trim(code))
    else Failure(checks)
  }

  function Tagged(field: string, checks: seq<Check>): (r: seq<Issue>)
    ensures |r| == |checks|
    ensures forall i :: 0 <= i < |r| ==> r[i] == Issue(field, checks[i])
  {
    seq(|checks|, i requires 0 <= i < |checks| => Issue(field, checks[i]))
  }

  /** `z.enum([...], { required_error })`: a missing role gets the given
      message, an unknown one the library's own. */
  function RoleChecks(role: Option<string>): (r: seq<Check>)
    ensures r == [] <==> role.Some? && ParseRole(role.value).Some?
  {
    match role
    case None => [RoleMissing("Role is required")]
    case Some(name) => if ParseRole(name).Some? then [] else [NotARole]
  }

  function CodeChecks(code: string): seq<Check> {
    match ValidateEmployeeCode(code)
    case Success(_) => []
    case Failure(checks) => checks
  }

  /** `employeeSchema`: accepted iff the full name has 1 to 100 characters
      (100 included, whatever its message says), the email is non-empty and
      an address, the password has 8 to 100 characters, the role is one of
      the three, and the employee code passes its own rule. */
  function ValidateEmployee(input: EmployeeInput, isEmail: string -> bool): (r: Result<Employee, seq<Issue>>)
    ensures r.Success? <==>
      && 1 <= |input.fullName| <= 100
      && |input.email| >= 1 && isEmail(input.email)
      && 8 <= |input.password| <= 100
      && input.role.Some? && ParseRole(input.role.value).Some?
      && 2 <= |input.employeeCode| <= 20 && CodeShape(input.employeeCode)
    ensures r.Success? ==> r.value == Employee(input.fullName, input.email, input.password,
                                               ParseRole(input.role.value).value, input.employeeCode)
    ensures r.Failure? ==> r.error != []
  {
    var issues :=
      Tagged("fullName", LengthChecks(input.fullName, 1, 100,
        "Full name is required", "Full name must be less than 100 characters"))
      + Tagged("email",
          (if |input.email| < 1 then [TooShort("Email is required")] else [])
          + (if isEmail(input.email) then [] else [NotAnEmail("Invalid email address")]))
      + Tagged("password", LengthChecks(input.password, 8, 100,
          "Password must be at least 8 characters", "Password must be less than 100 characters"))
      + Tagged("role", RoleChecks(input.role))
      + Tagged("employee_code", CodeChecks(input.employeeCode));
    if issues == [] then
      Success(Employee(input.fullName, input.email, input.password,
        ParseRole(input.role.value).value, ValidateEmployeeCode(input.employeeCode).value))
    else Failure(issues)
  }
}
