/** The add-employee page: how it turns the form's data into the request body, the
    checks it runs before posting, and the message it shows when the request fails.
    The edit page repeats the body and the checks word for word. */
module AddEmployee {
  import opened Wrappers
  import opened Strings
  import opened Validation
  import opened Dates
  import EmployeeForm

  // ---------------------------------------------------------------------------
  // Input values

  /** A property of a skill object (`skill.value`, `skill.name`) as `toString` sees it. */
  datatype Prop = Absent | PropText(text: string) | PropInt(n: int) | PropBool(b: bool)

  predicate PropTruthy(p: Prop) {
    match p
    case Absent => false
    case PropText(t) => t != ""
    case PropInt(n) => n != 0
    case PropBool(b) => b
  }

  /** `p.toString()` of a present property. */
  function PropString(p: Prop): string {
    match p
    case Absent => ""
    case PropText(t) => t
    case PropInt(n) => IntToString(n)
    case PropBool(b) => if b then "true" else "false"
  }

  /** An entry of `employeeData.skills`. */
  datatype SkillValue =
    | SkillNull
    | SkillUndefined
    | SkillText(text: string)
    | SkillInt(n: int)
    | SkillBool(b: bool)
    | SkillObject(value: Prop, name: Prop)

  /** A field the form may hand over as text or as a number. */
  datatype Scalar = Missing | Text(text: string) | Num(n: Number)

  predicate ScalarTruthy(s: Scalar) {
    match s
    case Missing => false
    case Text(t) => t != ""
    case Num(n) => n.Finite? && n.value != 0.0
  }

  /** The integer part of a real, rounded toward zero. */
  function Truncate(x: real): int {
    if x >= 0.0 then x.Floor else -((-x).Floor)
  }

  /** An integer is its own integer part. */
  lemma TruncateOfInt(n: int)
    ensures Truncate(n as real) == n
  {
    if n < 0 {
      assert -(n as real) == (-n) as real;
    }
  }

  /** The department the form parsed, read again by `department_id ? parseInt(…) : null`:
      only 0 is lost. */
  lemma DepartmentReparsed(d: Option<int>)
    ensures IntOrNull(Num(if d.Some? then Finite(d.value as real) else NaN)) == (if d == Some(0) then None else d)
  {
    if d.Some? { TruncateOfInt(d.value); }
  }

  /** `parseInt(v)`; `None` is NaN.  A number is read through its decimal form; the
      model keeps its integer part, which is what `parseInt` reads for every number
      written without an exponent (at least 1e-6 in size and below 1e21). */
  function ParseIntOf(s: Scalar): Option<int> {
    match s
    case Missing => None
    case Text(t) => ParseInt(t)
    case Num(n) => if n.Finite? then Some(Truncate(n.value)) else None
  }

  /** `parseFloat(v)`. */
  function ParseFloatOf(s: Scalar): Number {
    match s
    case Missing => NaN
    case Text(t) => ParseFloat(t)
    case Num(n) => n
  }

  /** The object handed to `handleSubmit`; `None` stands for `null` or `undefined`,
      and `skills == None` for a value that is not an array. */
  datatype EmployeeData = EmployeeData(
    firstName: Option<string>, lastName: Option<string>, email: Option<string>,
    phone: Option<string>, departmentId: Scalar, position: Option<string>, salary: Scalar,
    hireDate: Option<string>, status: Option<string>, skills: Option<seq<SkillValue>>)

  /** `dataToSubmit`, the request body. */
  datatype Payload = Payload(
    firstName: Option<string>, lastName: Option<string>, email: Option<string>,
    phone: Option<string>, departmentId: Option<int>, position: Option<string>,
    salary: Option<Number>, hireDate: Option<string>, status: string, skills: seq<string>)

  // ---------------------------------------------------------------------------
  // Skill normalisation

  /** The `map` step for one skill: `None` for `null`/`undefined`, otherwise the text. */
  function NormaliseSkill(v: SkillValue): Option<string> {
    match v
    case SkillNull => None
    case SkillUndefined => None
    case SkillText(t) => Some(Trim(t))
    case SkillInt(n) => Some(IntToString(n))
    case SkillBool(b) => Some(if b then "true" else "false")
    case SkillObject(value, name) =>
      if PropTruthy(value) then Some(Trim(PropString(value)))
      else if PropTruthy(name) then Some(Trim(PropString(name)))
      else Some("[object Object]")
  }

  /** Non-empty and free of white space at either end. */
  predicate Trimmed(s: string) {
    s != [] && !IsWhitespace(s[0]) && !IsWhitespace(s[|s| - 1])
  }

  /** `skills.map(…).filter(skill => skill && skill !== '')`. */
  function NormaliseSkills(vs: seq<SkillValue>): (r: seq<string>)
    ensures |r| <= |vs|
    ensures forall i :: 0 <= i < |r| ==> Trimmed(r[i])
    decreases |vs|
  {
    if vs == [] then []
    else
      var rest := NormaliseSkills(vs[..|vs| - 1]);
      match NormaliseSkill(vs[|vs| - 1])
      case None => rest
      case Some(s) =>
        if s == "" then rest
        else
          assert Trimmed(s) by { NormalisedSkillIsTrimmed(vs[|vs| - 1]); }
          rest + [s]
  }

  lemma NormalisedSkillIsTrimmed(v: SkillValue)
    requires NormaliseSkill(v).Some? && NormaliseSkill(v).value != ""
    ensures Trimmed(NormaliseSkill(v).value)
  {
    match v
    case SkillText(t) =>
    case SkillInt(n) => IntStringTrimmed(n);
    case SkillBool(b) =>
      var w := if b then "true" else "false";
      assert w[0] in "tf" && w[|w| - 1] == 'e';
    case SkillObject(value, name) =>
      if !PropTruthy(value) && !PropTruthy(name) {
        var w := "[object Object]";
        assert w[0] == '[' && w[|w| - 1] == ']';
      }
  }

  /** The decimal form of an integer has no white space at either end. */
  lemma IntStringTrimmed(n: int)
    ensures Trimmed(IntToString(n))
  {
    var d := NatToString(if n < 0 then -n else n);
    assert IsDigit(d[|d| - 1]);
    assert IntToString(n) == (if n < 0 then "-" + d else d);
  }

  /** The skills as text entries. */
  function AsText(ss: seq<string>): (r: seq<SkillValue>)
    ensures |r| == |ss|
    ensures forall i :: 0 <= i < |r| ==> r[i] == SkillText(ss[i])
  {
    seq(|ss|, i requires 0 <= i < |ss| => SkillText(ss[i]))
  }

  /** Normalising text entries that are already trimmed and non-empty keeps them all. */
  lemma {:induction false} NormaliseTrimmedTexts(ss: seq<string>)
    requires forall i :: 0 <= i < |ss| ==> Trimmed(ss[i])
    ensures NormaliseSkills(AsText(ss)) == ss
    decreases |ss|
  {
    if ss != [] {
      var init, last := ss[..|ss| - 1], ss[|ss| - 1];
      var v := AsText(ss);
      assert v[..|ss| - 1] == AsText(init);
      NormaliseTrimmedTexts(init);
      assert v[|v| - 1] == SkillText(last);
      NormaliseTrimmedText(last);
      assert init + [last] == ss;
    }
  }

  /** A trimmed, non-empty text entry normalises to itself. */
  lemma NormaliseTrimmedText(t: string)
    requires Trimmed(t)
    ensures NormaliseSkill(SkillText(t)) == Some(t)
  {
    TrimOfTrimmed(t);
  }

  /** Normalisation is idempotent: the body's skills, sent back through the form, come
      out unchanged. */
  lemma NormaliseSkillsIdempotent(vs: seq<SkillValue>)
    ensures NormaliseSkills(AsText(NormaliseSkills(vs))) == NormaliseSkills(vs)
  {
    NormaliseTrimmedTexts(NormaliseSkills(vs));
  }

  /** The entries kept from text input are the non-blank ones, trimmed, in order. */
  lemma {:induction false} NormaliseTextsKeepsNonBlank(ss: seq<string>)
    ensures |NormaliseSkills(AsText(ss))| == |NonBlank(ss)|
    ensures NormaliseSkills(AsText(ss)) == NonBlank(ss)
    decreases |ss|
  {
    if ss != [] {
      var init := ss[..|ss| - 1];
      assert AsText(ss)[..|ss| - 1] == AsText(init);
      NormaliseTextsKeepsNonBlank(init);
    }
  }

  /** The trimmed non-blank strings of `ss`, in order. */
  function NonBlank(ss: seq<string>): seq<string>
    decreases |ss|
  {
    if ss == [] then []
    else
      var last := ss[|ss| - 1];
      NonBlank(ss[..|ss| - 1]) + (if IsBlank(last) then [] else [Trim(last)])
  }

  /** Numbers, booleans and bare objects are kept: `0` becomes "0", `false` becomes
      "false" and an object with neither a truthy `value` nor `name` "[object Object]". */
  lemma NonTextSkillsAreKept()
    ensures NormaliseSkills([SkillInt(0)]) == ["0"]
    ensures NormaliseSkills([SkillBool(false)]) == ["false"]
    ensures NormaliseSkills([SkillObject(PropText(""), Absent)]) == ["[object Object]"]
    ensures NormaliseSkills([SkillNull, SkillUndefined]) == []
  {
    assert [SkillInt(0)][..0] == [];
    assert [SkillBool(false)][..0] == [];
    assert [SkillObject(PropText(""), Absent)][..0] == [];
    assert [SkillNull, SkillUndefined][..1] == [SkillNull];
    assert [SkillNull][..0] == [];
  }

  // ---------------------------------------------------------------------------
  // The request body

  /** `v?.trim() || null`. */
  function TrimOrNull(v: Option<string>): (r: Option<string>)
    ensures r.None? <==> v.None? || IsBlank(v.value)
    ensures r.Some? ==> Trimmed(r.value) && r.value == Trim(v.value)
  {
    if v.None? || IsBlank(v.value) then None else Some(Trim(v.value))
  }

  /** `v?.trim()`. */
  function TrimOptional(v: Option<string>): Option<string> {
    if v.Some? then Some(Trim(v.value)) else None
  }

  /** `v ? parseInt(v) : null`. */
  function IntOrNull(v: Scalar): Option<int> {
    if ScalarTruthy(v) then ParseIntOf(v) else None
  }

  /** `v ? parseFloat(v) : null`. */
  function NumberOrNull(v: Scalar): Option<Number> {
    if ScalarTruthy(v) then Some(ParseFloatOf(v)) else None
  }

  /** `v || null` for a text value. */
  function TextOrNull(v: Option<string>): Option<string> {
    if v.Some? && v.value != "" then v else None
  }

  /** `Array.isArray(v) ? … : []`. */
  function SkillsOf(v: Option<seq<SkillValue>>): seq<string> {
    if v.Some? then NormaliseSkills(v.value) else []
  }

  /** `dataToSubmit`. */
  function ToPayload(d: EmployeeData): Payload {
    Payload(
      TrimOptional(d.firstName), TrimOptional(d.lastName), TrimOptional(d.email),
      TrimOrNull(d.phone), IntOrNull(d.departmentId), TrimOrNull(d.position),
      NumberOrNull(d.salary), TextOrNull(d.hireDate),
      if d.status.Some? && d.status.value != "" then d.status.value else "Active",
      SkillsOf(d.skills))
  }

  /** The object the shared form hands to `onSubmit`, as this page receives it: a
      department that did not parse is the number NaN and an absent salary is `null`. */
  function FromSubmission(s: EmployeeForm.Submission): EmployeeData {
    EmployeeData(
      Some(s.firstName), Some(s.lastName), Some(s.email), s.phone,
      Num(if s.departmentId.Some? then Finite(s.departmentId.value as real) else NaN),
      s.position,
      if s.salary.Some? then Num(s.salary.value) else Missing,
      Some(s.hireDate), Some(s.status), Some(AsText(s.skills)))
  }

  /** A department the form parsed survives this page unless it is 0. */
  lemma PageKeepsDepartment(s: EmployeeForm.Submission)
    ensures ToPayload(FromSubmission(s)).departmentId == (if s.departmentId == Some(0) then None else s.departmentId)
  {
    DepartmentReparsed(s.departmentId);
  }

  /** A submission whose text fields are already trimmed keeps them on this page, and
      its skills lose only their blank entries. */
  lemma PageKeepsSubmission(s: EmployeeForm.Submission)
    requires Trimmed(s.firstName) && Trimmed(s.lastName) && Trimmed(s.email)
    requires s.phone.Some? ==> Trimmed(s.phone.value)
    requires s.position.Some? ==> Trimmed(s.position.value)
    requires s.hireDate != ""
    ensures var p := ToPayload(FromSubmission(s));
      && p.firstName == Some(s.firstName) && p.lastName == Some(s.lastName)
      && p.email == Some(s.email) && p.phone == s.phone && p.position == s.position
      && p.hireDate == Some(s.hireDate)
      && p.skills == NonBlank(s.skills)
  {
    TrimOfTrimmed(s.firstName);
    TrimOfTrimmed(s.lastName);
    TrimOfTrimmed(s.email);
    if s.phone.Some? { TrimOfTrimmed(s.phone.value); }
    if s.position.Some? { TrimOfTrimmed(s.position.value); }
    NormaliseTextsKeepsNonBlank(s.skills);
  }

  /** What the form accepted passes through this page: its names, e-mail, phone,
      position and hire date unchanged. */
  lemma PageKeepsFormFields(f: EmployeeForm.FormData)
    requires EmployeeForm.SubmitForm(f).Ok?
    ensures var s := EmployeeForm.SubmitForm(f).value;
      var p := ToPayload(FromSubmission(s));
      && p.firstName == Some(s.firstName) && p.lastName == Some(s.lastName)
      && p.email == Some(s.email) && p.phone == s.phone && p.position == s.position
      && p.hireDate == Some(s.hireDate)
      && p.skills == NonBlank(s.skills)
  {
    var s := EmployeeForm.SubmitForm(f).value;
    EmployeeForm.SubmissionIsNormalised(f);
    EmployeeForm.ValidEmailIsTrimmed(f.email);
    assert Trimmed(s.email) by { assert Trim(f.email) == f.email; }
    PageKeepsSubmission(s);
  }

  // ---------------------------------------------------------------------------
  // Hire date

  /** `/^\d{4}-\d{2}-\d{2}$/`. */
  predicate IsDateShape(s: string) {
    && |s| == 10 && s[4] == '-' && s[7] == '-'
    && AllDigits(s[..4]) && AllDigits(s[5..7]) && AllDigits(s[8..])
  }

  /** The year, month and day a string of that shape spells. */
  function DateOfShape(s: string): Date
    requires IsDateShape(s)
  {
    Date(DigitsValue(s[..4]), DigitsValue(s[5..7]), DigitsValue(s[8..]))
  }

  /** `new Date(s)` gives a real date (else "Invalid Date", which compares as never
      being after anything). */
  predicate IsCalendarDate(d: Date) {
    1 <= d.month <= 12 && 1 <= d.day <= 31
  }

  /** `hireDate > today` with today's clock at 23:59:59.999. */
  predicate IsAfterToday(s: string, today: Date)
    requires IsDateShape(s)
  {
    IsCalendarDate(DateOfShape(s)) && Before(today, DateOfShape(s))
  }

  /** The `w` low decimal digits of `n`, most significant first. */
  function Digits(n: nat, w: nat): (r: string)
    ensures |r| == w && AllDigits(r)
  {
    if w == 0 then [] else Digits(n / 10, w - 1) + [DigitChar(n % 10)]
  }

  lemma {:induction false} DigitsValueOfDigits(n: nat, w: nat)
    requires n < Pow10(w)
    ensures DigitsValue(Digits(n, w)) == n
  {
    if w > 0 {
      var r := Digits(n, w);
      assert r[..|r| - 1] == Digits(n / 10, w - 1);
      DigitsValueOfDigits(n / 10, w - 1);
    }
  }

  /** A date written `YYYY-MM-DD`, as the date input produces it. */
  function FormatDate(d: Date): string
    requires 0 <= d.year < 10000 && 1 <= d.month <= 12 && 1 <= d.day <= 31
  {
    Digits(d.year, 4) + "-" + Digits(d.month, 2) + "-" + Digits(d.day, 2)
  }

  /** A date written by the date input has the checked shape and reads back as itself. */
  lemma FormatDateRoundTrip(d: Date)
    requires 0 <= d.year < 10000 && 1 <= d.month <= 12 && 1 <= d.day <= 31
    ensures IsDateShape(FormatDate(d))
    ensures DateOfShape(FormatDate(d)) == d
  {
    var s := FormatDate(d);
    assert s[..4] == Digits(d.year, 4);
    assert s[5..7] == Digits(d.month, 2);
    assert s[8..] == Digits(d.day, 2);
    assert Pow10(4) == 10000 && Pow10(2) == 100;
    DigitsValueOfDigits(d.year, 4);
    DigitsValueOfDigits(d.month, 2);
    DigitsValueOfDigits(d.day, 2);
  }

  // ---------------------------------------------------------------------------
  // Validation

  const MaxSalary: real := 9999999.99

  /** The set of the entries, what `new Set(list)` keeps. */
  function Distinct<T>(s: seq<T>): set<T>
    decreases |s|
  {
    if s == [] then {} else Distinct(s[..|s| - 1]) + {s[|s| - 1]}
  }

  /** The set holds exactly the entries of the sequence. */
  lemma {:induction false} DistinctHas<T>(s: seq<T>, y: T)
    ensures y in Distinct(s) <==> exists i :: 0 <= i < |s| && s[i] == y
    decreases |s|
  {
    if s != [] {
      var init := s[..|s| - 1];
      DistinctHas(init, y);
      assert forall i :: 0 <= i < |init| ==> init[i] == s[i];
      if exists i :: 0 <= i < |s| && s[i] == y {
        var i :| 0 <= i < |s| && s[i] == y;
        assert i < |init| ==> init[i] == y;
      }
    }
  }

  function LowerAll(ss: seq<string>): (r: seq<string>)
    ensures |r| == |ss|
  {
    seq(|ss|, i requires 0 <= i < |ss| => ToLower(ss[i]))
  }

  /** `[...new Set(skills.map(toLowerCase))].length !== skills.length`. */
  predicate HasCaseDuplicates(skills: seq<string>) {
    |Distinct(LowerAll(skills))| != |skills|
  }

  lemma {:induction false} DistinctCardinality<T>(s: seq<T>)
    ensures |Distinct(s)| <= |s|
    ensures |Distinct(s)| == |s| <==> EmployeeForm.NoDuplicates(s)
    decreases |s|
  {
    if s != [] {
      var init := s[..|s| - 1];
      var x := s[|s| - 1];
      DistinctCardinality(init);
      DistinctHas(init, x);
      if x in Distinct(init) {
        var i :| 0 <= i < |init| && init[i] == x;
        assert s[i] == s[|s| - 1];
      } else {
        assert EmployeeForm.NoDuplicates(s) <==> EmployeeForm.NoDuplicates(init) by {
          if EmployeeForm.NoDuplicates(init) {
            forall i, j | 0 <= i < j < |s| ensures s[i] != s[j] {
              if j < |s| - 1 { assert s[i] == init[i] && s[j] == init[j]; }
              else { assert init[i] == s[i]; }
            }
          }
          if EmployeeForm.NoDuplicates(s) {
            forall i, j | 0 <= i < j < |init| ensures init[i] != init[j] {
              assert s[i] == init[i] && s[j] == init[j];
            }
          }
        }
      }
    }
  }

  /** The duplicate check rejects exactly the lists in which two entries are equal once
      lower-cased. */
  lemma HasCaseDuplicatesIff(skills: seq<string>)
    ensures HasCaseDuplicates(skills) <==>
      exists i, j :: 0 <= i < j < |skills| && ToLower(skills[i]) == ToLower(skills[j])
  {
    var lowered := LowerAll(skills);
    DistinctCardinality(lowered);
    assert forall i :: 0 <= i < |skills| ==> lowered[i] == ToLower(skills[i]);
  }

  predicate SalaryInvalid(n: Number) {
    n.NaN? || n.value < 0.0
  }

  /** A text field's value, `""` when absent. */
  function TextOf(o: Option<string>): string {
    if o.Some? then o.value else ""
  }

  /** The required-field checks of `handleSubmit`, in the order they run. */
  function RequiredChecks(p: Payload): seq<Check> {
    [ Check(TextOf(p.firstName) == "", "First name is required"),
      Check(TextOf(p.lastName) == "", "Last name is required"),
      Check(TextOf(p.email) == "", "Email is required"),
      Check(!EmployeeForm.ValidateEmail(TextOf(p.email)), "Please enter a valid email address"),
      Check(p.departmentId.None? || p.departmentId.value == 0, "Department is required") ]
  }

  /** The length checks, next in order. */
  function LengthChecks(p: Payload): seq<Check> {
    [ Check(|TextOf(p.firstName)| > 50, "First name must be less than 50 characters"),
      Check(|TextOf(p.lastName)| > 50, "Last name must be less than 50 characters"),
      Check(|TextOf(p.email)| > 100, "Email must be less than 100 characters"),
      Check(|TextOf(p.phone)| > 20, "Phone number must be less than 20 characters"),
      Check(|TextOf(p.position)| > 100, "Position must be less than 100 characters") ]
  }

  /** The salary, hire-date and skill checks, last in order. */
  function ValueChecks(p: Payload, today: Date): seq<Check> {
    [ Check(p.salary.Some? && SalaryInvalid(p.salary.value), "Please enter a valid salary amount (positive number)"),
      Check(p.salary.Some? && p.salary.value.Finite? && p.salary.value.value > MaxSalary, "Salary amount is too large"),
      Check(p.hireDate.Some? && !IsDateShape(p.hireDate.value), "Please enter a valid date in YYYY-MM-DD format"),
      Check(p.hireDate.Some? && IsDateShape(p.hireDate.value) && IsAfterToday(p.hireDate.value, today), "Hire date cannot be in the future"),
      Check(|p.skills| > 10, "Maximum 10 skills allowed"),
      Check(HasCaseDuplicates(p.skills), "Duplicate skills are not allowed") ]
  }

  /** Every check of `handleSubmit`, in the order they run. */
  function PayloadChecks(p: Payload, today: Date): seq<Check> {
    RequiredChecks(p) + LengthChecks(p) + ValueChecks(p, today)
  }

  /** The first five early returns of `handleSubmit`. */
  function RequiredError(p: Payload): Option<string> {
    if p.firstName.None? || p.firstName.value == "" then Some("First name is required")
    else if p.lastName.None? || p.lastName.value == "" then Some("Last name is required")
    else if p.email.None? || p.email.value == "" then Some("Email is required")
    else if !EmployeeForm.ValidateEmail(p.email.value) then Some("Please enter a valid email address")
    else if p.departmentId.None? || p.departmentId.value == 0 then Some("Department is required")
    else None
  }

  /** The length caps; an absent phone or position is not checked. */
  function LengthError(p: Payload): Option<string> {
    if |TextOf(p.firstName)| > 50 then Some("First name must be less than 50 characters")
    else if |TextOf(p.lastName)| > 50 then Some("Last name must be less than 50 characters")
    else if |TextOf(p.email)| > 100 then Some("Email must be less than 100 characters")
    else if p.phone.Some? && |p.phone.value| > 20 then Some("Phone number must be less than 20 characters")
    else if p.position.Some? && |p.position.value| > 100 then Some("Position must be less than 100 characters")
    else None
  }

  /** The salary, hire-date and skill returns. */
  function ValueError(p: Payload, today: Date): Option<string> {
    if p.salary.Some? && SalaryInvalid(p.salary.value) then Some("Please enter a valid salary amount (positive number)")
    else if p.salary.Some? && p.salary.value.value > MaxSalary then Some("Salary amount is too large")
    else if p.hireDate.Some? && !IsDateShape(p.hireDate.value) then Some("Please enter a valid date in YYYY-MM-DD format")
    else if p.hireDate.Some? && IsAfterToday(p.hireDate.value, today) then Some("Hire date cannot be in the future")
    else if |p.skills| > 10 then Some("Maximum 10 skills allowed")
    else if HasCaseDuplicates(p.skills) then Some("Duplicate skills are not allowed")
    else None
  }

  /** The early-return chain of `handleSubmit`: the message it shows, if any. */
  function ValidatePayload(p: Payload, today: Date): Option<string> {
    if RequiredError(p).Some? then RequiredError(p)
    else if LengthError(p).Some? then LengthError(p)
    else ValueError(p, today)
  }

  /** The request body the page posts: every required field present and non-empty,
      the e-mail well formed, every length within its cap, a salary in
      `[0, 9999999.99]`, a hire date of the right shape and not in the future, at most
      ten skills and no two equal ignoring case. */
  predicate Acceptable(p: Payload, today: Date) {
    RequiredPresent(p) && WithinLengths(p) && ValuesInRange(p, today)
  }

  /** The required fields are present and non-empty, and the e-mail is well formed. */
  predicate RequiredPresent(p: Payload) {
    && p.firstName.Some? && p.firstName.value != ""
    && p.lastName.Some? && p.lastName.value != ""
    && p.email.Some? && p.email.value != "" && EmployeeForm.ValidateEmail(p.email.value)
    && p.departmentId.Some? && p.departmentId.value != 0
  }

  /** Every text field within its cap. */
  predicate WithinLengths(p: Payload) {
    && |TextOf(p.firstName)| <= 50 && |TextOf(p.lastName)| <= 50 && |TextOf(p.email)| <= 100
    && (p.phone.Some? ==> |p.phone.value| <= 20)
    && (p.position.Some? ==> |p.position.value| <= 100)
  }

  /** The salary, the hire date and the skills are admissible. */
  predicate ValuesInRange(p: Payload, today: Date) {
    && (p.salary.Some? ==> p.salary.value.Finite? && 0.0 <= p.salary.value.value <= MaxSalary)
    && (p.hireDate.Some? ==> IsDateShape(p.hireDate.value) && !IsAfterToday(p.hireDate.value, today))
    && |p.skills| <= 10
    && !exists i, j :: 0 <= i < j < |p.skills| && ToLower(p.skills[i]) == ToLower(p.skills[j])
  }

  lemma RequiredErrorIsFirstFailure(p: Payload)
    ensures RequiredError(p) == FirstFailure(RequiredChecks(p))
  {
    var c := RequiredChecks(p);
    if p.firstName.None? || p.firstName.value == "" { FirstFailureAt(c, 0); }
    else if p.lastName.None? || p.lastName.value == "" { FirstFailureAt(c, 1); }
    else if p.email.None? || p.email.value == "" { FirstFailureAt(c, 2); }
    else if !EmployeeForm.ValidateEmail(p.email.value) { FirstFailureAt(c, 3); }
    else if p.departmentId.None? || p.departmentId.value == 0 { FirstFailureAt(c, 4); }
    else { FirstFailureNone(c); }
  }

  lemma LengthErrorIsFirstFailure(p: Payload)
    ensures LengthError(p) == FirstFailure(LengthChecks(p))
  {
    var c := LengthChecks(p);
    if |TextOf(p.firstName)| > 50 { FirstFailureAt(c, 0); }
    else if |TextOf(p.lastName)| > 50 { FirstFailureAt(c, 1); }
    else if |TextOf(p.email)| > 100 { FirstFailureAt(c, 2); }
    else if p.phone.Some? && |p.phone.value| > 20 { FirstFailureAt(c, 3); }
    else if p.position.Some? && |p.position.value| > 100 { FirstFailureAt(c, 4); }
    else { FirstFailureNone(c); }
  }

  lemma ValueErrorIsFirstFailure(p: Payload, today: Date)
    ensures ValueError(p, today) == FirstFailure(ValueChecks(p, today))
  {
    var c := ValueChecks(p, today);
    if p.salary.Some? && SalaryInvalid(p.salary.value) { FirstFailureAt(c, 0); }
    else if p.salary.Some? && p.salary.value.value > MaxSalary { FirstFailureAt(c, 1); }
    else if p.hireDate.Some? && !IsDateShape(p.hireDate.value) { FirstFailureAt(c, 2); }
    else if p.hireDate.Some? && IsAfterToday(p.hireDate.value, today) { FirstFailureAt(c, 3); }
    else if |p.skills| > 10 { FirstFailureAt(c, 4); }
    else if HasCaseDuplicates(p.skills) { FirstFailureAt(c, 5); }
    else { FirstFailureNone(c); }
  }

  /** Only the first failing check is reported. */
  lemma ValidatePayloadIsFirstFailure(p: Payload, today: Date)
    ensures ValidatePayload(p, today) == FirstFailure(PayloadChecks(p, today))
  {
    RequiredErrorIsFirstFailure(p);
    LengthErrorIsFirstFailure(p);
    ValueErrorIsFirstFailure(p, today);
    FirstFailureAppend(RequiredChecks(p), LengthChecks(p));
    FirstFailureAppend(RequiredChecks(p) + LengthChecks(p), ValueChecks(p, today));
  }

  /** The body is posted exactly when it is acceptable. */
  lemma ValidatePayloadAccepts(p: Payload, today: Date)
    ensures ValidatePayload(p, today).None? <==> Acceptable(p, today)
  {
    assert RequiredError(p).None? <==> RequiredPresent(p);
    assert LengthError(p).None? <==> WithinLengths(p);
    ValueErrorAccepts(p, today);
  }

  lemma ValueErrorAccepts(p: Payload, today: Date)
    ensures ValueError(p, today).None? <==> ValuesInRange(p, today)
  {
    HasCaseDuplicatesIff(p.skills);
  }

  // ---------------------------------------------------------------------------
  // Error messages

  /** How the request failed: an HTTP reply with its status and the body's `message`
      and `error`, no reply (with the error's `code`), or a failure before sending. */
  datatype RequestFailure =
    | Response(status: int, message: Option<string>, error: Option<string>)
    | NoResponse(code: string)
    | NotSent

  /** `data?.message || data?.error`; `None` when neither is a non-empty string. */
  function ServerMessage(message: Option<string>, error: Option<string>): (r: Option<string>)
    ensures r.Some? ==> r.value != "" && (r == message || r == error)
    ensures r.None? <==> (message.None? || message.value == "") && (error.None? || error.value == "")
  {
    if message.Some? && message.value != "" then message
    else if error.Some? && error.value != "" then error
    else None
  }

  function OrElse(m: Option<string>, fallback: string): string {
    if m.Some? then m.value else fallback
  }

  const ForeignKeyMessage := "Invalid department or skill selected. Please refresh the page and try again."
  const DataTooLongMessage := "One or more fields contain too much data. Please shorten your input."
  const AddDuplicateEmailMessage := "An employee with this email address already exists."
  const AddDuplicateMessage := "An employee with this information already exists."

  /** The three kinds of server error text the 500 branch tells apart. */
  function Server500Message(m: Option<string>, duplicateEmail: string, duplicateOther: string): string {
    if m.Some? && Contains(m.value, "Duplicate entry") then
      (if Contains(m.value, "email") then duplicateEmail else duplicateOther)
    else if m.Some? && Contains(m.value, "foreign key constraint") then
      ForeignKeyMessage
    else if m.Some? && Contains(m.value, "Data too long") then
      DataTooLongMessage
    else
      "Server Error: " + OrElse(m, "Please contact support if this persists.")
  }

  /** The messages shared by both pages when no HTTP reply arrived. */
  function NoResponseMessage(code: string): string {
    if code == "ECONNREFUSED" then "Cannot connect to server. Please ensure the server is running on port 5000."
    else if code == "ECONNABORTED" then "Request timeout. The server is taking too long to respond."
    else "Network error. Please check your internet connection."
  }

  /** The add page's `catch` block. */
  function AddErrorMessage(f: RequestFailure): string {
    match f
    case NotSent => "Failed to create employee. Please try again."
    case NoResponse(code) => NoResponseMessage(code)
    case Response(status, message, error) =>
      var m := ServerMessage(message, error);
      if status == 400 then "Validation Error: " + OrElse(m, "Please check your input data.")
      else if status == 422 then "Data Error: " + OrElse(m, "Please check your input data format.")
      else if status == 500 then
        Server500Message(m, AddDuplicateEmailMessage,
                            AddDuplicateMessage)
      else if status == 404 then "Server endpoint not found. Please check if the server is running."
      else if status == 503 then "Server is temporarily unavailable. Please try again later."
      else "Error (" + IntToString(status) + "): " + OrElse(m, "Unknown error occurred.")
  }

  /** The text of a reply is its `message` when that is non-empty, else its `error`. */
  lemma MessageBeforeError(text: string, other: Option<string>)
    requires text != ""
    ensures ServerMessage(Some(text), other) == Some(text)
    ensures ServerMessage(None, Some(text)) == Some(text)
    ensures ServerMessage(Some(""), Some(text)) == Some(text)
  {
  }

  /** A 500 reply reporting a duplicate entry is told apart by whether it names the
      e-mail. */
  lemma Add500Duplicate(text: string)
    requires Contains(text, "Duplicate entry")
    ensures AddErrorMessage(Response(500, Some(text), None)) ==
      if Contains(text, "email") then AddDuplicateEmailMessage
      else AddDuplicateMessage
  {
    assert text != "";
    assert ServerMessage(Some(text), None) == Some(text);
  }

  /** Without a duplicate entry, a foreign-key failure gets its own message. */
  lemma Add500ForeignKey(text: string)
    requires !Contains(text, "Duplicate entry") && Contains(text, "foreign key constraint")
    ensures AddErrorMessage(Response(500, Some(text), None)) ==
      ForeignKeyMessage
  {
    assert text != "";
    assert ServerMessage(Some(text), None) == Some(text);
  }

  /** Over-long data, when neither of the above is reported, gets its own message. */
  lemma Add500DataTooLong(text: string)
    requires !Contains(text, "Duplicate entry") && !Contains(text, "foreign key constraint")
    requires Contains(text, "Data too long")
    ensures AddErrorMessage(Response(500, Some(text), None)) ==
      DataTooLongMessage
  {
    assert text != "";
    assert ServerMessage(Some(text), None) == Some(text);
  }

  /** Any other server text is shown after "Server Error: ". */
  lemma Add500Other(text: string)
    requires text != "" && !Contains(text, "Duplicate entry") && !Contains(text, "foreign key constraint")
    requires !Contains(text, "Data too long")
    ensures AddErrorMessage(Response(500, Some(text), None)) == "Server Error: " + text
  {
    assert ServerMessage(Some(text), None) == Some(text);
  }

  /** A status outside the listed ones is reported with its number and the server's text. */
  lemma AddOtherStatusMessage(status: int, text: string)
    requires status !in {400, 422, 500, 404, 503} && text != ""
    ensures AddErrorMessage(Response(status, Some(text), None)) == "Error (" + IntToString(status) + "): " + text
  {
  }

  // ---------------------------------------------------------------------------
  // The page

  /** The page's state: whether a request is in flight, the error banner, and where
      it navigated to (if anywhere). */
  class AddEmployeePage {
    var isSubmitting: bool
    var error: string
    var navigatedTo: Option<string>

    constructor()
      ensures !isSubmitting && error == "" && navigatedTo == None
    {
      isSubmitting := false;
      error := "";
      navigatedTo := None;
    }

    /** `handleSubmit` up to the `axios.post` call: ignored while a request is in
        flight; otherwise the body is built and checked, and either the first failing
        check's message is shown or the body is posted. */
    method Submit(data: EmployeeData, today: Date) returns (posted: Option<Payload>)
      modifies this`isSubmitting, this`error
      ensures old(isSubmitting) ==> posted == None && isSubmitting && error == old(error)
      ensures !old(isSubmitting) && ValidatePayload(ToPayload(data), today).Some? ==>
        posted == None && error == ValidatePayload(ToPayload(data), today).value && !isSubmitting
      ensures !old(isSubmitting) && ValidatePayload(ToPayload(data), today).None? ==>
        posted == Some(ToPayload(data)) && error == "" && isSubmitting
      ensures navigatedTo == old(navigatedTo)
    {
      if isSubmitting {
        return None;
      }
      isSubmitting := true;
      error := "";
      var body := ToPayload(data);
      var problem := ValidatePayload(body, today);
      if problem.Some? {
        error := problem.value;
        isSubmitting := false;
        return None;
      }
      posted := Some(body);
    }

    /** The rest of `handleSubmit` once the post settles: on success the page goes to
        the list, on failure the banner shows the mapped message; either way the page
        stops submitting. */
    method Complete(outcome: Option<RequestFailure>)
      modifies this
      ensures !isSubmitting
      ensures outcome.None? ==> navigatedTo == Some("/employees") && error == old(error)
      ensures outcome.Some? ==> navigatedTo == old(navigatedTo) && error == AddErrorMessage(outcome.value)
    {
      if outcome.None? {
        navigatedTo := Some("/employees");
      } else {
        error := AddErrorMessage(outcome.value);
      }
      isSubmitting := false;
    }

    /** `handleCancel`: refused while a request is in flight; otherwise the page goes
        back to the list when the user confirms. */
    method Cancel(confirmed: bool)
      modifies this
      ensures isSubmitting == old(isSubmitting)
      ensures old(isSubmitting) ==> error == WaitMessage && navigatedTo == old(navigatedTo)
      ensures !old(isSubmitting) ==>
        error == old(error) && navigatedTo == (if confirmed then Some("/employees") else old(navigatedTo))
    {
      if isSubmitting {
        error := WaitMessage;
        return;
      }
      if confirmed {
        navigatedTo := Some("/employees");
      }
    }
  }

  const WaitMessage := "Please wait for the current operation to complete."
}
