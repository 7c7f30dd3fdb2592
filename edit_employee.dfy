/** The edit-employee page: how the fetched record becomes the form's initial data,
    the load error, and the update's error messages.  The request body and its checks
    are the add page's, word for word. */
module EditEmployee {
  import opened Wrappers
  import opened Strings
  import opened Dates
  import opened AddEmployee
  import EmployeeForm

  /** `res.data` of `GET /api/employees/:id`; `None` stands for `null` or a missing
      field, and `skills == None` for a falsy value. */
  datatype FetchedEmployee = FetchedEmployee(
    id: int, firstName: Option<string>, lastName: Option<string>, email: Option<string>,
    phone: Option<string>, departmentId: Option<int>, position: Option<string>, salary: Scalar,
    hireDate: Option<string>, status: Option<string>, skills: Option<seq<SkillValue>>)

  /** `transformedData`, the form's initial data. */
  datatype EditRecord = EditRecord(
    id: int, firstName: string, lastName: string, email: string, phone: string,
    departmentId: Scalar, position: string, salary: Scalar, hireDate: string,
    status: string, skills: seq<SkillValue>)

  /** `s.split('T')[0]`: everything before the first `'T'`. */
  function DatePart(s: string): (r: string)
    ensures |r| <= |s| && r == s[..|r|]
    ensures 'T' !in r
    ensures |r| == |s| || s[|r|] == 'T'
  {
    if s == [] || s[0] == 'T' then [] else [s[0]] + DatePart(s[1..])
  }

  /** The date part of a timestamp is the text before its first `'T'`. */
  lemma {:induction false} DatePartOfTimestamp(date: string, time: string)
    requires 'T' !in date
    ensures DatePart(date + "T" + time) == date
  {
    if date != [] {
      assert (date + "T" + time)[1..] == date[1..] + "T" + time;
      DatePartOfTimestamp(date[1..], time);
    }
  }

  /** A database timestamp `YYYY-MM-DDThh:mm:ss.sssZ` gives back a date the page's
      date check accepts, and it reads as the stored date. */
  lemma HireDateOfTimestamp(d: Date, time: string)
    requires 0 <= d.year < 10000 && 1 <= d.month <= 12 && 1 <= d.day <= 31
    ensures IsDateShape(DatePart(FormatDate(d) + "T" + time))
    ensures DateOfShape(DatePart(FormatDate(d) + "T" + time)) == d
  {
    var s := FormatDate(d);
    FormatDateRoundTrip(d);
    forall i | 0 <= i < |s| ensures s[i] != 'T' {
      if i != 4 && i != 7 {
        assert i < 4 ==> s[i] == s[..4][i];
        assert 4 < i < 7 ==> s[i] == s[5..7][i - 5];
        assert 7 < i ==> s[i] == s[8..][i - 8];
      }
    }
    DatePartOfTimestamp(s, time);
  }

  /** `v || ''` for a text field. */
  function TextOrEmpty(v: Option<string>): string {
    if v.Some? then v.value else ""
  }

  /** The fetched record as the form's initial data: missing or empty fields become
      `''`, a department of 0 too, the hire date loses its time, the status defaults to
      "Active" and the skills to `[]`. */
  function Transform(e: FetchedEmployee): EditRecord {
    EditRecord(
      e.id, TextOrEmpty(e.firstName), TextOrEmpty(e.lastName), TextOrEmpty(e.email),
      TextOrEmpty(e.phone),
      if e.departmentId.Some? && e.departmentId.value != 0
      then Num(Finite(e.departmentId.value as real)) else Text(""),
      TextOrEmpty(e.position),
      if ScalarTruthy(e.salary) then e.salary else Text(""),
      if e.hireDate.Some? && e.hireDate.value != "" then DatePart(e.hireDate.value) else "",
      if e.status.Some? && e.status.value != "" then e.status.value else "Active",
      if e.skills.Some? then e.skills.value else [])
  }

  /** Every text field of the initial data is a string, the status is never empty,
      and a hire date never carries a time. */
  lemma TransformDefaults(e: FetchedEmployee)
    ensures var r := Transform(e);
      && r.id == e.id
      && (e.firstName.None? ==> r.firstName == "") && (e.firstName.Some? ==> r.firstName == e.firstName.value)
      && (e.phone.None? ==> r.phone == "")
      && r.status != "" && (e.status.None? ==> r.status == "Active")
      && 'T' !in r.hireDate
      && (e.hireDate.None? ==> r.hireDate == "")
      && (e.skills.None? ==> r.skills == [])
      && (e.departmentId == Some(0) || e.departmentId.None? ==> r.departmentId == Text(""))
      && (ScalarTruthy(e.salary) ==> r.salary == e.salary)
      && (!ScalarTruthy(e.salary) ==> r.salary == Text(""))
  {
  }

  /** A value of the initial data as the form's input holds it: a text as is, a whole
      number by its decimal digits, anything else `''`. */
  function ScalarInput(v: Scalar): string {
    match v
    case Text(t) => t
    case Num(Finite(x)) => if x == x.Floor as real then IntToString(x.Floor) else ""
    case _ => ""
  }

  /** The skill names among the record's entries. */
  function SkillNames(vs: seq<SkillValue>): (r: seq<string>)
    ensures |r| <= |vs|
  {
    if vs == [] then []
    else (if vs[0].SkillText? then [vs[0].text] else []) + SkillNames(vs[1..])
  }

  /** The form's initial-data effect on the page's record: each field copied with
      `|| ''` (`|| 'Active'` for the status), the hire date as the record holds it. */
  function FormOfRecord(r: EditRecord): EmployeeForm.FormData {
    EmployeeForm.FormData(
      r.firstName, r.lastName, r.email, r.phone, ScalarInput(r.departmentId), r.position,
      ScalarInput(r.salary), r.hireDate, if r.status != "" then r.status else "Active",
      SkillNames(r.skills))
  }

  /** Saving a loaded record without edits: the form's `handleSubmit` on its initial
      data, then the payload the page builds from what the form hands over (the
      page's own checks and the PUT are `EditEmployeePage.Submit`). */
  function UnchangedSave(e: FetchedEmployee): Result<Payload, string> {
    match EmployeeForm.SubmitForm(FormOfRecord(Transform(e)))
    case Err(message) => Err(message)
    case Ok(s) => Ok(ToPayload(FromSubmission(s)))
  }

  /** The fetched names and e-mail pass the form's first four checks. */
  predicate IdentityAccepted(e: FetchedEmployee) {
    && !IsBlank(TextOrEmpty(e.firstName)) && !IsBlank(TextOrEmpty(e.lastName))
    && !IsBlank(TextOrEmpty(e.email)) && EmployeeForm.ValidateEmail(TextOrEmpty(e.email))
  }

  /** A department that is neither missing nor 0 reaches the form as its digits, which
      the form's `parseInt` reads back. */
  lemma DepartmentInput(d: Option<int>)
    requires d.Some? && d.value != 0
    ensures ScalarInput(Num(Finite(d.value as real))) == IntToString(d.value) != ""
    ensures ParseInt(IntToString(d.value)) == d
  {
    assert (d.value as real).Floor == d.value;
    ParseIntRoundTrip(d.value);
  }

  /** A record saved without edits is sent only when it has a department other than 0
      and a hire date, and then it keeps its department, its status and its hire date,
      and a missing phone or position is sent as `null`. */
  lemma UnchangedRecordRoundTrip(e: FetchedEmployee)
    ensures UnchangedSave(e).Ok? ==>
      && IdentityAccepted(e)
      && e.departmentId.Some? && e.departmentId.value != 0
      && e.hireDate.Some? && DatePart(e.hireDate.value) != ""
    ensures UnchangedSave(e).Ok? ==> var p := UnchangedSave(e).value;
      && p.departmentId == e.departmentId
      && p.status == (if e.status.Some? && e.status.value != "" then e.status.value else "Active")
      && p.hireDate == Some(DatePart(e.hireDate.value))
      && (e.phone.None? ==> p.phone.None?)
      && (e.position.None? ==> p.position.None?)
  {
    var f := FormOfRecord(Transform(e));
    if UnchangedSave(e).Ok? {
      var s := EmployeeForm.SubmitForm(f).value;
      assert EmployeeForm.FormError(f).None?;
      assert f.departmentId != "";
      DepartmentInput(e.departmentId);
      DepartmentReparsed(s.departmentId);
    }
  }

  /** The form's first four checks on the record are those of the fetched names and
      e-mail. */
  lemma FormIdentity(e: FetchedEmployee)
    ensures var f := FormOfRecord(Transform(e));
      f.firstName == TextOrEmpty(e.firstName) && f.lastName == TextOrEmpty(e.lastName)
      && f.email == TextOrEmpty(e.email)
  {
  }

  /** A record without a department, or with department 0, is never sent: the form
      reports the missing department once the names and e-mail pass. */
  lemma UnchangedRecordWithoutDepartment(e: FetchedEmployee)
    requires e.departmentId.None? || e.departmentId == Some(0)
    ensures UnchangedSave(e).Err?
    ensures IdentityAccepted(e) ==> UnchangedSave(e) == Err("Department is required")
  {
    var f := FormOfRecord(Transform(e));
    assert f.departmentId == "";
    FormIdentity(e);
    assert EmployeeForm.FormError(f).Some?;
  }

  /** A record without a hire date is never sent: the form reports it once the names,
      the e-mail and the department pass. */
  lemma UnchangedRecordWithoutHireDate(e: FetchedEmployee)
    requires e.hireDate.None? || DatePart(e.hireDate.value) == ""
    ensures UnchangedSave(e).Err?
    ensures IdentityAccepted(e) && e.departmentId.Some? && e.departmentId.value != 0 ==>
      UnchangedSave(e) == Err("Hire date is required")
  {
    var r := Transform(e);
    assert r.hireDate == "";
    var f := FormOfRecord(r);
    FormIdentity(e);
    if IdentityAccepted(e) && e.departmentId.Some? && e.departmentId.value != 0 {
      DepartmentInput(e.departmentId);
      assert f.departmentId != "";
      assert EmployeeForm.FormError(f) == Some("Hire date is required");
    } else {
      assert EmployeeForm.FormError(f).Some?;
    }
  }

  /** The load failure's message. */
  function LoadErrorMessage(status: Option<int>): (m: string)
    ensures m == "Employee not found" <==> status == Some(404)
    ensures m != "Employee not found" ==> m == "Failed to load employee data"
  {
    if status == Some(404) then "Employee not found" else "Failed to load employee data"
  }

  const UpdateDuplicateEmailMessage := "Another employee with this email address already exists."
  const UpdateDuplicateMessage := "Another employee with this information already exists."
  const NotFoundMessage := "Employee not found"

  /** The edit page's `catch` block. */
  function UpdateErrorMessage(f: RequestFailure): string {
    match f
    case NotSent => "Failed to update employee. Please try again."
    case NoResponse(code) => NoResponseMessage(code)
    case Response(status, message, error) =>
      var m := ServerMessage(message, error);
      if status == 400 then "Validation Error: " + OrElse(m, "Please check your input data.")
      else if status == 404 then NotFoundMessage
      else if status == 422 then "Data Error: " + OrElse(m, "Please check your input data format.")
      else if status == 500 then Server500Message(m, UpdateDuplicateEmailMessage, UpdateDuplicateMessage)
      else if status == 503 then "Server is temporarily unavailable. Please try again later."
      else "Error (" + IntToString(status) + "): " + OrElse(m, "Unknown error occurred.")
  }

  /** The update's messages differ from the add page's only for a 404, for a 500
      reporting a duplicate entry, and when the request was never sent. */
  lemma UpdateMessagesMatchAdd(f: RequestFailure)
    requires !f.NotSent?
    requires f.Response? ==> f.status != 404
    requires f.Response? && f.status == 500 ==>
      var m := ServerMessage(f.message, f.error);
      m.None? || !Contains(m.value, "Duplicate entry")
    ensures UpdateErrorMessage(f) == AddErrorMessage(f)
  {
  }

  /** A 404 on update means the employee is gone, where the add page blames the
      endpoint. */
  lemma Update404(message: Option<string>, error: Option<string>)
    ensures UpdateErrorMessage(Response(404, message, error)) == NotFoundMessage
    ensures AddErrorMessage(Response(404, message, error)) != NotFoundMessage
  {
  }

  /** A duplicate entry on update is reported as another employee's. */
  lemma UpdateDuplicate(text: string)
    requires Contains(text, "Duplicate entry")
    ensures UpdateErrorMessage(Response(500, Some(text), None)) ==
      if Contains(text, "email") then UpdateDuplicateEmailMessage else UpdateDuplicateMessage
  {
    assert text != "";
    assert ServerMessage(Some(text), None) == Some(text);
  }

  /** The page's state: loading, the load error, the initial data once fetched, the
      submit flag, the submit error and where it navigated to. */
  class EditEmployeePage {
    var loading: bool
    var loadError: Option<string>
    var record: Option<EditRecord>
    var isSubmitting: bool
    var submitError: string
    var navigatedTo: Option<string>

    constructor()
      ensures loading && loadError == None && record == None
      ensures !isSubmitting && submitError == "" && navigatedTo == None
    {
      loading := true;
      loadError := None;
      record := None;
      isSubmitting := false;
      submitError := "";
      navigatedTo := None;
    }

    /** The end of `fetchEmployee`: the record is transformed and stored, or the
        failure's status picks the message. */
    method Loaded(reply: Result<FetchedEmployee, Option<int>>)
      modifies this
      ensures !loading
      ensures reply.Ok? ==> record == Some(Transform(reply.value)) && loadError == None
      ensures reply.Err? ==> record == old(record) && loadError == Some(LoadErrorMessage(reply.error))
      ensures isSubmitting == old(isSubmitting) && submitError == old(submitError)
      ensures navigatedTo == old(navigatedTo)
    {
      if reply.Ok? {
        record := Some(Transform(reply.value));
        loadError := None;
      } else {
        loadError := Some(LoadErrorMessage(reply.error));
      }
      loading := false;
    }

    /** `handleSubmit` up to the `axios.put` call, as on the add page. */
    method Submit(data: EmployeeData, today: Date) returns (sent: Option<Payload>)
      modifies this
      ensures old(isSubmitting) ==> sent == None && isSubmitting && submitError == old(submitError)
      ensures !old(isSubmitting) ==>
        match ValidatePayload(ToPayload(data), today)
        case Some(m) => sent == None && submitError == m && !isSubmitting
        case None => sent == Some(ToPayload(data)) && submitError == "" && isSubmitting
      ensures navigatedTo == old(navigatedTo) && record == old(record)
      ensures loading == old(loading) && loadError == old(loadError)
    {
      if isSubmitting {
        return None;
      }
      isSubmitting := true;
      submitError := "";
      var body := ToPayload(data);
      var problem := ValidatePayload(body, today);
      if problem.Some? {
        submitError := problem.value;
        isSubmitting := false;
        return None;
      }
      sent := Some(body);
    }

    /** The rest of `handleSubmit` once the update settles. */
    method Complete(outcome: Option<RequestFailure>)
      modifies this
      ensures !isSubmitting
      ensures outcome.None? ==> navigatedTo == Some("/employees") && submitError == old(submitError)
      ensures outcome.Some? ==> navigatedTo == old(navigatedTo) && submitError == UpdateErrorMessage(outcome.value)
      ensures record == old(record) && loading == old(loading) && loadError == old(loadError)
    {
      if outcome.None? {
        navigatedTo := Some("/employees");
      } else {
        submitError := UpdateErrorMessage(outcome.value);
      }
      isSubmitting := false;
    }

    /** `handleCancel`, as on the add page. */
    method Cancel(confirmed: bool)
      modifies this
      ensures isSubmitting == old(isSubmitting) && record == old(record)
      ensures old(isSubmitting) ==> submitError == WaitMessage && navigatedTo == old(navigatedTo)
      ensures !old(isSubmitting) ==>
        submitError == old(submitError) && navigatedTo == (if confirmed then Some("/employees") else old(navigatedTo))
    {
      if isSubmitting {
        submitError := WaitMessage;
        return;
      }
      if confirmed {
        navigatedTo := Some("/employees");
      }
    }
  }
}
