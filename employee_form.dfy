/** The shared employee form: its selected-skill list edits, the skill picker's filter
    and new-skill suggestion, the e-mail pattern and the submit checks. */
module EmployeeForm {
  import opened Wrappers
  import opened Strings
  import opened Validation

  // ---------------------------------------------------------------------------
  // Skill list edits

  /** `r` is `s` with some entries left out, the rest in their original order. */
  predicate IsSubsequence<T(==)>(r: seq<T>, s: seq<T>)
    decreases |s|
  {
    if r == [] then true
    else if s == [] then false
    else (r[0] == s[0] && IsSubsequence(r[1..], s[1..])) || IsSubsequence(r, s[1..])
  }

  /** `skills.filter(name => name !== skillName)`: every occurrence of `skillName`
      goes, every other entry stays, in order and with its multiplicity. */
  function RemoveSkill(skills: seq<string>, skillName: string): (r: seq<string>)
    ensures skillName !in r
    ensures forall x :: x != skillName ==> multiset(r)[x] == multiset(skills)[x]
    ensures IsSubsequence(r, skills)
  {
    if skills == [] then []
    else
      var rest := RemoveSkill(skills[1..], skillName);
      assert skills == [skills[0]] + skills[1..];
      if skills[0] == skillName then
        rest
      else
        assert ([skills[0]] + rest)[1..] == rest;
        [skills[0]] + rest
  }

  /** `handleSkillToggle`: a selected skill is removed, an unselected one appended. */
  function SkillToggle(skills: seq<string>, skillName: string): (r: seq<string>)
    ensures skillName in skills ==> r == RemoveSkill(skills, skillName)
    ensures skillName !in skills ==> r == skills + [skillName]
  {
    if skillName in skills then RemoveSkill(skills, skillName) else skills + [skillName]
  }

  /** The list `handleSkillAdd` leaves: unchanged when the skill is already selected,
      otherwise with the skill appended. */
  function SkillAdd(skills: seq<string>, skillName: string): (r: seq<string>)
    ensures skillName in r
    ensures forall x :: x in r <==> x in skills || x == skillName
    ensures |r| == |skills| + (if skillName in skills then 0 else 1)
  {
    if skillName in skills then skills else skills + [skillName]
  }

  predicate NoDuplicates<T(==)>(s: seq<T>) {
    forall i, j :: 0 <= i < j < |s| ==> s[i] != s[j]
  }

  /** Adding a skill to a list without duplicates leaves a list without duplicates. */
  lemma SkillAddKeepsDistinct(skills: seq<string>, skillName: string)
    requires NoDuplicates(skills)
    ensures NoDuplicates(SkillAdd(skills, skillName))
  {
  }

  lemma {:induction false} RemoveSkillAppend(s: seq<string>, t: seq<string>, skillName: string)
    ensures RemoveSkill(s + t, skillName) == RemoveSkill(s, skillName) + RemoveSkill(t, skillName)
    decreases |s|
  {
    if s != [] {
      assert (s + t)[1..] == s[1..] + t;
      RemoveSkillAppend(s[1..], t, skillName);
    } else {
      assert s + t == t;
    }
  }

  lemma {:induction false} RemoveAbsentSkill(s: seq<string>, skillName: string)
    requires skillName !in s
    ensures RemoveSkill(s, skillName) == s
    decreases |s|
  {
    if s != [] {
      assert s == [s[0]] + s[1..];
      RemoveAbsentSkill(s[1..], skillName);
    }
  }

  /** Toggling an unselected skill twice restores the list; toggling a selected skill
      of a list without duplicates twice moves it to the end. */
  lemma SkillToggleTwice(skills: seq<string>, skillName: string)
    ensures skillName !in skills ==> SkillToggle(SkillToggle(skills, skillName), skillName) == skills
    ensures skillName in skills ==>
      SkillToggle(SkillToggle(skills, skillName), skillName) == RemoveSkill(skills, skillName) + [skillName]
  {
    if skillName !in skills {
      RemoveSkillAppend(skills, [skillName], skillName);
      RemoveAbsentSkill(skills, skillName);
      assert RemoveSkill([skillName], skillName) == [];
    }
  }

  // ---------------------------------------------------------------------------
  // The skill picker

  /** The skill names of the form's built-in catalogue. */
  const FallbackSkills: seq<string> := [
    "JavaScript", "Python", "Java", "C++", "React", "Vue.js", "Docker", "Kubernetes",
    "AWS", "Azure", "Node.js", "SQL", "MongoDB", "Git", "Agile"
  ]

  /** `getFilteredSkills`: the catalogue entries, in catalogue order, whose lower-cased
      name contains the lower-cased search term and that are not selected yet. */
  function FilteredSkills(catalogue: seq<string>, searchTerm: string, selected: seq<string>): (r: seq<string>)
    ensures forall x :: x in r <==> x in catalogue && Contains(ToLower(x), ToLower(searchTerm)) && x !in selected
    ensures IsSubsequence(r, catalogue)
  {
    if catalogue == [] then []
    else
      var rest := FilteredSkills(catalogue[1..], searchTerm, selected);
      var name := catalogue[0];
      assert catalogue == [name] + catalogue[1..];
      if Contains(ToLower(name), ToLower(searchTerm)) && name !in selected then
        assert ([name] + rest)[1..] == rest;
        [name] + rest
      else
        rest
  }

  /** With an empty search term the picker lists every unselected catalogue entry. */
  lemma FilteredSkillsOfEmptyTerm(catalogue: seq<string>, selected: seq<string>)
    ensures forall x :: x in FilteredSkills(catalogue, "", selected) <==> x in catalogue && x !in selected
  {
    forall x ensures Contains(ToLower(x), ToLower("")) {
      assert StartsWith(ToLower(x), "");
    }
  }

  /** Some catalogue name equals the term once both are lower-cased. */
  predicate InCatalogueIgnoringCase(catalogue: seq<string>, term: string) {
    exists i :: 0 <= i < |catalogue| && ToLower(catalogue[i]) == ToLower(term)
  }

  /** `getNewSkillSuggestion`: the trimmed term, when it is not blank, no catalogue name
      equals the (untrimmed) term ignoring case, and it is not selected yet. */
  function NewSkillSuggestion(catalogue: seq<string>, searchTerm: string, selected: seq<string>): (r: Option<string>)
    ensures r.Some? ==> r.value == Trim(searchTerm) && r.value != "" && r.value !in selected
    ensures r.None? <==>
      AllWhitespace(searchTerm) || InCatalogueIgnoringCase(catalogue, searchTerm) || Trim(searchTerm) in selected
  {
    if |Trim(searchTerm)| > 0 && !InCatalogueIgnoringCase(catalogue, searchTerm) && Trim(searchTerm) !in selected then
      Some(Trim(searchTerm))
    else
      None
  }

  /** For a term without surrounding white space, a suggestion is never a catalogue
      name in another case, and adding it grows the selection by one new name. */
  lemma SuggestionIsNew(catalogue: seq<string>, searchTerm: string, selected: seq<string>)
    requires searchTerm == [] || (!IsWhitespace(searchTerm[0]) && !IsWhitespace(searchTerm[|searchTerm| - 1]))
    requires NewSkillSuggestion(catalogue, searchTerm, selected).Some?
    ensures var name := NewSkillSuggestion(catalogue, searchTerm, selected).value;
      && (forall i :: 0 <= i < |catalogue| ==> ToLower(catalogue[i]) != ToLower(name))
      && |SkillAdd(selected, name)| == |selected| + 1
  {
    TrimOfTrimmed(searchTerm);
  }

  /** The catalogue comparison uses the untrimmed term: " sql" is offered as a new
      skill "sql" although the catalogue holds "SQL". */
  lemma SuggestionComparesUntrimmedTerm()
    ensures ToLower("SQL") == ToLower("sql")
    ensures NewSkillSuggestion(["SQL"], " sql", []) == Some("sql")
  {
    assert ToLower("SQL") == "sql" by {
      assert LowerChar('S') == 's' && LowerChar('Q') == 'q' && LowerChar('L') == 'l';
    }
    assert ToLower("sql") == "sql";
    assert !InCatalogueIgnoringCase(["SQL"], " sql") by {
      assert |ToLower(" sql")| == 4 && |ToLower("SQL")| == 3;
    }
    assert Trim(" sql") == "sql" by {
      var t := " sql";
      assert IsWhitespace(t[0]) && t[1..] == "sql";
      TrimStartNoLeadingSpace("sql");
      TrimOfTrimmed("sql");
    }
  }

  // ---------------------------------------------------------------------------
  // E-mail pattern

  /** A character `[^\s@]` matches. */
  predicate PlainChar(c: char) {
    !IsWhitespace(c) && c != '@'
  }

  predicate AllPlain(s: string) {
    forall i :: 0 <= i < |s| ==> PlainChar(s[i])
  }

  /** The pattern `^[^\s@]+@[^\s@]+\.[^\s@]+$` as the split it describes: a non-empty
      local part, `@`, a non-empty name, `.`, a non-empty suffix, none of them holding
      white space or `@`. */
  ghost predicate MatchesEmailPattern(s: string) {
    exists at: nat, dot: nat ::
      0 < at && at + 1 < dot && dot + 1 < |s| && s[at] == '@' && s[dot] == '.'
      && AllPlain(s[..at]) && AllPlain(s[at + 1..dot]) && AllPlain(s[dot + 1..])
  }

  /** The position of the first `c` in `s`. */
  function FirstIndexOf(s: string, c: char): (r: Option<nat>)
    ensures r.Some? ==> r.value < |s| && s[r.value] == c && c !in s[..r.value]
    ensures r.None? ==> c !in s
  {
    if s == [] then None
    else if s[0] == c then Some(0)
    else
      match FirstIndexOf(s[1..], c)
      case None => None
      case Some(k) =>
        assert s[..k + 1] == [s[0]] + s[1..][..k];
        Some(k + 1)
  }

  /** The domain has a `.` with at least one character on each side. */
  predicate HasInnerDot(domain: string) {
    exists j :: 1 <= j < |domain| - 1 && domain[j] == '.'
  }

  /** `validateEmail`: split at the first `@`; the part before must be non-empty and
      plain, the part after plain with an inner `.`. */
  function ValidateEmail(email: string): bool {
    match FirstIndexOf(email, '@')
    case None => false
    case Some(at) =>
      var local := email[..at];
      var domain := email[at + 1..];
      local != [] && AllPlain(local) && AllPlain(domain) && HasInnerDot(domain)
  }

  lemma AllPlainSlice(s: string, i: nat, j: nat)
    requires AllPlain(s) && i <= j <= |s|
    ensures AllPlain(s[i..j])
  {
    assert forall k :: 0 <= k < j - i ==> s[i..j][k] == s[i + k];
  }

  /** Every string `validateEmail` accepts matches the pattern. */
  lemma ValidateEmailSound(email: string)
    requires ValidateEmail(email)
    ensures MatchesEmailPattern(email)
  {
    var at := FirstIndexOf(email, '@').value;
    var domain := email[at + 1..];
    var j :| 1 <= j < |domain| - 1 && domain[j] == '.';
    var dot := at + 1 + j;
    AllPlainSlice(domain, 0, j);
    AllPlainSlice(domain, j + 1, |domain|);
    assert email[at + 1..dot] == domain[..j];
    assert email[dot + 1..] == domain[j + 1..];
    assert email[dot] == domain[j];
    assert 0 < at && at + 1 < dot && dot + 1 < |email| && email[at] == '@' && email[dot] == '.'
      && AllPlain(email[..at]) && AllPlain(email[at + 1..dot]) && AllPlain(email[dot + 1..]);
  }

  /** Every split of the pattern's shape is one `validateEmail` accepts. */
  lemma ValidateEmailComplete(email: string, at: nat, dot: nat)
    requires 0 < at && at + 1 < dot && dot + 1 < |email| && email[at] == '@' && email[dot] == '.'
    requires AllPlain(email[..at]) && AllPlain(email[at + 1..dot]) && AllPlain(email[dot + 1..])
    ensures ValidateEmail(email)
  {
    var first := FirstIndexOf(email, '@');
    assert first.Some?;
    forall k | 0 <= k < at ensures email[k] != '@' {
      assert email[..at][k] == email[k];
    }
    forall k | 0 <= k < first.value ensures email[k] != '@' {
      assert email[..first.value][k] == email[k];
    }
    assert first.value == at;
    var domain := email[at + 1..];
    assert domain == email[at + 1..dot] + [email[dot]] + email[dot + 1..];
    assert domain[dot - at - 1] == '.';
  }

  /** `validateEmail` accepts exactly the strings of the pattern. */
  lemma ValidateEmailMatchesPattern(email: string)
    ensures ValidateEmail(email) <==> MatchesEmailPattern(email)
  {
    if ValidateEmail(email) {
      ValidateEmailSound(email);
    }
    if MatchesEmailPattern(email) {
      var at: nat, dot: nat :| 0 < at && at + 1 < dot && dot + 1 < |email| && email[at] == '@' && email[dot] == '.'
        && AllPlain(email[..at]) && AllPlain(email[at + 1..dot]) && AllPlain(email[dot + 1..]);
      ValidateEmailComplete(email, at, dot);
    }
  }

  /** An accepted e-mail has no white space at either end, so trimming keeps it. */
  lemma ValidEmailIsTrimmed(email: string)
    requires ValidateEmail(email)
    ensures Trim(email) == email
  {
    var at := FirstIndexOf(email, '@').value;
    assert email[0] == email[..at][0];
    var domain := email[at + 1..];
    assert email[|email| - 1] == domain[|domain| - 1];
    TrimOfTrimmed(email);
  }

  // ---------------------------------------------------------------------------
  // Submit

  /** The form state: the inputs' strings and the selected skills. */
  datatype FormData = FormData(
    firstName: string, lastName: string, email: string, phone: string, departmentId: string,
    position: string, salary: string, hireDate: string, status: string, skills: seq<string>)

  /** The form's initial state. */
  const EmptyForm := FormData("", "", "", "", "", "", "", "", "Active", [])

  /** What `handleSubmit` hands to `onSubmit`. */
  datatype Submission = Submission(
    firstName: string, lastName: string, email: string, phone: Option<string>,
    departmentId: Option<int>, position: Option<string>, salary: Option<Number>,
    hireDate: string, status: string, skills: seq<string>)

  /** The checks of `handleSubmit`, in the order they run. */
  function FormChecks(f: FormData): seq<Check> {
    [ Check(IsBlank(f.firstName), "First name is required"),
      Check(IsBlank(f.lastName), "Last name is required"),
      Check(IsBlank(f.email), "Email is required"),
      Check(!ValidateEmail(f.email), "Please enter a valid email address"),
      Check(f.departmentId == "", "Department is required"),
      Check(f.hireDate == "", "Hire date is required") ]
  }

  /** Blank input becomes `null`; anything else is trimmed. */
  function TrimmedOrNull(s: string): (r: Option<string>)
    ensures r.None? <==> AllWhitespace(s)
    ensures r.Some? ==> r.value == Trim(s)
  {
    if IsBlank(s) then None else Some(Trim(s))
  }

  /** The submission object built once the checks pass. */
  function Prepare(f: FormData): Submission {
    Submission(
      Trim(f.firstName), Trim(f.lastName), Trim(f.email), TrimmedOrNull(f.phone),
      ParseInt(f.departmentId), TrimmedOrNull(f.position),
      if f.salary != "" then Some(ParseFloat(f.salary)) else None,
      f.hireDate, f.status, f.skills)
  }

  /** The early-return chain of `handleSubmit`: the message it shows, if any. */
  function FormError(f: FormData): Option<string> {
    if IsBlank(f.firstName) then Some("First name is required")
    else if IsBlank(f.lastName) then Some("Last name is required")
    else if IsBlank(f.email) then Some("Email is required")
    else if !ValidateEmail(f.email) then Some("Please enter a valid email address")
    else if f.departmentId == "" then Some("Department is required")
    else if f.hireDate == "" then Some("Hire date is required")
    else None
  }

  /** `handleSubmit`: the message of the first failing check, or the submission. */
  function SubmitForm(f: FormData): Result<Submission, string> {
    match FormError(f)
    case Some(message) => Err(message)
    case None => Ok(Prepare(f))
  }

  /** The form is acceptable: both names and the e-mail are not blank, the e-mail
      matches the pattern, and a department and a hire date are chosen. */
  ghost predicate Acceptable(f: FormData) {
    && !IsBlank(f.firstName) && !IsBlank(f.lastName)
    && MatchesEmailPattern(f.email) && f.departmentId != "" && f.hireDate != ""
  }

  /** Only the first failing check is reported, and nothing is submitted then. */
  lemma FormErrorIsFirstFailure(f: FormData)
    ensures FormError(f) == FirstFailure(FormChecks(f))
  {
    var c := FormChecks(f);
    if IsBlank(f.firstName) {
      FirstFailureAt(c, 0);
    } else if IsBlank(f.lastName) {
      FirstFailureAt(c, 1);
    } else if IsBlank(f.email) {
      FirstFailureAt(c, 2);
    } else if !ValidateEmail(f.email) {
      FirstFailureAt(c, 3);
    } else if f.departmentId == "" {
      FirstFailureAt(c, 4);
    } else if f.hireDate == "" {
      FirstFailureAt(c, 5);
    } else {
      FirstFailureNone(c);
    }
  }

  /** The form is submitted exactly when it is acceptable. */
  lemma FormErrorNoneIffAcceptable(f: FormData)
    ensures FormError(f).None? <==> Acceptable(f)
  {
    ValidateEmailMatchesPattern(f.email);
    if ValidateEmail(f.email) {
      var at := FirstIndexOf(f.email, '@').value;
      assert !IsWhitespace(f.email[at]);
    }
  }

  /** What an accepted form submits: non-blank trimmed names, the e-mail as typed
      (a matching e-mail has no white space, so trimming keeps it), a `null` phone and
      position exactly when blank, and a `null` salary exactly when empty. */
  lemma SubmissionIsNormalised(f: FormData)
    requires SubmitForm(f).Ok?
    ensures var s := SubmitForm(f).value;
      && s.firstName != "" && !IsWhitespace(s.firstName[0]) && !IsWhitespace(s.firstName[|s.firstName| - 1])
      && s.lastName != "" && !IsWhitespace(s.lastName[0]) && !IsWhitespace(s.lastName[|s.lastName| - 1])
      && s.email == f.email && ValidateEmail(s.email)
      && (s.phone.None? <==> AllWhitespace(f.phone))
      && (s.position.None? <==> AllWhitespace(f.position))
      && (s.salary.None? <==> f.salary == "")
      && s.skills == f.skills && s.hireDate == f.hireDate
  {
    ValidEmailIsTrimmed(f.email);
  }

  // ---------------------------------------------------------------------------
  // The component

  datatype Field = FirstName | LastName | Email | Phone | DepartmentId | Position | Salary | HireDate | Status

  /** `{ ...prev, [name]: value }`. */
  function SetField(f: FormData, field: Field, value: string): FormData {
    match field
    case FirstName => f.(firstName := value)
    case LastName => f.(lastName := value)
    case Email => f.(email := value)
    case Phone => f.(phone := value)
    case DepartmentId => f.(departmentId := value)
    case Position => f.(position := value)
    case Salary => f.(salary := value)
    case HireDate => f.(hireDate := value)
    case Status => f.(status := value)
  }

  /** The form component's state: the form data, the picker's search term and the
      error banner, over the built-in skill catalogue. */
  class EmployeeFormComponent {
    var formData: FormData
    var skillSearchTerm: string
    var error: string
    const catalogue: seq<string>

    constructor()
      ensures formData == EmptyForm && skillSearchTerm == "" && error == ""
      ensures catalogue == FallbackSkills
    {
      formData := EmptyForm;
      skillSearchTerm := "";
      error := "";
      catalogue := FallbackSkills;
    }

    /** `handleChange`: one input changes and the error banner is cleared. */
    method HandleChange(field: Field, value: string)
      modifies this
      ensures formData == SetField(old(formData), field, value)
      ensures error == "" && skillSearchTerm == old(skillSearchTerm)
    {
      formData := SetField(formData, field, value);
      if error != "" {
        error := "";
      }
    }

    /** The picker's search box. */
    method SetSkillSearchTerm(term: string)
      modifies this
      ensures skillSearchTerm == term && formData == old(formData) && error == old(error)
    {
      skillSearchTerm := term;
    }

    method HandleSkillToggle(skillName: string)
      modifies this
      ensures formData == old(formData).(skills := SkillToggle(old(formData.skills), skillName))
      ensures skillSearchTerm == old(skillSearchTerm) && error == old(error)
    {
      formData := formData.(skills := SkillToggle(formData.skills, skillName));
    }

    /** `handleSkillAdd`: appends the skill unless it is selected; always clears the
        search term. */
    method HandleSkillAdd(skillName: string)
      modifies this
      ensures formData == old(formData).(skills := SkillAdd(old(formData.skills), skillName))
      ensures NoDuplicates(old(formData.skills)) ==> NoDuplicates(formData.skills)
      ensures skillSearchTerm == "" && error == old(error)
    {
      if skillName !in formData.skills {
        formData := formData.(skills := formData.skills + [skillName]);
      }
      skillSearchTerm := "";
    }

    method HandleSkillRemove(skillName: string)
      modifies this
      ensures formData == old(formData).(skills := RemoveSkill(old(formData.skills), skillName))
      ensures skillSearchTerm == old(skillSearchTerm) && error == old(error)
    {
      formData := formData.(skills := RemoveSkill(formData.skills, skillName));
    }

    function GetFilteredSkills(): seq<string>
      reads this
    {
      FilteredSkills(catalogue, skillSearchTerm, formData.skills)
    }

    function GetNewSkillSuggestion(): Option<string>
      reads this
    {
      NewSkillSuggestion(catalogue, skillSearchTerm, formData.skills)
    }

    /** `handleSubmit`: on the first failing check the banner shows its message and
        nothing is submitted; otherwise the prepared data goes to `onSubmit`. */
    method HandleSubmit() returns (submitted: Option<Submission>)
      modifies this
      ensures formData == old(formData) && skillSearchTerm == old(skillSearchTerm)
      ensures SubmitForm(formData).Err? ==> submitted == None && error == SubmitForm(formData).error
      ensures SubmitForm(formData).Ok? ==> submitted == Some(SubmitForm(formData).value) && error == old(error)
    {
      match SubmitForm(formData)
      case Err(message) =>
        error := message;
        submitted := None;
      case Ok(data) =>
        submitted := Some(data);
    }
  }
}
