/** The employee handlers of the controller over in-memory tables: the employees,
    skills, employee-skill links and departments tables are fields of a `Database`,
    and create, update and delete run their statements as a transaction that a
    failure rolls back to the tables as they were.  The store's own constraints
    (unique e-mail, the department foreign key) are not part of the model: whether
    the store refuses the employee row is a parameter. */
module EmployeeRepository {
  import opened Wrappers
  import opened Strings

  // ---------------------------------------------------------------------------
  // Rows and request bodies

  datatype Department = Department(id: int, name: string)
  datatype Skill = Skill(id: int, name: string)
  datatype Link = Link(employeeId: int, skillId: int)

  /** An employees row; `status == None` is the column's default, which the schema
      decides. */
  datatype Employee = Employee(
    id: int, firstName: string, lastName: string, departmentId: int,
    position: Option<string>, salary: Option<real>, hireDate: Option<string>,
    email: string, phone: Option<string>, status: Option<string>)

  /** An entry of the request's `skills` array: `null`, a string, or another JSON
      value. */
  datatype SkillEntry = NoSkill | SkillText(text: string) | SkillNumber(n: real) | SkillFlag(flag: bool)

  predicate EntryTruthy(e: SkillEntry) {
    match e
    case NoSkill => false
    case SkillText(t) => t != ""
    case SkillNumber(n) => n != 0.0
    case SkillFlag(b) => b
  }

  /** `req.body`, with the types the page sends; `None` stands for `null` or a
      missing field, and `skills == None` for a value that is not an array. */
  datatype Body = Body(
    firstName: Option<string>, lastName: Option<string>, departmentId: Option<int>,
    position: Option<string>, salary: Option<Number>, hireDate: Option<string>,
    email: Option<string>, phone: Option<string>, status: Option<string>,
    skills: Option<seq<SkillEntry>>)

  predicate TextTruthy(v: Option<string>) {
    v.Some? && v.value != ""
  }

  /** `first_name && last_name && department_id && email`. */
  predicate HasRequired(b: Body) {
    TextTruthy(b.firstName) && TextTruthy(b.lastName) && b.departmentId.Some? && b.departmentId.value != 0
    && TextTruthy(b.email)
  }

  const RequiredMessage := "First name, last name, email, and department are required"
  const NotFoundMessage := "Employee not found"

  /** `v || null`. */
  function OrNull(v: Option<string>): (r: Option<string>)
    ensures r.None? <==> !TextTruthy(v)
    ensures r.Some? ==> r == v
  {
    if TextTruthy(v) then v else None
  }

  /** `salary ? parseFloat(salary) : null` on the number the page sends: 0 and NaN
      are stored as NULL. */
  function StoredSalary(s: Option<Number>): (r: Option<real>)
    ensures r.Some? <==> s.Some? && s.value.Finite? && s.value.value != 0.0
    ensures r.Some? ==> r.value == s.value.value
  {
    if s.Some? && s.value.Finite? && s.value.value != 0.0 then Some(s.value.value) else None
  }

  /** The row the INSERT writes: phone and status are never among its columns. */
  function NewRow(id: int, b: Body): Employee
    requires HasRequired(b)
  {
    Employee(id, b.firstName.value, b.lastName.value, b.departmentId.value, OrNull(b.position),
      StoredSalary(b.salary), OrNull(b.hireDate), b.email.value, None, None)
  }

  /** The row after the UPDATE's SET list. */
  function Overwrite(e: Employee, b: Body): Employee
    requires HasRequired(b)
  {
    e.(firstName := b.firstName.value, lastName := b.lastName.value, departmentId := b.departmentId.value,
       position := OrNull(b.position), salary := StoredSalary(b.salary), hireDate := OrNull(b.hireDate),
       email := b.email.value)
  }

  /** The created row takes its seven columns from the body and ignores the phone and
      status the body carries. */
  lemma NewRowColumns(id: int, b: Body)
    requires HasRequired(b)
    ensures NewRow(id, b).id == id && NewRow(id, b).email == b.email.value
    ensures NewRow(id, b).phone == None && NewRow(id, b).status == None
    ensures NewRow(id, b).position == (if TextTruthy(b.position) then b.position else None)
    ensures NewRow(id, b).hireDate == (if TextTruthy(b.hireDate) then b.hireDate else None)
  {
  }

  /** The update overwrites exactly the seven columns of its SET list: the row keeps
      its id, phone and status, and reads as a new row with those three kept. */
  lemma OverwriteKeeps(e: Employee, b: Body)
    requires HasRequired(b)
    ensures Overwrite(e, b).id == e.id && Overwrite(e, b).phone == e.phone && Overwrite(e, b).status == e.status
    ensures Overwrite(e, b) == NewRow(e.id, b).(phone := e.phone, status := e.status)
  {
  }

  // ---------------------------------------------------------------------------
  // Skills: find or insert

  /** `SELECT id FROM skills WHERE name = ?`, the first match. */
  function FindSkill(skills: seq<Skill>, name: string): (r: Option<int>)
    ensures r.Some? ==> Skill(r.value, name) in skills
    ensures r.None? <==> forall i :: 0 <= i < |skills| ==> skills[i].name != name
  {
    if skills == [] then None
    else if skills[0].name == name then Some(skills[0].id)
    else
      var rest := FindSkill(skills[1..], name);
      assert forall i :: 1 <= i < |skills| ==> skills[i] == skills[1..][i - 1];
      rest
  }

  /** The skills table with its id counter, and the id `getOrCreateSkillId` returned. */
  datatype Resolved = Resolved(skills: seq<Skill>, nextSkillId: int, id: int)

  /** `getOrCreateSkillId`: the id of the skill named by the trimmed name, inserting
      it under the next id when there is none. */
  function Resolve(skills: seq<Skill>, next: int, name: string): Resolved {
    Lookup(skills, next, Trim(name))
  }

  /** The find-or-insert step of `getOrCreateSkillId` on an already trimmed name. */
  function Lookup(skills: seq<Skill>, next: int, t: string): Resolved {
    match FindSkill(skills, t)
    case Some(id) => Resolved(skills, next, id)
    case None => Resolved(skills + [Skill(next, t)], next + 1, next)
  }

  /** Each skill's id is above the ids before it and below the counter, and its name
      is not among the names before it: ids increase, names are distinct, and the
      counter is fresh. */
  predicate SkillsValid(skills: seq<Skill>, next: int)
    decreases |skills|
  {
    skills == [] ||
      (SkillsValid(skills[..|skills| - 1], skills[|skills| - 1].id)
        && skills[|skills| - 1].id < next
        && FindSkill(skills[..|skills| - 1], skills[|skills| - 1].name).None?)
  }

  /** A valid table stays valid under a larger counter. */
  lemma SkillsValidRaise(skills: seq<Skill>, next: int, next': int)
    requires SkillsValid(skills, next) && next <= next'
    ensures SkillsValid(skills, next')
  {
  }

  /** In a valid table, ids are below the counter and no two rows share an id or a
      name. */
  lemma {:induction false} SkillsValidDistinct(skills: seq<Skill>, next: int)
    requires SkillsValid(skills, next)
    ensures forall i :: 0 <= i < |skills| ==> skills[i].id < next
    ensures forall i, j :: 0 <= i < j < |skills| ==> skills[i].id < skills[j].id && skills[i].name != skills[j].name
    decreases |skills|
  {
    if skills != [] {
      var init := skills[..|skills| - 1];
      var last := skills[|skills| - 1];
      SkillsValidDistinct(init, last.id);
      forall i, j | 0 <= i < j < |skills| ensures skills[i].id < skills[j].id && skills[i].name != skills[j].name {
        assert skills[i] == init[i];
        if j < |skills| - 1 {
          assert skills[j] == init[j];
        }
      }
    }
  }

  /** The returned id names the trimmed name; an existing skill is reused and nothing
      is added, otherwise exactly one row is appended. */
  lemma ResolveSpec(skills: seq<Skill>, next: int, name: string)
    requires SkillsValid(skills, next)
    ensures Skill(Resolve(skills, next, name).id, Trim(name)) in Resolve(skills, next, name).skills
    ensures SkillsValid(Resolve(skills, next, name).skills, Resolve(skills, next, name).nextSkillId)
    ensures FindSkill(skills, Trim(name)).Some? ==>
      Resolve(skills, next, name) == Resolved(skills, next, FindSkill(skills, Trim(name)).value)
    ensures FindSkill(skills, Trim(name)).None? ==>
      Resolve(skills, next, name) == Resolved(skills + [Skill(next, Trim(name))], next + 1, next)
  {
    var t := Trim(name);
    if FindSkill(skills, t).None? {
      SkillsValidAppend(skills, next, t);
    }
  }

  /** The lookup only ever appends: the old table is a prefix of the new one, the
      counter never goes back, and the returned id names the looked-up name. */
  lemma LookupExtends(skills: seq<Skill>, next: int, t: string)
    ensures |skills| <= |Lookup(skills, next, t).skills|
    ensures Lookup(skills, next, t).skills[..|skills|] == skills
    ensures forall x :: x in skills ==> x in Lookup(skills, next, t).skills
    ensures Lookup(skills, next, t).nextSkillId >= next
    ensures Skill(Lookup(skills, next, t).id, t) in Lookup(skills, next, t).skills
  {
    var found := FindSkill(skills, t);
    if found.None? {
      var grown := skills + [Skill(next, t)];
      assert Lookup(skills, next, t) == Resolved(grown, next + 1, next);
      assert grown[..|skills|] == skills;
      assert grown[|skills|] == Skill(next, t);
    } else {
      assert Lookup(skills, next, t) == Resolved(skills, next, found.value);
      assert skills[..|skills|] == skills;
    }
  }

  /** The lookup keeps the table valid. */
  lemma LookupValid(skills: seq<Skill>, next: int, t: string)
    requires SkillsValid(skills, next)
    ensures SkillsValid(Lookup(skills, next, t).skills, Lookup(skills, next, t).nextSkillId)
  {
    if FindSkill(skills, t).None? {
      SkillsValidAppend(skills, next, t);
    }
  }

  /** A new name under the counter's id keeps the table valid. */
  lemma SkillsValidAppend(skills: seq<Skill>, next: int, name: string)
    requires SkillsValid(skills, next)
    requires FindSkill(skills, name).None?
    ensures SkillsValid(skills + [Skill(next, name)], next + 1)
  {
    assert (skills + [Skill(next, name)])[..|skills|] == skills;
  }

  /** A second call with the same name returns the same id and adds no row. */
  lemma ResolveTwice(skills: seq<Skill>, next: int, name: string)
    ensures Resolve(Resolve(skills, next, name).skills, Resolve(skills, next, name).nextSkillId, name)
      == Resolve(skills, next, name)
  {
    LookupTwice(skills, next, Trim(name));
  }

  /** Looking the same name up twice returns the same id and adds no row. */
  lemma LookupTwice(skills: seq<Skill>, next: int, t: string)
    ensures Lookup(Lookup(skills, next, t).skills, Lookup(skills, next, t).nextSkillId, t) == Lookup(skills, next, t)
  {
    if FindSkill(skills, t).None? {
      FindSkillAppended(skills, Skill(next, t));
    }
  }

  /** Looking a name up after appending it finds the new row when it was missing. */
  lemma {:induction false} FindSkillAppended(skills: seq<Skill>, s: Skill)
    requires FindSkill(skills, s.name).None?
    ensures FindSkill(skills + [s], s.name) == Some(s.id)
  {
    if skills != [] {
      assert (skills + [s])[1..] == skills[1..] + [s];
      FindSkillAppended(skills[1..], s);
    }
  }

  // ---------------------------------------------------------------------------
  // The skill-link loop

  /** The skills table, its counter and the links the loop has inserted. */
  datatype Linked = Linked(skills: seq<Skill>, nextSkillId: int, links: seq<Link>)

  /** The `for (const skillName of skills)` loop: a falsy entry is skipped, a string is
      resolved and linked, and any other truthy entry fails (`skillName.trim` is not a
      function), which makes the whole loop fail. */
  function LinkSpec(skills: seq<Skill>, next: int, employeeId: int, entries: seq<SkillEntry>): Option<Linked>
    decreases |entries|
  {
    if entries == [] then Some(Linked(skills, next, []))
    else
      match LinkSpec(skills, next, employeeId, entries[..|entries| - 1])
      case None => None
      case Some(l) => LinkStep(l, employeeId, entries[|entries| - 1])
  }

  /** One turn of the loop. */
  function LinkStep(l: Linked, employeeId: int, e: SkillEntry): Option<Linked> {
    if !EntryTruthy(e) then Some(l)
    else if e.SkillText? then
      var r := Resolve(l.skills, l.nextSkillId, e.text);
      Some(Linked(r.skills, r.nextSkillId, l.links + [Link(employeeId, r.id)]))
    else None
  }

  lemma AppendAssoc(a: seq<Link>, b: seq<Link>, x: Link)
    ensures (a + b) + [x] == a + (b + [x])
  {
  }

  /** A string entry resolves its name and links it, keeping the table valid. */
  lemma LinkTextStep(l: Linked, employeeId: int, e: SkillEntry, r: Resolved)
    requires EntryTruthy(e) && e.SkillText?
    requires r == Resolve(l.skills, l.nextSkillId, e.text)
    ensures LinkStep(l, employeeId, e) == Some(Linked(r.skills, r.nextSkillId, l.links + [Link(employeeId, r.id)]))
    ensures r.nextSkillId >= l.nextSkillId
  {
  }

  /** The loop's prefixes unfold one entry at a time. */
  lemma LinkSpecNext(skills: seq<Skill>, next: int, employeeId: int, entries: seq<SkillEntry>, i: nat)
    requires i < |entries|
    requires LinkSpec(skills, next, employeeId, entries[..i]).Some?
    ensures LinkSpec(skills, next, employeeId, entries[..i + 1])
      == LinkStep(LinkSpec(skills, next, employeeId, entries[..i]).value, employeeId, entries[i])
  {
    assert entries[..i + 1][..i] == entries[..i];
  }

  /** The strings among the truthy entries, in order: what the loop links. */
  function LinkedNames(entries: seq<SkillEntry>): seq<string>
    decreases |entries|
  {
    if entries == [] then []
    else
      var e := entries[|entries| - 1];
      LinkedNames(entries[..|entries| - 1]) + (if EntryTruthy(e) && e.SkillText? then [Trim(e.text)] else [])
  }

  /** Every truthy entry is a string. */
  predicate AllTruthyText(entries: seq<SkillEntry>) {
    forall i :: 0 <= i < |entries| && EntryTruthy(entries[i]) ==> entries[i].SkillText?
  }

  /** The loop fails exactly when a truthy entry is not a string. */
  lemma {:induction false} LinkSpecSucceeds(skills: seq<Skill>, next: int, employeeId: int, entries: seq<SkillEntry>)
    ensures LinkSpec(skills, next, employeeId, entries).Some? <==> AllTruthyText(entries)
    decreases |entries|
  {
    if entries != [] {
      var init := entries[..|entries| - 1];
      LinkSpecSucceeds(skills, next, employeeId, init);
      assert forall i :: 0 <= i < |init| ==> init[i] == entries[i];
    }
  }

  /** What a successful loop leaves: a skills table extending the old one, and one
      link per linked string, for this employee, to a skill with the trimmed name. */
  predicate LinkedShape(skills: seq<Skill>, employeeId: int, names: seq<string>, l: Linked) {
    && |skills| <= |l.skills| && l.skills[..|skills|] == skills
    && |l.links| == |names|
    && (forall k :: 0 <= k < |l.links| ==> l.links[k].employeeId == employeeId)
    && (forall k :: 0 <= k < |l.links| ==> Skill(l.links[k].skillId, names[k]) in l.skills)
  }

  /** One more linked name keeps the shape. */
  lemma LinkedShapeStep(skills: seq<Skill>, employeeId: int, names: seq<string>, l: Linked, t: string)
    requires LinkedShape(skills, employeeId, names, l)
    ensures LinkedShape(skills, employeeId, names + [t],
      Linked(Lookup(l.skills, l.nextSkillId, t).skills, Lookup(l.skills, l.nextSkillId, t).nextSkillId,
        l.links + [Link(employeeId, Lookup(l.skills, l.nextSkillId, t).id)]))
  {
    LookupExtends(l.skills, l.nextSkillId, t);
    var r := Lookup(l.skills, l.nextSkillId, t);
    assert r.skills[..|skills|] == skills by {
      assert r.skills[..|skills|] == r.skills[..|l.skills|][..|skills|];
    }
    var links := l.links + [Link(employeeId, r.id)];
    var ns := names + [t];
    forall k | 0 <= k < |links| ensures Skill(links[k].skillId, ns[k]) in r.skills {
      if k < |l.links| {
        assert links[k] == l.links[k] && ns[k] == names[k];
      }
    }
  }

  /** A successful loop leaves a valid skills table. */
  lemma {:induction false} LinkSpecValid(skills: seq<Skill>, next: int, employeeId: int, entries: seq<SkillEntry>)
    requires SkillsValid(skills, next)
    requires LinkSpec(skills, next, employeeId, entries).Some?
    ensures SkillsValid(LinkSpec(skills, next, employeeId, entries).value.skills, LinkSpec(skills, next, employeeId, entries).value.nextSkillId)
    decreases |entries|
  {
    if entries != [] {
      var init := entries[..|entries| - 1];
      var e := entries[|entries| - 1];
      LinkSpecValid(skills, next, employeeId, init);
      var l := LinkSpec(skills, next, employeeId, init).value;
      if EntryTruthy(e) && e.SkillText? {
        LookupValid(l.skills, l.nextSkillId, Trim(e.text));
      }
    }
  }

  /** A successful loop has the shape above. */
  lemma {:induction false} LinkSpecShape(skills: seq<Skill>, next: int, employeeId: int, entries: seq<SkillEntry>)
    requires LinkSpec(skills, next, employeeId, entries).Some?
    ensures LinkedShape(skills, employeeId, LinkedNames(entries), LinkSpec(skills, next, employeeId, entries).value)
    decreases |entries|
  {
    if entries != [] {
      var init := entries[..|entries| - 1];
      var e := entries[|entries| - 1];
      LinkSpecShape(skills, next, employeeId, init);
      var l := LinkSpec(skills, next, employeeId, init).value;
      if EntryTruthy(e) && e.SkillText? {
        LinkedShapeStep(skills, employeeId, LinkedNames(init), l, Trim(e.text));
      }
    } else {
      assert skills[..|skills|] == skills;
    }
  }

  /** A failed prefix fails the whole loop. */
  lemma {:induction false} LinkSpecFailed(skills: seq<Skill>, next: int, employeeId: int, entries: seq<SkillEntry>, k: nat)
    requires k <= |entries|
    requires LinkSpec(skills, next, employeeId, entries[..k]).None?
    ensures LinkSpec(skills, next, employeeId, entries).None?
    decreases |entries| - k
  {
    if k < |entries| {
      assert entries[..k + 1][..k] == entries[..k];
      LinkSpecFailed(skills, next, employeeId, entries, k + 1);
    } else {
      assert entries[..k] == entries;
    }
  }

  // ---------------------------------------------------------------------------
  // Table edits

  /** `DELETE FROM employee_skills WHERE employee_id = ?`. */
  function RemoveLinks(links: seq<Link>, employeeId: int): (r: seq<Link>)
    ensures |r| <= |links|
    ensures forall l :: l in r <==> l in links && l.employeeId != employeeId
  {
    if links == [] then []
    else
      var rest := RemoveLinks(links[1..], employeeId);
      assert forall l :: l in links <==> l == links[0] || l in links[1..] by {
        assert links == [links[0]] + links[1..];
      }
      if links[0].employeeId == employeeId then rest else [links[0]] + rest
  }

  /** Removing an employee's links keeps the other employees' links in their order. */
  lemma {:induction false} RemoveLinksKeepsOthers(links: seq<Link>, employeeId: int, other: int)
    requires other != employeeId
    ensures LinksOf(RemoveLinks(links, employeeId), other) == LinksOf(links, other)
  {
    if links != [] {
      RemoveLinksKeepsOthers(links[1..], employeeId, other);
    }
  }

  /** The links of one employee, in table order. */
  function LinksOf(links: seq<Link>, employeeId: int): (r: seq<Link>)
    ensures forall l :: l in r ==> l in links && l.employeeId == employeeId
  {
    if links == [] then []
    else (if links[0].employeeId == employeeId then [links[0]] else []) + LinksOf(links[1..], employeeId)
  }

  predicate HasEmployee(employees: seq<Employee>, id: int) {
    exists i :: 0 <= i < |employees| && employees[i].id == id
  }

  /** The UPDATE: every row with the id takes the body's columns. */
  function OverwriteRows(employees: seq<Employee>, id: int, b: Body): (r: seq<Employee>)
    requires HasRequired(b)
    ensures |r| == |employees|
    ensures forall i :: 0 <= i < |r| ==> r[i] == if employees[i].id == id then Overwrite(employees[i], b) else employees[i]
  {
    seq(|employees|, i requires 0 <= i < |employees| =>
      if employees[i].id == id then Overwrite(employees[i], b) else employees[i])
  }

  /** `DELETE FROM employees WHERE id = ?`. */
  function RemoveRows(employees: seq<Employee>, id: int): (r: seq<Employee>)
    ensures |r| <= |employees|
    ensures forall e :: e in r <==> e in employees && e.id != id
  {
    if employees == [] then []
    else
      var rest := RemoveRows(employees[1..], id);
      assert forall e :: e in employees <==> e == employees[0] || e in employees[1..] by {
        assert employees == [employees[0]] + employees[1..];
      }
      if employees[0].id == id then rest else [employees[0]] + rest
  }

  /** The DELETE affects no row exactly when no row has the id, and then the table is
      as it was. */
  lemma {:induction false} RemoveRowsAffected(employees: seq<Employee>, id: int)
    ensures |RemoveRows(employees, id)| == |employees| <==> !HasEmployee(employees, id)
    ensures !HasEmployee(employees, id) ==> RemoveRows(employees, id) == employees
  {
    if employees != [] {
      RemoveRowsAffected(employees[1..], id);
      HasEmployeeCons(employees, id);
    }
  }

  /** A table has the id when its first row does or the rest has it. */
  lemma HasEmployeeCons(employees: seq<Employee>, id: int)
    requires employees != []
    ensures HasEmployee(employees, id) <==> employees[0].id == id || HasEmployee(employees[1..], id)
  {
    var tail := employees[1..];
    if HasEmployee(tail, id) {
      var i :| 0 <= i < |tail| && tail[i].id == id;
      assert employees[i + 1].id == id;
    }
    if HasEmployee(employees, id) && employees[0].id != id {
      var i :| 0 <= i < |employees| && employees[i].id == id;
      assert tail[i - 1].id == id;
    }
  }

  /** The first row with the id: what `rows[0]` is after the SELECT. */
  function FirstWithId(employees: seq<Employee>, id: int): (r: Option<Employee>)
    ensures r.None? <==> !HasEmployee(employees, id)
    ensures r.Some? ==> r.value in employees && r.value.id == id
  {
    if employees == [] then None
    else if employees[0].id == id then Some(employees[0])
    else
      var rest := FirstWithId(employees[1..], id);
      assert HasEmployee(employees[1..], id) ==> HasEmployee(employees, id) by {
        if HasEmployee(employees[1..], id) {
          var i :| 0 <= i < |employees[1..]| && employees[1..][i].id == id;
          assert employees[i + 1].id == id;
        }
      }
      assert HasEmployee(employees, id) ==> HasEmployee(employees[1..], id) by {
        if HasEmployee(employees, id) {
          var i :| 0 <= i < |employees| && employees[i].id == id;
          assert employees[1..][i - 1].id == id;
        }
      }
      rest
  }

  /** The answer of a write handler. */
  datatype Response = Created(id: int) | Updated | Deleted | BadRequest(message: string)
    | NotFound(message: string) | ServerError

  /** The array the loop runs over; a missing or empty array links nothing. */
  function EntriesOf(b: Body): seq<SkillEntry> {
    if b.skills.Some? then b.skills.value else []
  }

  /** Ids strictly increase along the table. */
  predicate IdsIncreasing(employees: seq<Employee>) {
    forall i, j :: 0 <= i < j < |employees| ==> employees[i].id < employees[j].id
  }

  lemma TailIncreasing(employees: seq<Employee>)
    requires employees != [] && IdsIncreasing(employees)
    ensures IdsIncreasing(employees[1..])
    ensures forall e :: e in employees[1..] ==> employees[0].id < e.id
  {
    var tail := employees[1..];
    forall i, j | 0 <= i < j < |tail| ensures tail[i].id < tail[j].id {
      assert tail[i] == employees[i + 1] && tail[j] == employees[j + 1];
    }
    forall e | e in tail ensures employees[0].id < e.id {
      var j :| 0 <= j < |tail| && tail[j] == e;
      assert employees[j + 1] == e;
    }
  }

  lemma ConsIncreasing(e: Employee, rest: seq<Employee>)
    requires IdsIncreasing(rest) && forall x :: x in rest ==> e.id < x.id
    ensures IdsIncreasing([e] + rest)
  {
    var r := [e] + rest;
    forall i, j | 0 <= i < j < |r| ensures r[i].id < r[j].id {
      assert r[j] == rest[j - 1] && r[j] in rest;
      if i > 0 { assert r[i] == rest[i - 1]; }
    }
  }

  /** Deleting rows keeps the rest in order, so the ids still increase. */
  lemma {:induction false} RemoveRowsKeepsOrder(employees: seq<Employee>, id: int)
    requires IdsIncreasing(employees)
    ensures IdsIncreasing(RemoveRows(employees, id))
  {
    if employees != [] {
      TailIncreasing(employees);
      RemoveRowsKeepsOrder(employees[1..], id);
      if employees[0].id != id {
        ConsIncreasing(employees[0], RemoveRows(employees[1..], id));
      }
    }
  }

  /** The links of the other employees are those they had: an employee's links are
      replaced without touching anyone else's. */
  lemma OthersKeepLinks(links: seq<Link>, id: int, added: seq<Link>, other: int)
    requires other != id
    requires forall k :: 0 <= k < |added| ==> added[k].employeeId == id
    ensures LinksOf(RemoveLinks(links, id) + added, other) == LinksOf(links, other)
  {
    RemoveLinksKeepsOthers(links, id, other);
    LinksOfAppend(RemoveLinks(links, id), added, other);
    NoLinksOf(added, other);
  }

  lemma {:induction false} LinksOfAppend(a: seq<Link>, b: seq<Link>, e: int)
    ensures LinksOf(a + b, e) == LinksOf(a, e) + LinksOf(b, e)
  {
    if a != [] {
      assert (a + b)[1..] == a[1..] + b;
      LinksOfAppend(a[1..], b, e);
    } else {
      assert a + b == b;
    }
  }

  lemma {:induction false} NoLinksOf(links: seq<Link>, e: int)
    requires forall k :: 0 <= k < |links| ==> links[k].employeeId != e
    ensures LinksOf(links, e) == []
  {
    if links != [] {
      NoLinksOf(links[1..], e);
    }
  }

  // ---------------------------------------------------------------------------
  // Reading: one employee, and the paged list

  /** The LEFT JOIN's department name. */
  function DepartmentName(departments: seq<Department>, id: int): Option<string> {
    if departments == [] then None
    else if departments[0].id == id then Some(departments[0].name)
    else DepartmentName(departments[1..], id)
  }

  /** The skill's name for an id, if the skill exists. */
  function SkillName(skills: seq<Skill>, id: int): (r: Option<string>)
    ensures r.Some? ==> Skill(id, r.value) in skills
  {
    if skills == [] then None
    else if skills[0].id == id then Some(skills[0].name)
    else SkillName(skills[1..], id)
  }

  /** `SELECT s.name FROM skills s JOIN employee_skills es ... WHERE es.employee_id = ?`,
      in the order of the link table. */
  function JoinedNames(links: seq<Link>, skills: seq<Skill>, id: int): seq<string>
    decreases |links|
  {
    if links == [] then []
    else
      var l := links[|links| - 1];
      JoinedNames(links[..|links| - 1], skills, id)
        + (if l.employeeId == id && SkillName(skills, l.skillId).Some? then [SkillName(skills, l.skillId).value] else [])
  }

  /** A row of the batch skills query. */
  datatype SkillRow = SkillRow(employeeId: int, name: string)

  /** `... WHERE es.employee_id IN (ids)`. */
  function SkillRows(links: seq<Link>, skills: seq<Skill>, ids: seq<int>): seq<SkillRow>
    decreases |links|
  {
    if links == [] then []
    else
      var l := links[|links| - 1];
      SkillRows(links[..|links| - 1], skills, ids)
        + (if l.employeeId in ids && SkillName(skills, l.skillId).Some? then [SkillRow(l.employeeId, SkillName(skills, l.skillId).value)] else [])
  }

  /** The names the batch result holds for one employee, in order. */
  function NamesFor(rows: seq<SkillRow>, id: int): seq<string>
    decreases |rows|
  {
    if rows == [] then []
    else
      NamesFor(rows[..|rows| - 1], id) + (if rows[|rows| - 1].employeeId == id then [rows[|rows| - 1].name] else [])
  }

  /** For an employee on the page, the batch query holds exactly its own skill names:
      one query for the page gives what a query per employee would. */
  lemma {:induction false} BatchNames(links: seq<Link>, skills: seq<Skill>, ids: seq<int>, id: int)
    requires id in ids
    ensures NamesFor(SkillRows(links, skills, ids), id) == JoinedNames(links, skills, id)
    decreases |links|
  {
    if links != [] {
      var init := links[..|links| - 1];
      var l := links[|links| - 1];
      BatchNames(init, skills, ids, id);
      var rows := SkillRows(init, skills, ids);
      if l.employeeId in ids && SkillName(skills, l.skillId).Some? {
        var all := rows + [SkillRow(l.employeeId, SkillName(skills, l.skillId).value)];
        assert all[..|all| - 1] == rows;
      } else {
        assert SkillRows(links, skills, ids) == rows;
      }
    }
  }

  /** The skills map the `forEach` builds: every employee with a row, mapped to its
      names in row order. */
  method BuildSkillsMap(rows: seq<SkillRow>) returns (m: map<int, seq<string>>)
    ensures forall id :: id in m <==> NamesFor(rows, id) != []
    ensures forall id :: id in m ==> m[id] == NamesFor(rows, id)
  {
    m := map[];
    var i := 0;
    while i < |rows|
      invariant 0 <= i <= |rows|
      invariant forall id :: id in m <==> NamesFor(rows[..i], id) != []
      invariant forall id :: id in m ==> m[id] == NamesFor(rows[..i], id)
    {
      var row := rows[i];
      assert rows[..i + 1][..i] == rows[..i];
      if row.employeeId !in m {
        m := m[row.employeeId := []];
      }
      m := m[row.employeeId := m[row.employeeId] + [row.name]];
      i := i + 1;
    }
    assert rows[..i] == rows;
  }

  /** `parseInt(v) || fallback`: a missing, unparsable or zero value gives the
      fallback. */
  function IntParam(v: Option<string>, fallback: int): (r: int)
    ensures v.None? ==> r == fallback
    ensures v.Some? && ParseInt(v.value).None? ==> r == fallback
    ensures v.Some? && ParseInt(v.value) == Some(0) ==> r == fallback
    ensures v.Some? && ParseInt(v.value).Some? && ParseInt(v.value).value != 0 ==> r == ParseInt(v.value).value
    ensures fallback != 0 ==> r != 0
  {
    if v.None? then fallback
    else match ParseInt(v.value)
      case None => fallback
      case Some(n) => if n == 0 then fallback else n
  }

  /** The list's query string; `sortBy` is left at its default, `e.id`. */
  datatype ListQuery = ListQuery(page: Option<string>, limit: Option<string>, search: Option<string>, descending: bool)

  function PageOfQuery(q: ListQuery): int { IntParam(q.page, 1) }
  function LimitOfQuery(q: ListQuery): int { IntParam(q.limit, 10) }

  /** `offset = (page - 1) * limit`. */
  function OffsetOfQuery(q: ListQuery): int { (PageOfQuery(q) - 1) * LimitOfQuery(q) }

  /** `Math.ceil(total / limit)`. */
  function CeilDiv(total: nat, limit: int): (r: nat)
    requires limit > 0
  {
    (total + limit - 1) / limit
  }

  /** The page count covers every row, and one page fewer would not. */
  lemma CeilDivBounds(total: nat, limit: int)
    requires limit > 0
    ensures CeilDiv(total, limit) * limit >= total
    ensures total > 0 ==> (CeilDiv(total, limit) - 1) * limit < total
    ensures total == 0 <==> CeilDiv(total, limit) == 0
  {
    var q := CeilDiv(total, limit);
    var r := (total + limit - 1) % limit;
    assert total + limit - 1 == q * limit + r;
  }

  /** The search predicate: a substring of the first name, the last name, the
      department's name or the position; never the e-mail. */
  predicate Matches(e: Employee, departments: seq<Department>, term: string) {
    || Contains(e.firstName, term) || Contains(e.lastName, term)
    || (DepartmentName(departments, e.departmentId).Some? && Contains(DepartmentName(departments, e.departmentId).value, term))
    || (e.position.Some? && Contains(e.position.value, term))
  }

  /** `WHERE 1=1 [AND (... LIKE ? OR ...)]`: an empty term filters nothing. */
  function Matching(employees: seq<Employee>, departments: seq<Department>, term: string): (r: seq<Employee>)
    ensures |r| <= |employees|
    ensures forall e :: e in r <==> e in employees && (term == "" || Matches(e, departments, term))
    ensures term == "" ==> r == employees
  {
    if term == "" then employees
    else if employees == [] then []
    else
      var rest := Matching(employees[1..], departments, term);
      assert forall e :: e in employees <==> e == employees[0] || e in employees[1..] by {
        assert employees == [employees[0]] + employees[1..];
      }
      if Matches(employees[0], departments, term) then [employees[0]] + rest else rest
  }

  /** The e-mail is not searched: two rows that differ only in it match alike. */
  lemma EmailNotSearched(e: Employee, email: string, departments: seq<Department>, term: string)
    ensures Matches(e.(email := email), departments, term) == Matches(e, departments, term)
  {
  }

  function Reverse<T>(s: seq<T>): (r: seq<T>)
    ensures |r| == |s| && forall i :: 0 <= i < |s| ==> r[i] == s[|s| - 1 - i]
  {
    if s == [] then [] else Reverse(s[1..]) + [s[0]]
  }

  /** `LIMIT limit OFFSET offset`. */
  function PageOf(rows: seq<Employee>, offset: nat, limit: nat): (r: seq<Employee>)
    ensures |r| <= limit
    ensures offset <= |rows| ==> |r| == if offset + limit <= |rows| then limit else |rows| - offset
    ensures offset <= |rows| ==> forall i :: 0 <= i < |r| ==> r[i] == rows[offset + i]
    ensures offset > |rows| ==> r == []
  {
    if offset > |rows| then []
    else if offset + limit <= |rows| then rows[offset..offset + limit]
    else rows[offset..]
  }

  /** The rows of the page before the skills are attached: matching rows by id,
      ascending or descending. */
  function PageRows(employees: seq<Employee>, departments: seq<Department>, q: ListQuery): seq<Employee>
    requires LimitOfQuery(q) >= 0 && OffsetOfQuery(q) >= 0
  {
    var matching := Matching(employees, departments, if q.search.Some? then q.search.value else "");
    PageOf(if q.descending then Reverse(matching) else matching, OffsetOfQuery(q), LimitOfQuery(q))
  }

  /** Ids strictly decrease along the rows. */
  predicate IdsDecreasing(rows: seq<Employee>) {
    forall i, j :: 0 <= i < j < |rows| ==> rows[i].id > rows[j].id
  }

  /** Filtering keeps the rows in table order, so the ids still increase. */
  lemma {:induction false} MatchingKeepsOrder(employees: seq<Employee>, departments: seq<Department>, term: string)
    requires IdsIncreasing(employees)
    ensures IdsIncreasing(Matching(employees, departments, term))
  {
    if term != "" && employees != [] {
      TailIncreasing(employees);
      MatchingKeepsOrder(employees[1..], departments, term);
      if Matches(employees[0], departments, term) {
        ConsIncreasing(employees[0], Matching(employees[1..], departments, term));
      }
    }
  }

  /** Reading increasing rows backwards gives decreasing ids. */
  lemma ReverseDecreasing(rows: seq<Employee>)
    requires IdsIncreasing(rows)
    ensures IdsDecreasing(Reverse(rows))
  {
    var r := Reverse(rows);
    forall i, j | 0 <= i < j < |r| ensures r[i].id > r[j].id {
      assert r[i] == rows[|rows| - 1 - i] && r[j] == rows[|rows| - 1 - j];
    }
  }

  /** A page is a slice, so it keeps the order of the rows it is cut from. */
  lemma PageKeepsOrder(rows: seq<Employee>, offset: nat, limit: nat)
    ensures IdsIncreasing(rows) ==> IdsIncreasing(PageOf(rows, offset, limit))
    ensures IdsDecreasing(rows) ==> IdsDecreasing(PageOf(rows, offset, limit))
  {
    var page := PageOf(rows, offset, limit);
    if offset <= |rows| {
      assert forall i :: 0 <= i < |page| ==> page[i] == rows[offset + i];
    }
  }

  /** The rows of a page come in id order: ascending by default, descending when asked
      (`ORDER BY id ASC` or `DESC` over ids that never repeat). */
  lemma PageRowsOrdered(employees: seq<Employee>, departments: seq<Department>, q: ListQuery)
    requires IdsIncreasing(employees)
    requires LimitOfQuery(q) >= 0 && OffsetOfQuery(q) >= 0
    ensures !q.descending ==> IdsIncreasing(PageRows(employees, departments, q))
    ensures q.descending ==> IdsDecreasing(PageRows(employees, departments, q))
  {
    var term := if q.search.Some? then q.search.value else "";
    var matching := Matching(employees, departments, term);
    MatchingKeepsOrder(employees, departments, term);
    if q.descending {
      ReverseDecreasing(matching);
      PageKeepsOrder(Reverse(matching), OffsetOfQuery(q), LimitOfQuery(q));
    } else {
      PageKeepsOrder(matching, OffsetOfQuery(q), LimitOfQuery(q));
    }
  }

  function IdsOf(rows: seq<Employee>): (r: seq<int>)
    ensures |r| == |rows| && forall i :: 0 <= i < |rows| ==> r[i] == rows[i].id
  {
    seq(|rows|, i requires 0 <= i < |rows| => rows[i].id)
  }

  /** An employee as the read handlers return it: the row, the department's name,
      `CONCAT(first_name, ' ', last_name)` and the skill names. */
  datatype ListedEmployee = ListedEmployee(row: Employee, departmentName: Option<string>, fullName: string, skills: seq<string>)

  /** `item` is `e` as a read handler returns it. */
  predicate Describes(item: ListedEmployee, e: Employee, departments: seq<Department>, links: seq<Link>, skills: seq<Skill>) {
    && item.row == e
    && item.departmentName == DepartmentName(departments, e.departmentId)
    && item.fullName == e.firstName + " " + e.lastName
    && item.skills == JoinedNames(links, skills, e.id)
  }

  /** The page's skills map: one batch query for the page's ids (none for an empty
      page), folded into a map; an employee on the page maps to its own names or is
      absent when it has none. */
  method PageSkills(links: seq<Link>, skills: seq<Skill>, results: seq<Employee>) returns (m: map<int, seq<string>>)
    ensures forall i :: 0 <= i < |results| ==>
      (if results[i].id in m then m[results[i].id] else []) == JoinedNames(links, skills, results[i].id)
  {
    m := map[];
    var ids := IdsOf(results);
    if |ids| > 0 {
      var rows := SkillRows(links, skills, ids);
      m := BuildSkillsMap(rows);
      forall i | 0 <= i < |results| ensures NamesFor(rows, results[i].id) == JoinedNames(links, skills, results[i].id) {
        assert ids[i] == results[i].id;
        BatchNames(links, skills, ids, results[i].id);
      }
    }
  }

  /** The page's rows with their departments, full names and skills from the map. */
  function Attach(results: seq<Employee>, departments: seq<Department>, m: map<int, seq<string>>): (r: seq<ListedEmployee>)
    ensures |r| == |results|
    ensures forall i :: 0 <= i < |results| ==>
      && r[i].row == results[i]
      && r[i].departmentName == DepartmentName(departments, results[i].departmentId)
      && r[i].fullName == results[i].firstName + " " + results[i].lastName
      && r[i].skills == (if results[i].id in m then m[results[i].id] else [])
  {
    seq(|results|, i requires 0 <= i < |results| =>
      ListedEmployee(results[i], DepartmentName(departments, results[i].departmentId),
        results[i].firstName + " " + results[i].lastName,
        if results[i].id in m then m[results[i].id] else []))
  }

  datatype Listing = Listing(items: seq<ListedEmployee>, page: int, limit: int, total: nat, totalPages: nat)

  // ---------------------------------------------------------------------------
  // The database

  class Database {
    var departments: seq<Department>
    var employees: seq<Employee>
    var skills: seq<Skill>
    var links: seq<Link>
    var nextEmployeeId: int
    var nextSkillId: int

    /** Employee ids increase along the table and stay below the counter; the skills
        table is valid. */
    ghost predicate Valid()
      reads this
    {
      (forall i :: 0 <= i < |employees| ==> employees[i].id < nextEmployeeId)
      && IdsIncreasing(employees)
      && SkillsValid(skills, nextSkillId)
    }

    constructor(departments: seq<Department>)
      ensures Valid()
      ensures this.departments == departments && employees == [] && skills == [] && links == []
      ensures nextEmployeeId == 1 && nextSkillId == 1
    {
      this.departments := departments;
      employees := [];
      skills := [];
      links := [];
      nextEmployeeId := 1;
      nextSkillId := 1;
    }

    /** `getOrCreateSkillId`. */
    method GetOrCreateSkillId(name: string) returns (id: int)
      modifies this`skills, this`nextSkillId
      ensures Resolved(skills, nextSkillId, id) == Resolve(old(skills), old(nextSkillId), name)
    {
      var t := Trim(name);
      var found := FindSkill(skills, t);
      if found.Some? {
        return found.value;
      }
      id := nextSkillId;
      skills := skills + [Skill(id, t)];
      nextSkillId := nextSkillId + 1;
    }

    /** One string entry: its skill is found or inserted and the link is added. */
    method LinkName(employeeId: int, e: SkillEntry, ghost added: seq<Link>) returns (link: Link)
      requires EntryTruthy(e) && e.SkillText?
      modifies this`skills, this`nextSkillId, this`links
      ensures links == old(links) + [link]
      ensures LinkStep(Linked(old(skills), old(nextSkillId), added), employeeId, e) == Some(Linked(skills, nextSkillId, added + [link]))
      ensures nextSkillId >= old(nextSkillId)
    {
      ghost var l := Linked(skills, nextSkillId, added);
      var sid := GetOrCreateSkillId(e.text);
      LinkTextStep(l, employeeId, e, Resolved(skills, nextSkillId, sid));
      link := Link(employeeId, sid);
      links := links + [link];
    }

    /** The loop inserting one link per truthy entry; `false` when an entry throws. */
    method LinkSkills(employeeId: int, entries: seq<SkillEntry>) returns (ok: bool)
      modifies this`skills, this`nextSkillId, this`links
      ensures ok <==> LinkSpec(old(skills), old(nextSkillId), employeeId, entries).Some?
      ensures ok ==>
        && skills == LinkSpec(old(skills), old(nextSkillId), employeeId, entries).value.skills
        && nextSkillId == LinkSpec(old(skills), old(nextSkillId), employeeId, entries).value.nextSkillId
        && links == old(links) + LinkSpec(old(skills), old(nextSkillId), employeeId, entries).value.links
      ensures nextSkillId >= old(nextSkillId)
    {
      var i := 0;
      ghost var added: seq<Link> := [];
      assert entries[..0] == [];
      while i < |entries|
        invariant 0 <= i <= |entries|
        invariant nextSkillId >= old(nextSkillId)
        invariant links == old(links) + added
        invariant LinkSpec(old(skills), old(nextSkillId), employeeId, entries[..i]) == Some(Linked(skills, nextSkillId, added))
      {
        var e := entries[i];
        LinkSpecNext(old(skills), old(nextSkillId), employeeId, entries, i);
        if EntryTruthy(e) {
          if !e.SkillText? {
            assert LinkSpec(old(skills), old(nextSkillId), employeeId, entries[..i + 1]) == None;
            LinkSpecFailed(old(skills), old(nextSkillId), employeeId, entries, i + 1);
            return false;
          }
          var link := LinkName(employeeId, e, added);
          AppendAssoc(old(links), added, link);
          added := added + [link];
        } else {
          assert LinkStep(Linked(skills, nextSkillId, added), employeeId, e) == Some(Linked(skills, nextSkillId, added));
        }
        i := i + 1;
      }
      assert entries[..i] == entries;
      return true;
    }

    /** `createEmployee`: the required fields are checked before anything is written;
        then the row is inserted under the next id and its skills linked, and a
        failure restores all three tables. */
    method Create(b: Body, refused: bool) returns (resp: Response)
      requires Valid()
      modifies this
      ensures Valid()
      ensures departments == old(departments)
      ensures !HasRequired(b) ==> resp == BadRequest(RequiredMessage)
      ensures !HasRequired(b) ==> nextEmployeeId == old(nextEmployeeId) && nextSkillId == old(nextSkillId)
      ensures HasRequired(b) && refused ==> resp == ServerError
      ensures HasRequired(b) && refused ==> nextEmployeeId == old(nextEmployeeId) + 1 && nextSkillId == old(nextSkillId)
      ensures !resp.Created? ==> employees == old(employees) && skills == old(skills) && links == old(links)
      ensures HasRequired(b) && !refused ==>
        match LinkSpec(old(skills), old(nextSkillId), old(nextEmployeeId), EntriesOf(b))
        case None => resp == ServerError && nextSkillId >= old(nextSkillId)
        case Some(l) =>
          && resp == Created(old(nextEmployeeId))
          && employees == old(employees) + [NewRow(old(nextEmployeeId), b)]
          && skills == l.skills && nextSkillId == l.nextSkillId && links == old(links) + l.links
      ensures HasRequired(b) && !refused ==> nextEmployeeId == old(nextEmployeeId) + 1
    {
      if !HasRequired(b) {
        return BadRequest(RequiredMessage);
      }
      if refused {
        // The refused insert has already drawn its auto-increment value.
        nextEmployeeId := nextEmployeeId + 1;
        return ServerError;
      }
      var snapshot := (employees, skills, links);
      var id := nextEmployeeId;
      employees := employees + [NewRow(id, b)];
      nextEmployeeId := nextEmployeeId + 1;
      var ok := true;
      if b.skills.Some? && |b.skills.value| > 0 {
        ok := LinkSkills(id, b.skills.value);
      } else {
        assert links == links + [];
      }
      if !ok {
        employees, skills, links := snapshot.0, snapshot.1, snapshot.2;
        SkillsValidRaise(skills, old(nextSkillId), nextSkillId);
        return ServerError;
      }
      LinkSpecValid(old(skills), old(nextSkillId), id, EntriesOf(b));
      return Created(id);
    }

    /** `updateEmployee`: the required fields are checked first; then the row's seven
        columns are overwritten, its links deleted and the skills linked again, and a
        failure restores all three tables.  A missing id is not reported. */
    method Update(id: int, b: Body, refused: bool) returns (resp: Response)
      requires Valid()
      modifies this
      ensures Valid()
      ensures departments == old(departments) && nextEmployeeId == old(nextEmployeeId)
      ensures !HasRequired(b) ==> resp == BadRequest(RequiredMessage)
      ensures !HasRequired(b) || refused ==> nextSkillId == old(nextSkillId)
      ensures HasRequired(b) && refused ==> resp == ServerError
      ensures !resp.Updated? ==> employees == old(employees) && skills == old(skills) && links == old(links)
      ensures HasRequired(b) && !refused ==>
        match LinkSpec(old(skills), old(nextSkillId), id, EntriesOf(b))
        case None => resp == ServerError && nextSkillId >= old(nextSkillId)
        case Some(l) =>
          && resp == Updated
          && employees == OverwriteRows(old(employees), id, b)
          && skills == l.skills && nextSkillId == l.nextSkillId
          && links == RemoveLinks(old(links), id) + l.links
    {
      if !HasRequired(b) {
        return BadRequest(RequiredMessage);
      }
      if refused {
        return ServerError;
      }
      var snapshot := (employees, skills, links);
      employees := OverwriteRows(employees, id, b);
      links := RemoveLinks(links, id);
      var kept := links;
      var ok := true;
      if b.skills.Some? && |b.skills.value| > 0 {
        ok := LinkSkills(id, b.skills.value);
      } else {
        assert links == links + [];
      }
      if !ok {
        employees, skills, links := snapshot.0, snapshot.1, snapshot.2;
        SkillsValidRaise(skills, old(nextSkillId), nextSkillId);
        return ServerError;
      }
      LinkSpecValid(old(skills), old(nextSkillId), id, EntriesOf(b));
      return Updated;
    }

    /** `deleteEmployee`: the links go, then the row; when no row had the id the
        transaction rolls back and the answer is "Employee not found".  `refused`
        stands for the server refusing one of the two statements (a row of another
        table still naming the employee): the transaction rolls back and the answer is
        a server error. */
    method Delete(id: int, refused: bool) returns (resp: Response)
      requires Valid()
      modifies this
      ensures Valid()
      ensures departments == old(departments) && skills == old(skills)
      ensures nextEmployeeId == old(nextEmployeeId) && nextSkillId == old(nextSkillId)
      ensures refused ==> resp == ServerError
      ensures !resp.Deleted? ==> employees == old(employees) && links == old(links)
      ensures !refused && !HasEmployee(old(employees), id) ==> resp == NotFound(NotFoundMessage)
      ensures !refused && HasEmployee(old(employees), id) ==>
        resp == Deleted && employees == RemoveRows(old(employees), id) && links == RemoveLinks(old(links), id)
    {
      var snapshot := (employees, links);
      links := RemoveLinks(links, id);
      var before := |employees|;
      RemoveRowsAffected(employees, id);
      employees := RemoveRows(employees, id);
      if refused {
        employees, links := snapshot.0, snapshot.1;
        return ServerError;
      }
      if |employees| == before {
        employees, links := snapshot.0, snapshot.1;
        return NotFound(NotFoundMessage);
      }
      RemoveRowsKeepsOrder(snapshot.0, id);
      assert forall i :: 0 <= i < |employees| ==> employees[i] in snapshot.0;
      return Deleted;
    }

    /** `getEmployeeById`: the row with the id and its skills, or "Employee not
        found". */
    method GetEmployeeById(id: int) returns (r: Result<ListedEmployee, string>)
      ensures r.Err? <==> !HasEmployee(employees, id)
      ensures r.Err? ==> r.error == NotFoundMessage
      ensures r.Ok? ==>
        && r.value.row in employees && r.value.row.id == id
        && r.value.departmentName == DepartmentName(departments, r.value.row.departmentId)
        && r.value.fullName == r.value.row.firstName + " " + r.value.row.lastName
        && r.value.skills == JoinedNames(links, skills, id)
    {
      var found := FirstWithId(employees, id);
      if found.None? {
        return Err(NotFoundMessage);
      }
      var e := found.value;
      return Ok(ListedEmployee(e, DepartmentName(departments, e.departmentId), e.firstName + " " + e.lastName,
        JoinedNames(links, skills, id)));
    }

    /** `getAllEmployees`: the requested page of the matching rows, each with its
        department and skills, and the counts; `None` when MySQL rejects a negative
        LIMIT or OFFSET. */
    method ListEmployees(q: ListQuery) returns (r: Option<Listing>)
      requires Valid()
      ensures r.None? <==> LimitOfQuery(q) < 0 || OffsetOfQuery(q) < 0
      ensures r.Some? && !q.descending ==> forall i, j :: 0 <= i < j < |r.value.items| ==>
        r.value.items[i].row.id < r.value.items[j].row.id
      ensures r.Some? && q.descending ==> forall i, j :: 0 <= i < j < |r.value.items| ==>
        r.value.items[i].row.id > r.value.items[j].row.id
      ensures r.Some? ==>
        && LimitOfQuery(q) > 0
        && r.value.page == PageOfQuery(q) && r.value.limit == LimitOfQuery(q)
        && r.value.total == |Matching(employees, departments, if q.search.Some? then q.search.value else "")|
        && r.value.totalPages == CeilDiv(r.value.total, LimitOfQuery(q))
        && |r.value.items| == |PageRows(employees, departments, q)|
        && (forall i :: 0 <= i < |r.value.items| ==>
              Describes(r.value.items[i], PageRows(employees, departments, q)[i], departments, links, skills))
    {
      var page := PageOfQuery(q);
      var limit := LimitOfQuery(q);
      var offset := (page - 1) * limit;
      if limit < 0 || offset < 0 {
        return None;
      }
      var departments, links, skills := this.departments, this.links, this.skills;
      var term := if q.search.Some? then q.search.value else "";
      var total := |Matching(employees, departments, term)|;
      var results := PageRows(employees, departments, q);
      PageRowsOrdered(employees, departments, q);
      var m := PageSkills(links, skills, results);
      var items := Attach(results, departments, m);
      assert forall i :: 0 <= i < |items| ==> Describes(items[i], results[i], departments, links, skills) by {
        forall i | 0 <= i < |items| ensures Describes(items[i], results[i], departments, links, skills) {
          assert items[i].skills == (if results[i].id in m then m[results[i].id] else []);
        }
      }
      return Some(Listing(items, page, limit, total, CeilDiv(total, limit)));
    }
  }
}
