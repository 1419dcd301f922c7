/** The project-list editor: adding, removing and editing rows, showing the
    validator's per-cell messages, numbering rows from the start serial and
    reading the start-serial input. */
module ProjectsEditor {
  import opened Optional
  import opened Text
  import opened ApiTypes
  import opened Validation
  import ListEdit

  /** The row "Add Project" appends. */
  const EmptyProject := Project("", "")

  function AddProject(projects: seq<Project>): (r: seq<Project>)
    ensures |r| == |projects| + 1 && r[..|projects|] == projects
    ensures r[|projects|].projectNames == "" && r[|projects|].location == ""
  {
    var r := projects + [EmptyProject];
    assert r[..|projects|] == projects;
    r
  }

  /** The appended row does not pass `validateProject`. */
  lemma AddedRowInvalid(projects: seq<Project>)
    ensures !ValidateProject(AddProject(projects)[|projects|])
  {
    assert AddProject(projects)[|projects|] == EmptyProject;
    assert Trim("") == "";
  }

  /** Removes the row at `index`; any other index leaves the list as it is.
      A removal never makes a complete list incomplete. */
  function RemoveProject(projects: seq<Project>, index: int): (r: seq<Project>)
    ensures 0 <= index < |projects| ==> r == projects[..index] + projects[index + 1..]
    ensures !(0 <= index < |projects|) ==> r == projects
    ensures (forall i | 0 <= i < |projects| :: ValidateProject(projects[i])) ==>
      forall i | 0 <= i < |r| :: ValidateProject(r[i])
  {
    ListEdit.RemoveAtKeepsMembers(projects, index);
    ListEdit.RemoveAt(projects, index)
  }

  /** A row with one cell replaced. */
  function SetCell(p: Project, field: ProjectField, value: string): (q: Project)
    ensures field.Of(q) == value
    ensures forall g: ProjectField | g != field :: g.Of(q) == g.Of(p)
  {
    match field
    case ProjectNames => p.(projectNames := value)
    case Location => p.(location := value)
  }

  /** `newProjects[index][field] = value`: only a real row can be written;
      any other index reads `undefined` and the assignment throws, so nothing
      changes (`None`). */
  function UpdateProject(projects: seq<Project>, index: int, field: ProjectField, value: string)
    : (r: Option<seq<Project>>)
    ensures r.Some? <==> 0 <= index < |projects|
    ensures r.Some? ==> |r.value| == |projects|
    ensures r.Some? ==> field.Of(r.value[index]) == value
    ensures r.Some? ==> forall g: ProjectField | g != field :: g.Of(r.value[index]) == g.Of(projects[index])
    ensures r.Some? ==> forall i | 0 <= i < |projects| && i != index :: r.value[i] == projects[i]
  {
    if 0 <= index < |projects| then Some(projects[index := SetCell(projects[index], field, value)])
    else None
  }

  /** `errors[`projects.${index}.${field}`]`. */
  function GetFieldError(errors: map<string, string>, index: nat, field: ProjectField): (r: Option<string>)
    ensures r.Some? <==> ProjectKey(index, field) in errors
    ensures r.Some? ==> r.value == errors[ProjectKey(index, field)]
  {
    var key := ProjectKey(index, field);
    if key in errors then Some(errors[key]) else None
  }

  /** Against the validator's map, a cell shows a message exactly when it is
      blank, and the message is the cell's own. */
  lemma FieldErrorFromValidator(data: ProcessRequest, availableTemplates: seq<string>, i: nat, f: ProjectField)
    ensures GetFieldError(ValidateProcessRequest(data, availableTemplates).errors, i, f) ==
      if i < |data.projects| && Blank(f.Of(data.projects[i])) then Some(f.Message()) else None
  {
    ProjectRule(data, availableTemplates, i, f);
  }

  /** Both cells of the added row are blank. */
  lemma AddedCellBlank(projects: seq<Project>, f: ProjectField)
    ensures |projects| < |AddProject(projects)| && Blank(f.Of(AddProject(projects)[|projects|]))
  {
    var row := AddProject(projects)[|projects|];
    assert f.Of(row) == "";
  }

  /** A freshly added row shows both messages once the form holding the
      grown list is validated. */
  lemma NewRowFlagged(projects: seq<Project>, added: ProcessRequest, availableTemplates: seq<string>, f: ProjectField)
    requires added.projects == AddProject(projects)
    ensures GetFieldError(ValidateProcessRequest(added, availableTemplates).errors, |projects|, f) == Some(f.Message())
  {
    AddedCellBlank(projects, f);
    FieldErrorFromValidator(added, availableTemplates, |projects|, f);
  }

  /** The label of the row at `index`: "Project {startSno + index}". */
  function DisplayNumber(startSno: int, index: nat): (n: int)
    ensures n - index == startSno
  {
    startSno + index
  }

  /** The rows as rendered, each paired with its label number. */
  function Labelled(startSno: int, rows: seq<Project>): (r: seq<(int, Project)>)
    ensures |r| == |rows|
    ensures forall i | 0 <= i < |rows| :: r[i] == (DisplayNumber(startSno, i), rows[i])
  {
    seq(|rows|, i requires 0 <= i < |rows| => (DisplayNumber(startSno, i), rows[i]))
  }

  /** After a removal the rows before it keep their labels, and the rows after
      it are numbered on from the removed row's label, so no number is
      skipped. */
  lemma RenumberAfterRemove(projects: seq<Project>, startSno: int, removed: nat)
    requires removed < |projects|
    ensures Labelled(startSno, RemoveProject(projects, removed))
      == Labelled(startSno, projects[..removed])
         + Labelled(DisplayNumber(startSno, removed), projects[removed + 1..])
  {
    var front := projects[..removed];
    var back := projects[removed + 1..];
    assert RemoveProject(projects, removed) == front + back;
    LabelledSplit(startSno, front, back);
  }

  /** Labelling a concatenation labels the second part on from where the
      first part ends. */
  lemma LabelledSplit(startSno: int, front: seq<Project>, back: seq<Project>)
    ensures Labelled(startSno, front + back)
      == Labelled(startSno, front) + Labelled(DisplayNumber(startSno, |front|), back)
  {
    var lhs := Labelled(startSno, front + back);
    var rhs := Labelled(startSno, front) + Labelled(DisplayNumber(startSno, |front|), back);
    forall k | 0 <= k < |lhs|
      ensures lhs[k] == rhs[k]
    {
      if k >= |front| {
        assert rhs[k] == Labelled(DisplayNumber(startSno, |front|), back)[k - |front|];
      }
    }
  }

  /** `parseInt(value) || 1`: `NaN` and zero both become 1. */
  function CoerceStartSno(parsed: Option<int>): (sno: int)
    ensures sno != 0
    ensures parsed.Some? && parsed.value != 0 ==> sno == parsed.value
    ensures sno != 1 ==> parsed == Some(sno)
  {
    if parsed.None? || parsed.value == 0 then 1 else parsed.value
  }

  /** What typing into the start-serial box stores. */
  function StartSnoInput(text: string): (sno: int)
    ensures sno != 0
    ensures sno < 1 ==> ParseInt(text) == Some(sno)
  {
    CoerceStartSno(ParseInt(text))
  }

  /** The stored serial passes the validator unless the text was negative. */
  lemma CoercedStartSnoValid(parsed: Option<int>)
    ensures CoerceStartSno(parsed) >= 1 <==> parsed.None? || parsed.value >= 0
  {
  }

  /** Typing a number stores it; typing "0" or text without digits stores 1. */
  lemma StartSnoInputExamples(n: nat)
    ensures n >= 1 ==> StartSnoInput(NatToDecimal(n)) == n
    ensures StartSnoInput(NatToDecimal(0)) == 1
    ensures StartSnoInput("") == 1
  {
    ParseIntRoundTrip(n);
    ParseIntRoundTrip(0);
    ParseIntNoDigits("");
  }

  /** A minus sign before a positive number stores a negative serial. */
  lemma NegativeStartSnoInput(n: nat)
    requires n >= 1
    ensures StartSnoInput(['-'] + NatToDecimal(n)) == -(n as int)
  {
    ParseIntNegativeRoundTrip(n);
  }

  /** The validator refuses such a serial. */
  lemma NegativeStartSnoRejected(data: ProcessRequest, availableTemplates: seq<string>, n: nat)
    requires n >= 1
    ensures var typed := data.(projectsStartSno := StartSnoInput(['-'] + NatToDecimal(n)));
      var errors := ValidateProcessRequest(typed, availableTemplates).errors;
      ProjectsStartSno.Key() in errors && errors[ProjectsStartSno.Key()] == StartSnoTooSmall
  {
    NegativeStartSnoInput(n);
    StartSnoRule(data.(projectsStartSno := -(n as int)), availableTemplates);
  }
}
