/** Client-side validation of the proposal form, run before every submit. */
module Validation {
  import opened Optional
  import opened Text
  import opened ApiTypes

  const DocxExtension := ".docx"
  const TemplateRequired := "Template selection is required"
  const TemplateNotDocx := "Template must be a .docx file"
  const TemplateUnavailable := "Selected template is not available"
  const StartSnoTooSmall := "Starting S. No. must be at least 1"

  /** The verdict and the messages keyed by dotted field path. */
  datatype ValidationResult = ValidationResult(isValid: bool, errors: map<string, string>)

  /** The two text cells of a project row (`keyof Project`). */
  datatype ProjectField = ProjectNames | Location {

    /** The cell's key on the wire and in error paths. */
    function Key(): string {
      match this
      case ProjectNames => "Project_Names"
      case Location => "Location"
    }

    function Of(p: Project): string {
      match this
      case ProjectNames => p.projectNames
      case Location => p.location
    }

    /** The message the validator files under a blank cell. */
    function Message(): string {
      match this
      case ProjectNames => "Project name is required"
      case Location => "Project location is required"
    }
  }

  /** Error path of one project cell, `projects.<index>.<field>`: the same
      dotted join the backend's `loc` arrays are turned into. */
  function ProjectKey(index: nat, field: ProjectField): (key: string)
    ensures StartsWith(key, Projects.Key() + ".")
  {
    Join([Projects.Key(), NatToDecimal(index), field.Key()], '.')
  }

  /** Reads a project error path back into its index and cell: three dotted
      pieces, the list's name, an index written without leading zeros and a
      cell name. `None` for any other key. */
  function ParseProjectKey(key: string): (r: Option<(nat, ProjectField)>)
    ensures r.Some? ==> key == ProjectKey(r.value.0, r.value.1)
  {
    var parts := Split(key, '.');
    if |parts| == 3 && parts[0] == Projects.Key() && ParseNat(parts[1]).Some?
      && NatToDecimal(ParseNat(parts[1]).value) == parts[1]
    then
      var index := ParseNat(parts[1]).value;
      var field :=
        if parts[2] == ProjectNames.Key() then Some(ProjectNames)
        else if parts[2] == Location.Key() then Some(Location)
        else None;
      if field.Some? then
        JoinSplit(key, '.');
        assert parts == [Projects.Key(), NatToDecimal(index), field.value.Key()];
        Some((index, field.value))
      else None
    else
      None
  }

  /** Every project error path parses back to the cell it names. */
  lemma ProjectKeyRoundTrip(index: nat, field: ProjectField)
    ensures ParseProjectKey(ProjectKey(index, field)) == Some((index, field))
  {
    var digits := NatToDecimal(index);
    var parts := [Projects.Key(), digits, field.Key()];
    DecimalRoundTrip(index);
    assert forall i | 0 <= i < |digits| :: digits[i] != '.';
    SplitJoin(parts, '.');
  }

  /** Distinct cells never share an error path. */
  lemma ProjectKeyInjective(i: nat, f: ProjectField, j: nat, g: ProjectField)
    ensures ProjectKey(i, f) == ProjectKey(j, g) <==> i == j && f == g
  {
    ProjectKeyRoundTrip(i, f);
    ProjectKeyRoundTrip(j, g);
  }

  /** A project error path is never the key of a whole form field, so per-cell
      messages and field-level messages cannot overwrite each other. */
  lemma ProjectKeyIsNotFieldKey(index: nat, cell: ProjectField, f: Field)
    ensures ProjectKey(index, cell) != f.Key()
  {
    assert '.' !in f.Key();
  }

  /** The template rule: the first failing check decides the single message. */
  function TemplateError(name: string, availableTemplates: seq<string>): (r: Option<string>)
    ensures r == Some(TemplateRequired) <==> name == ""
    ensures r == Some(TemplateNotDocx) <==> name != "" && !EndsWith(name, DocxExtension)
    ensures r == Some(TemplateUnavailable) <==>
      EndsWith(name, DocxExtension) && name !in availableTemplates
    ensures r == None <==> EndsWith(name, DocxExtension) && name in availableTemplates
  {
    if name == "" then Some(TemplateRequired)
    else if !EndsWith(name, DocxExtension) then Some(TemplateNotDocx)
    else if name !in availableTemplates then Some(TemplateUnavailable)
    else None
  }

  /** The template rule's contribution to the error map. */
  function TemplateErrors(name: string, availableTemplates: seq<string>): (m: map<string, string>)
    ensures m.Keys <= {TemplateName.Key()}
    ensures TemplateName.Key() in m <==> TemplateError(name, availableTemplates).Some?
    ensures TemplateName.Key() in m ==> m[TemplateName.Key()] == TemplateError(name, availableTemplates).value
  {
    match TemplateError(name, availableTemplates)
    case Some(message) => map[TemplateName.Key() := message]
    case None => map[]
  }

  /** The start-serial rule's contribution: below 1 is refused, with no upper bound. */
  function StartSnoErrors(sno: int): (m: map<string, string>)
    ensures m.Keys <= {ProjectsStartSno.Key()}
    ensures ProjectsStartSno.Key() in m <==> sno < 1
    ensures ProjectsStartSno.Key() in m ==> m[ProjectsStartSno.Key()] == StartSnoTooSmall
  {
    if sno < 1 then map[ProjectsStartSno.Key() := StartSnoTooSmall] else map[]
  }

  /** The message for one blank cell, if it is blank after trimming. */
  function CellErrors(index: nat, p: Project, field: ProjectField): map<string, string> {
    if Trim(field.Of(p)) == "" then map[ProjectKey(index, field) := field.Message()] else map[]
  }

  /** The messages for both cells of one row. */
  function RowErrors(index: nat, p: Project): map<string, string> {
    CellErrors(index, p, ProjectNames) + CellErrors(index, p, Location)
  }

  /** The per-project pass (`projects.forEach`), rows added in index order. */
  function ProjectErrors(projects: seq<Project>): map<string, string>
    decreases |projects|
  {
    if |projects| == 0 then map[]
    else
      var last := |projects| - 1;
      ProjectErrors(projects[..last]) + RowErrors(last, projects[last])
  }

  /** `validateProcessRequest`: every rule is checked; nothing short-circuits. */
  function ValidateProcessRequest(data: ProcessRequest, availableTemplates: seq<string>): (r: ValidationResult)
    ensures r.isValid <==> r.errors == map[]
  {
    var errors := TemplateErrors(data.templateName, availableTemplates) + ProjectErrors(data.projects) + StartSnoErrors(data.projectsStartSno);
    assert errors == map[] <==> |errors| == 0 by {
      if |errors| == 0 {
        assert errors.Keys == {};
      }
    }
    ValidationResult(|errors| == 0, errors)
  }

  /** `validateProject`: both cells hold something other than whitespace. */
  function ValidateProject(p: Project): (r: bool)
    ensures r <==> !Blank(p.projectNames) && !Blank(p.location)
  {
    TrimEmptyIffBlank(p.projectNames);
    TrimEmptyIffBlank(p.location);
    |Trim(p.projectNames)| > 0 && |Trim(p.location)| > 0
  }

  /** A key some real row's cell could be filed under. */
  ghost predicate IsCellKey(projects: seq<Project>, key: string) {
    exists i: nat, f: ProjectField :: i < |projects| && key == ProjectKey(i, f)
  }

  /** What the per-project pass says about one cell. */
  ghost predicate CellAgrees(projects: seq<Project>, i: nat, f: ProjectField) {
    var m := ProjectErrors(projects);
    && (ProjectKey(i, f) in m <==> i < |projects| && Blank(f.Of(projects[i])))
    && (ProjectKey(i, f) in m ==> m[ProjectKey(i, f)] == f.Message())
  }

  /** A cell files its message only under its own path. */
  lemma CellErrorsAt(index: nat, p: Project, g: ProjectField, i: nat, f: ProjectField)
    ensures ProjectKey(i, f) in CellErrors(index, p, g) <==> i == index && f == g && Trim(g.Of(p)) == ""
    ensures ProjectKey(i, f) in CellErrors(index, p, g) ==> CellErrors(index, p, g)[ProjectKey(i, f)] == g.Message()
  {
    ProjectKeyInjective(i, f, index, g);
  }

  /** A row files messages only under its own cells. */
  lemma RowErrorsAt(index: nat, p: Project, i: nat, f: ProjectField)
    ensures ProjectKey(i, f) in RowErrors(index, p) <==> i == index && Trim(f.Of(p)) == ""
    ensures ProjectKey(i, f) in RowErrors(index, p) ==> RowErrors(index, p)[ProjectKey(i, f)] == f.Message()
  {
    CellErrorsAt(index, p, ProjectNames, i, f);
    CellErrorsAt(index, p, Location, i, f);
  }

  /** Adding the last row keeps what the shorter table says about a cell. */
  lemma CellStep(prev: seq<Project>, p: Project, i: nat, f: ProjectField)
    requires CellAgrees(prev, i, f)
    ensures CellAgrees(prev + [p], i, f)
  {
    var projects := prev + [p];
    var last := |prev|;
    var key := ProjectKey(i, f);
    assert projects[..last] == prev;
    assert ProjectErrors(projects) == ProjectErrors(prev) + RowErrors(last, p);
    RowErrorsAt(last, p, i, f);
    if i < last {
      assert prev[i] == projects[i];
      assert key !in RowErrors(last, p);
    } else if i == last {
      TrimEmptyIffBlank(f.Of(p));
      assert key !in ProjectErrors(prev);
    } else {
      assert key !in RowErrors(last, p);
    }
  }

  /** Every key of the per-project pass belongs to a real row's cell. */
  lemma {:induction false} ProjectErrorsOnlyCells(projects: seq<Project>)
    ensures forall key | key in ProjectErrors(projects) :: IsCellKey(projects, key)
    decreases |projects|
  {
    if |projects| > 0 {
      var last := |projects| - 1;
      var prev := projects[..last];
      ProjectErrorsOnlyCells(prev);
      forall key | key in ProjectErrors(projects)
        ensures IsCellKey(projects, key)
      {
        if key in ProjectErrors(prev) {
          var i: nat, f: ProjectField :| i < last && key == ProjectKey(i, f);
        } else {
          assert key in RowErrors(last, projects[last]);
          if key == ProjectKey(last, ProjectNames) {
          } else {
            assert key == ProjectKey(last, Location);
          }
        }
      }
    }
  }

  /** The per-project pass flags exactly the blank cells of real rows, each
      with its cell's message. */
  lemma {:induction false} ProjectErrorsExactly(projects: seq<Project>)
    ensures forall i: nat, f: ProjectField :: CellAgrees(projects, i, f)
    decreases |projects|
  {
    if |projects| > 0 {
      var last := |projects| - 1;
      ProjectErrorsExactly(projects[..last]);
      assert projects[..last] + [projects[last]] == projects;
      forall i: nat, f: ProjectField
        ensures CellAgrees(projects, i, f)
      {
        CellStep(projects[..last], projects[last], i, f);
      }
    }
  }

  /** No cell path collides with a field-level key. */
  lemma CellKeysAreNotFieldKeys(projects: seq<Project>)
    ensures TemplateName.Key() !in ProjectErrors(projects)
    ensures ProjectsStartSno.Key() !in ProjectErrors(projects)
  {
    ProjectErrorsOnlyCells(projects);
    forall i: nat, f: ProjectField
      ensures ProjectKey(i, f) != TemplateName.Key() && ProjectKey(i, f) != ProjectsStartSno.Key()
    {
      ProjectKeyIsNotFieldKey(i, f, TemplateName);
      ProjectKeyIsNotFieldKey(i, f, ProjectsStartSno);
    }
  }

  /** The error map is the union of the three rules' contributions. */
  lemma ErrorsDecompose(data: ProcessRequest, availableTemplates: seq<string>)
    ensures ValidateProcessRequest(data, availableTemplates).errors
      == TemplateErrors(data.templateName, availableTemplates)
        + ProjectErrors(data.projects)
        + StartSnoErrors(data.projectsStartSno)
  {
  }

  /** The template rule and the start-serial rule file under different keys. */
  lemma FieldRulesDisjoint(data: ProcessRequest, availableTemplates: seq<string>)
    ensures TemplateName.Key() !in StartSnoErrors(data.projectsStartSno)
    ensures ProjectsStartSno.Key() !in TemplateErrors(data.templateName, availableTemplates)
  {
  }

  /** The template message is the first failing template check's, and the only
      one: a name such as "C.docx" missing from the list gets "not available". */
  lemma TemplateRule(data: ProcessRequest, availableTemplates: seq<string>)
    ensures var errors := ValidateProcessRequest(data, availableTemplates).errors;
      && (TemplateName.Key() in errors <==> TemplateError(data.templateName, availableTemplates).Some?)
      && (TemplateName.Key() in errors ==>
            errors[TemplateName.Key()] == TemplateError(data.templateName, availableTemplates).value)
  {
    ErrorsDecompose(data, availableTemplates);
    CellKeysAreNotFieldKeys(data.projects);
    FieldRulesDisjoint(data, availableTemplates);
  }

  /** The start-serial message appears exactly when the serial is below 1. */
  lemma StartSnoRule(data: ProcessRequest, availableTemplates: seq<string>)
    ensures var errors := ValidateProcessRequest(data, availableTemplates).errors;
      && (ProjectsStartSno.Key() in errors <==> data.projectsStartSno < 1)
      && (ProjectsStartSno.Key() in errors ==> errors[ProjectsStartSno.Key()] == StartSnoTooSmall)
  {
    ErrorsDecompose(data, availableTemplates);
    CellKeysAreNotFieldKeys(data.projects);
    FieldRulesDisjoint(data, availableTemplates);
  }

  /** One message per blank cell of a real row, both cells of a row independently,
      and nothing for indices past the end. */
  lemma ProjectRule(data: ProcessRequest, availableTemplates: seq<string>, i: nat, f: ProjectField)
    ensures var errors := ValidateProcessRequest(data, availableTemplates).errors;
      && (ProjectKey(i, f) in errors <==> i < |data.projects| && Blank(f.Of(data.projects[i])))
      && (ProjectKey(i, f) in errors ==> errors[ProjectKey(i, f)] == f.Message())
  {
    ProjectErrorsExactly(data.projects);
    assert CellAgrees(data.projects, i, f);
    ProjectKeyIsNotFieldKey(i, f, TemplateName);
    ProjectKeyIsNotFieldKey(i, f, ProjectsStartSno);
  }

  /** The map holds no key other than the template key, the start-serial key
      and the paths of real rows' cells. */
  lemma NoOtherKeys(data: ProcessRequest, availableTemplates: seq<string>)
    ensures forall key | key in ValidateProcessRequest(data, availableTemplates).errors ::
      key == TemplateName.Key() || key == ProjectsStartSno.Key() || IsCellKey(data.projects, key)
  {
    ProjectErrorsOnlyCells(data.projects);
  }

  /** No cell of any row is blank. */
  predicate NoBlankCell(projects: seq<Project>) {
    forall i | 0 <= i < |projects| :: !Blank(projects[i].projectNames) && !Blank(projects[i].location)
  }

  /** The rules as a reader would state them: a known .docx template, no blank
      cell in any row, and a start serial of at least 1. */
  ghost predicate RulesHold(data: ProcessRequest, availableTemplates: seq<string>) {
    && data.templateName != ""
    && EndsWith(data.templateName, DocxExtension)
    && data.templateName in availableTemplates
    && NoBlankCell(data.projects)
    && data.projectsStartSno >= 1
  }

  /** A map whose keys are among {a, b}, holding a and not b, has exactly key a. */
  lemma SingleKey(m: map<string, string>, a: string, b: string)
    requires forall key | key in m :: key == a || key == b
    requires a in m && b !in m
    ensures m.Keys == {a}
  {
  }

  /** With no blank cell anywhere, only the two field-level keys can remain. */
  lemma CleanRowsLeaveFieldKeys(data: ProcessRequest, availableTemplates: seq<string>)
    requires NoBlankCell(data.projects)
    ensures forall key | key in ValidateProcessRequest(data, availableTemplates).errors ::
      key == TemplateName.Key() || key == ProjectsStartSno.Key()
  {
    NoOtherKeys(data, availableTemplates);
    forall i: nat, f: ProjectField
      ensures ProjectKey(i, f) !in ValidateProcessRequest(data, availableTemplates).errors
    {
      CleanCellNotFiled(data, availableTemplates, i, f);
    }
  }

  /** With no blank cell anywhere, no cell path is filed. */
  lemma CleanCellNotFiled(data: ProcessRequest, availableTemplates: seq<string>, i: nat, f: ProjectField)
    requires NoBlankCell(data.projects)
    ensures ProjectKey(i, f) !in ValidateProcessRequest(data, availableTemplates).errors
  {
    ProjectRule(data, availableTemplates, i, f);
    if i < |data.projects| {
      assert !Blank(f.Of(data.projects[i]));
    }
  }

  /** An empty error map means every rule holds. */
  lemma ValidImpliesRules(data: ProcessRequest, availableTemplates: seq<string>)
    ensures ValidateProcessRequest(data, availableTemplates).isValid ==> RulesHold(data, availableTemplates)
  {
    if ValidateProcessRequest(data, availableTemplates).isValid {
      TemplateRule(data, availableTemplates);
      StartSnoRule(data, availableTemplates);
      forall i | 0 <= i < |data.projects|
        ensures !Blank(data.projects[i].projectNames) && !Blank(data.projects[i].location)
      {
        ProjectRule(data, availableTemplates, i, ProjectNames);
        ProjectRule(data, availableTemplates, i, Location);
      }
    }
  }

  /** When every rule holds the error map is empty. */
  lemma RulesImplyValid(data: ProcessRequest, availableTemplates: seq<string>)
    requires RulesHold(data, availableTemplates)
    ensures ValidateProcessRequest(data, availableTemplates).isValid
  {
    var errors := ValidateProcessRequest(data, availableTemplates).errors;
    TemplateRule(data, availableTemplates);
    StartSnoRule(data, availableTemplates);
    CleanRowsLeaveFieldKeys(data, availableTemplates);
    assert errors.Keys == {};
  }

  /** The form is valid exactly when every rule holds; no rule short-circuits
      another. */
  lemma ValidIffRulesHold(data: ProcessRequest, availableTemplates: seq<string>)
    ensures ValidateProcessRequest(data, availableTemplates).isValid <==> RulesHold(data, availableTemplates)
  {
    ValidImpliesRules(data, availableTemplates);
    if RulesHold(data, availableTemplates) {
      RulesImplyValid(data, availableTemplates);
    }
  }

  /** `validateProject` agrees with the validator on that row: true exactly when
      neither of the row's cells has a message. */
  lemma ValidateProjectAgrees(data: ProcessRequest, availableTemplates: seq<string>, i: nat)
    requires i < |data.projects|
    ensures var errors := ValidateProcessRequest(data, availableTemplates).errors;
      ValidateProject(data.projects[i]) <==>
        ProjectKey(i, ProjectNames) !in errors && ProjectKey(i, Location) !in errors
  {
    ProjectRule(data, availableTemplates, i, ProjectNames);
    ProjectRule(data, availableTemplates, i, Location);
    TrimEmptyIffBlank(data.projects[i].projectNames);
    TrimEmptyIffBlank(data.projects[i].location);
  }

  /** A form whose only fault is its template gets a one-entry error map. */
  lemma OnlyTemplateFails(data: ProcessRequest, availableTemplates: seq<string>)
    requires TemplateError(data.templateName, availableTemplates).Some?
    requires NoBlankCell(data.projects)
    requires data.projectsStartSno >= 1
    ensures var errors := ValidateProcessRequest(data, availableTemplates).errors;
      errors.Keys == {TemplateName.Key()}
      && errors[TemplateName.Key()] == TemplateError(data.templateName, availableTemplates).value
  {
    var errors := ValidateProcessRequest(data, availableTemplates).errors;
    TemplateRule(data, availableTemplates);
    StartSnoRule(data, availableTemplates);
    CleanRowsLeaveFieldKeys(data, availableTemplates);
    SingleKey(errors, TemplateName.Key(), ProjectsStartSno.Key());
  }

  /** A form whose only fault is its start serial gets exactly that one message. */
  lemma OnlyStartSnoFails(data: ProcessRequest, availableTemplates: seq<string>)
    requires TemplateError(data.templateName, availableTemplates).None?
    requires NoBlankCell(data.projects)
    requires data.projectsStartSno < 1
    ensures var errors := ValidateProcessRequest(data, availableTemplates).errors;
      errors.Keys == {ProjectsStartSno.Key()} && errors[ProjectsStartSno.Key()] == StartSnoTooSmall
  {
    var errors := ValidateProcessRequest(data, availableTemplates).errors;
    TemplateRule(data, availableTemplates);
    StartSnoRule(data, availableTemplates);
    CleanRowsLeaveFieldKeys(data, availableTemplates);
    SingleKey(errors, ProjectsStartSno.Key(), TemplateName.Key());
  }

  /** With one blank cell, the per-cell keys reduce to that cell's path. */
  lemma OneBlankCellKeys(data: ProcessRequest, availableTemplates: seq<string>, i: nat, f: ProjectField)
    requires forall j: nat, g: ProjectField | j < |data.projects| && (j != i || g != f) ::
      !Blank(g.Of(data.projects[j]))
    ensures forall key | key in ValidateProcessRequest(data, availableTemplates).errors ::
      key == TemplateName.Key() || key == ProjectsStartSno.Key() || key == ProjectKey(i, f)
  {
    NoOtherKeys(data, availableTemplates);
    forall j: nat, g: ProjectField | j != i || g != f
      ensures ProjectKey(j, g) !in ValidateProcessRequest(data, availableTemplates).errors
    {
      ProjectRule(data, availableTemplates, j, g);
    }
  }

  /** A form whose only fault is one blank cell gets exactly that cell's message. */
  lemma OnlyCellFails(data: ProcessRequest, availableTemplates: seq<string>, i: nat, f: ProjectField)
    requires TemplateError(data.templateName, availableTemplates).None?
    requires data.projectsStartSno >= 1
    requires i < |data.projects| && Blank(f.Of(data.projects[i]))
    requires forall j: nat, g: ProjectField | j < |data.projects| && (j != i || g != f) ::
      !Blank(g.Of(data.projects[j]))
    ensures var errors := ValidateProcessRequest(data, availableTemplates).errors;
      errors.Keys == {ProjectKey(i, f)} && errors[ProjectKey(i, f)] == f.Message()
  {
    var errors := ValidateProcessRequest(data, availableTemplates).errors;
    TemplateRule(data, availableTemplates);
    StartSnoRule(data, availableTemplates);
    ProjectRule(data, availableTemplates, i, f);
    OneBlankCellKeys(data, availableTemplates, i, f);
    SingleKey(errors, ProjectKey(i, f), TemplateName.Key());
  }

  /** A name that ends in .docx but is not offered is refused as unavailable,
      never as a wrong extension: "C.docx" against ["A.docx", "B.docx"]. */
  lemma UnavailableTemplateExample(data: ProcessRequest)
    requires data.templateName == "C.docx"
    ensures var errors := ValidateProcessRequest(data, ["A.docx", "B.docx"]).errors;
      TemplateName.Key() in errors && errors[TemplateName.Key()] == TemplateUnavailable
  {
    TemplateRule(data, ["A.docx", "B.docx"]);
    assert EndsWith(data.templateName, DocxExtension);
  }
}
