/** The proposal page's controller: the form state, field edits, restoring
    the saved form, submission with the validator as a gate, folding backend
    field errors into the same message map, the download link and reset. */
module Dashboard {
  import opened Optional
  import opened Text
  import opened ApiTypes
  import opened Validation
  import Http
  import Endpoints
  import Storage
  import ProjectsEditor

  /** `DEFAULT_FORM_DATA`. */
  const DefaultForm := ProcessRequest("", Some(""), Some(""), Some(""), Some(""), [], [], 12)

  /** The page state: the form, the messages shown next to fields (keyed by
      field path), the last successful response, the templates on offer and
      whether a submission is in flight. */
  datatype State = State(
    form: ProcessRequest,
    errors: map<string, string>,
    result: Option<ProcessSuccess>,
    templates: seq<string>,
    processing: bool)

  const InitialState := State(DefaultForm, map[], None, [], false)

  /** `value: ProcessRequest[K]`: the value has the type of the field. */
  predicate Fits(f: Field, v: FieldValue) {
    match f
    case TemplateName => v.TextValue?
    case ForWhomProposalIs => v.OptionalText?
    case SubmittedTo => v.OptionalText?
    case Date => v.OptionalText?
    case Cost => v.OptionalText?
    case ExtraPoints => v.Points?
    case Projects => v.ProjectList?
    case ProjectsStartSno => v.Number?
  }

  /** `{ ...form, [f]: v }`. */
  function SetField(form: ProcessRequest, f: Field, v: FieldValue): (r: ProcessRequest)
    requires Fits(f, v)
    ensures Get(r, f) == v
    ensures forall g: Field | g != f :: Get(r, g) == Get(form, g)
  {
    match f
    case TemplateName => form.(templateName := v.text)
    case ForWhomProposalIs => form.(forWhomProposalIs := v.optionalText)
    case SubmittedTo => form.(submittedTo := v.optionalText)
    case Date => form.(date := v.optionalText)
    case Cost => form.(cost := v.optionalText)
    case ExtraPoints => form.(extraPoints := v.points)
    case Projects => form.(projects := v.projectList)
    case ProjectsStartSno => form.(projectsStartSno := v.number)
  }

  /** `updateFormField`: the field takes the value, and the field's message is
      dropped if it is shown (a non-empty message); nothing else changes. */
  function UpdateFormField(st: State, f: Field, v: FieldValue): (r: State)
    requires Fits(f, v)
    ensures Get(r.form, f) == v
    ensures forall g: Field | g != f :: Get(r.form, g) == Get(st.form, g)
    ensures r.errors.Keys <= st.errors.Keys
    ensures forall k | k in r.errors :: r.errors[k] == st.errors[k]
    ensures forall k | k in st.errors && k != f.Key() :: k in r.errors
    ensures f.Key() in r.errors <==> f.Key() in st.errors && st.errors[f.Key()] == ""
    ensures r.result == st.result && r.templates == st.templates && r.processing == st.processing
  {
    var key := f.Key();
    var errors := if key in st.errors && st.errors[key] != "" then st.errors - {key} else st.errors;
    st.(form := SetField(st.form, f, v), errors := errors)
  }

  /** Editing any field, the project list included, leaves every per-row
      message in place: row messages go only on the next validation. */
  lemma EditKeepsRowMessages(st: State, f: Field, v: FieldValue, i: nat, cell: ProjectField)
    requires Fits(f, v)
    requires ProjectKey(i, cell) in st.errors
    ensures ProjectKey(i, cell) in UpdateFormField(st, f, v).errors
  {
    ProjectKeyIsNotFieldKey(i, cell, f);
  }

  /** A shown message for the edited field disappears. */
  lemma EditClearsShownMessage(st: State, f: Field, v: FieldValue)
    requires Fits(f, v)
    requires f.Key() in st.errors && st.errors[f.Key()] != ""
    ensures f.Key() !in UpdateFormField(st, f, v).errors
  {
  }

  /** `{ ...base, ...snapshot }`: every key present in the snapshot wins. */
  function Overlay(base: ProcessRequest, snapshot: PartialRequest): (r: ProcessRequest)
    ensures forall f: Field :: Get(r, f) == if GetPartial(snapshot, f).Some? then GetPartial(snapshot, f).value else Get(base, f)
  {
    ProcessRequest(
      snapshot.templateName.GetOr(base.templateName),
      if snapshot.forWhomProposalIs.Some? then snapshot.forWhomProposalIs else base.forWhomProposalIs,
      if snapshot.submittedTo.Some? then snapshot.submittedTo else base.submittedTo,
      if snapshot.date.Some? then snapshot.date else base.date,
      if snapshot.cost.Some? then snapshot.cost else base.cost,
      snapshot.extraPoints.GetOr(base.extraPoints),
      snapshot.projects.GetOr(base.projects),
      snapshot.projectsStartSno.GetOr(base.projectsStartSno))
  }

  /** `loadSavedFormData`: a loaded snapshot is laid over the defaults;
      nothing loaded leaves the page as it is. */
  function LoadSavedFormData(st: State, saved: Option<PartialRequest>): (r: State)
    ensures saved.None? ==> r == st
    ensures r.errors == st.errors && r.result == st.result && r.templates == st.templates
    ensures r.processing == st.processing
    ensures saved.Some? ==> forall f: Field ::
      Get(r.form, f) == if GetPartial(saved.value, f).Some? then GetPartial(saved.value, f).value else Get(DefaultForm, f)
  {
    if saved.Some? then st.(form := Overlay(DefaultForm, saved.value)) else st
  }

  /** The effect that saves the form after every change. It skips the state
      that still holds the default object itself (`untouched`): the page as
      mounted and right after a reset. */
  function AutoSave(store: Storage.Store, codec: Storage.Codec, form: ProcessRequest, untouched: bool, fails: bool)
    : (after: Storage.Store)
    ensures untouched ==> after == store
    ensures !untouched ==> after == Storage.Save(store, codec, AsPartial(form), fails)
  {
    if untouched then store else Storage.Save(store, codec, AsPartial(form), fails)
  }

  /** The form as it comes back from storage: optional fields left
      `undefined` were not written and come back as the default "". */
  lemma RestoredForm(store: Storage.Store, codec: Storage.Codec, form: ProcessRequest)
    requires Storage.Faithful(codec, AsPartial(form))
    ensures var restored := LoadSavedFormData(InitialState,
        Storage.Load(AutoSave(store, codec, form, false, false), codec, false)).form;
      forall f: Field :: Get(restored, f) == if Get(form, f) == OptionalText(None) then OptionalText(Some("")) else Get(form, f)
  {
    Storage.LoadAfterSave(store, codec, AsPartial(form));
    var restored := LoadSavedFormData(InitialState, Some(AsPartial(form))).form;
    forall f: Field
      ensures Get(restored, f) == if Get(form, f) == OptionalText(None) then OptionalText(Some("")) else Get(form, f)
    {
      assert Get(DefaultForm, f).OptionalText? ==> Get(DefaultForm, f) == OptionalText(Some(""));
    }
  }

  /** Every optional field holds a string, as it does after any edit made
      through the page. */
  predicate OptionalsFilled(form: ProcessRequest) {
    form.forWhomProposalIs.Some? && form.submittedTo.Some? && form.date.Some? && form.cost.Some?
  }

  /** Such a form comes back from storage unchanged. */
  lemma RestoreAfterSave(store: Storage.Store, codec: Storage.Codec, form: ProcessRequest)
    requires Storage.Faithful(codec, AsPartial(form))
    requires OptionalsFilled(form)
    ensures LoadSavedFormData(InitialState,
      Storage.Load(AutoSave(store, codec, form, false, false), codec, false)).form == form
  {
    RestoredForm(store, codec, form);
    var restored := LoadSavedFormData(InitialState,
      Storage.Load(AutoSave(store, codec, form, false, false), codec, false)).form;
    assert Get(restored, TemplateName) == Get(form, TemplateName);
    assert Get(restored, ForWhomProposalIs) == Get(form, ForWhomProposalIs);
    assert Get(restored, SubmittedTo) == Get(form, SubmittedTo);
    assert Get(restored, Date) == Get(form, Date);
    assert Get(restored, Cost) == Get(form, Cost);
    assert Get(restored, ExtraPoints) == Get(form, ExtraPoints);
    assert Get(restored, Projects) == Get(form, Projects);
    assert Get(restored, ProjectsStartSno) == Get(form, ProjectsStartSno);
  }

  /** `isFormValid`, which enables the submit button: a template is chosen
      and no project cell is blank. */
  function IsFormValid(form: ProcessRequest): (r: bool)
    ensures r <==> form.templateName != "" && NoBlankCell(form.projects)
  {
    TrimmedRowsIffNoBlankCell(form.projects);
    && |form.templateName| > 0
    && forall i | 0 <= i < |form.projects| ::
         Trim(form.projects[i].projectNames) != "" && Trim(form.projects[i].location) != ""
  }

  /** The button's trimmed-text test is the validator's blank test, row by row. */
  lemma TrimmedRowsIffNoBlankCell(projects: seq<Project>)
    ensures (forall i | 0 <= i < |projects| ::
               Trim(projects[i].projectNames) != "" && Trim(projects[i].location) != "")
      <==> NoBlankCell(projects)
  {
    forall i | 0 <= i < |projects|
      ensures Trim(projects[i].projectNames) != "" <==> !Blank(projects[i].projectNames)
      ensures Trim(projects[i].location) != "" <==> !Blank(projects[i].location)
    {
      TrimEmptyIffBlank(projects[i].projectNames);
      TrimEmptyIffBlank(projects[i].location);
    }
  }

  /** The button's check is the validator without the template-list, extension
      and start-serial rules: anything the validator accepts enables the button,
      and an enabled form is accepted exactly when those three rules hold too. */
  lemma IsFormValidAgainstValidator(form: ProcessRequest, availableTemplates: seq<string>)
    ensures ValidateProcessRequest(form, availableTemplates).isValid <==>
      && IsFormValid(form)
      && EndsWith(form.templateName, DocxExtension)
      && form.templateName in availableTemplates
      && form.projectsStartSno >= 1
  {
    ValidIffRulesHold(form, availableTemplates);
    assert IsFormValid(form) <==> form.templateName != "" && NoBlankCell(form.projects);
  }

  /** A non-.docx template enables the button yet is refused on submit. */
  lemma EnabledButRefused(form: ProcessRequest)
    requires form.templateName == "report.pdf" && form.projects == [] && form.projectsStartSno == 12
    ensures IsFormValid(form)
    ensures var errors := ValidateProcessRequest(form, ["report.pdf"]).errors;
      TemplateName.Key() in errors && errors[TemplateName.Key()] == TemplateNotDocx
  {
    TemplateRule(form, ["report.pdf"]);
    assert !EndsWith(form.templateName, DocxExtension) by {
      assert form.templateName[9] != DocxExtension[4];
    }
  }

  /** The submit button: enabled for a form that passes `isFormValid` while
      nothing is in flight. */
  predicate SubmitEnabled(st: State): (r: bool)
    ensures r <==> (
      && !st.processing
      && st.form.templateName != ""
      && forall i | 0 <= i < |st.form.projects| :: ValidateProject(st.form.projects[i]))
  {
    IsFormValid(st.form) && !st.processing
  }

  datatype SubmitOutcome =
    | Refused(state: State)
    | Sent(state: State, payload: ProcessRequest)

  /** `handleSubmit` up to the request: the validator's messages replace the
      shown ones; only a valid form is sent, as it stands, and the page is
      marked busy. */
  function HandleSubmit(st: State): (out: SubmitOutcome)
    ensures out.state.errors == ValidateProcessRequest(st.form, st.templates).errors
    ensures out.Sent? <==> RulesHold(st.form, st.templates)
    ensures out.Sent? ==> out.payload == st.form && out.state.errors == map[] && out.state.processing
    ensures out.Refused? ==> out.state.errors != map[] && out.state.processing == st.processing
    ensures out.state.form == st.form && out.state.result == st.result && out.state.templates == st.templates
  {
    var validation := ValidateProcessRequest(st.form, st.templates);
    ValidIffRulesHold(st.form, st.templates);
    if validation.isValid then Sent(st.(errors := validation.errors, processing := true), st.form)
    else Refused(st.(errors := validation.errors))
  }

  /** While a submission is in flight the button is disabled, so the same form
      cannot be sent twice at once. */
  lemma NoDoubleSubmit(st: State)
    ensures HandleSubmit(st).Sent? ==> !SubmitEnabled(HandleSubmit(st).state)
  {
  }

  /** The success branch: the response is kept for the download panel. */
  function OnSubmitSuccess(st: State, response: ProcessSuccess): (r: State)
    ensures r.result == Some(response) && !r.processing
    ensures r.form == st.form && r.errors == st.errors && r.templates == st.templates
  {
    st.(result := Some(response), processing := false)
  }

  /** The dotted field path of a backend error: `loc.join('.')`. */
  function Path(e: ValidationError): string {
    Join(e.loc, '.')
  }

  /** Entry `i` exists and no later entry has the same path. */
  ghost predicate LastWithPath(errs: seq<ValidationError>, i: int) {
    && 0 <= i < |errs|
    && forall j | i < j < |errs| :: Path(errs[j]) != Path(errs[i])
  }

  /** The `forEach` that files each backend error under its path. */
  function BackendErrorMap(errs: seq<ValidationError>): map<string, string>
    decreases |errs|
  {
    if |errs| == 0 then map[]
    else BackendErrorMap(errs[..|errs| - 1])[Path(errs[|errs| - 1]) := errs[|errs| - 1].msg]
  }

  /** One key per path that occurs, and no other key. */
  lemma {:induction false} BackendErrorMapKeys(errs: seq<ValidationError>)
    ensures BackendErrorMap(errs).Keys == set i | 0 <= i < |errs| :: Path(errs[i])
    decreases |errs|
  {
    if |errs| > 0 {
      var n := |errs| - 1;
      BackendErrorMapKeys(errs[..n]);
      var front := set i | 0 <= i < n :: Path(errs[..n][i]);
      var all := set i | 0 <= i < |errs| :: Path(errs[i]);
      assert forall i | 0 <= i < n :: errs[..n][i] == errs[i];
      assert all == front + {Path(errs[n])} by {
        forall k | k in all ensures k in front + {Path(errs[n])} {
          var i :| 0 <= i < |errs| && Path(errs[i]) == k;
          if i < n {
            assert Path(errs[..n][i]) == k;
          }
        }
        forall k | k in front ensures k in all {
          var i :| 0 <= i < n && Path(errs[..n][i]) == k;
          assert Path(errs[i]) == k;
        }
      }
    }
  }

  /** When several entries share a path, the last one's message is kept. */
  lemma {:induction false} BackendErrorMapLastWins(errs: seq<ValidationError>, i: int)
    requires LastWithPath(errs, i)
    ensures Path(errs[i]) in BackendErrorMap(errs)
    ensures BackendErrorMap(errs)[Path(errs[i])] == errs[i].msg
    decreases |errs|
  {
    var n := |errs| - 1;
    if i < n {
      assert errs[..n][i] == errs[i];
      assert LastWithPath(errs[..n], i) by {
        forall j | i < j < n ensures Path(errs[..n][j]) != Path(errs[..n][i]) {
          assert errs[..n][j] == errs[j];
        }
      }
      BackendErrorMapLastWins(errs[..n], i);
    }
  }

  /** The failure branch: field errors from the backend replace the shown
      messages; any other failure leaves them alone. The last result stays. */
  function OnSubmitFailure(st: State, err: NormalizedError): (r: State)
    ensures err.validationErrors.Some? ==> r.errors == BackendErrorMap(err.validationErrors.value)
    ensures err.validationErrors.None? ==> r.errors == st.errors
    ensures r.form == st.form && r.result == st.result && !r.processing
    ensures r.templates == st.templates
  {
    var errors := if err.validationErrors.Some? then BackendErrorMap(err.validationErrors.value) else st.errors;
    st.(errors := errors, processing := false)
  }

  /** A backend path `["projects", "<i>", "<field>"]` is the key the project
      editor looks up for that cell. */
  lemma BackendPathIsProjectKey(i: nat, f: ProjectField, msg: string, kind: string)
    ensures Path(ValidationError([Projects.Key(), NatToDecimal(i), f.Key()], msg, kind)) == ProjectKey(i, f)
  {
  }

  /** A 422 naming one project cell shows its message under that cell. */
  lemma BackendCellErrorShown(st: State, i: nat, f: ProjectField, msg: string, kind: string, transport: string)
    ensures
      var entry := ValidationError([Projects.Key(), NatToDecimal(i), f.Key()], msg, kind);
      var err := Http.Normalize(Http.Failure(Some(Http.Response(422, Some(Http.ListDetail([entry])))), transport));
      ProjectsEditor.GetFieldError(OnSubmitFailure(st, err).errors, i, f) == Some(msg)
  {
    var entry := ValidationError([Projects.Key(), NatToDecimal(i), f.Key()], msg, kind);
    BackendPathIsProjectKey(i, f, msg, kind);
    BackendErrorMapLastWins([entry], 0);
  }

  /** `name` is the `/`-free tail of `url` that is all of it or follows its last `/`. */
  predicate LastSegment(url: string, name: string) {
    && '/' !in name
    && EndsWith(url, name)
    && (name == url || url[|url| - |name| - 1] == '/')
  }

  /** `handleDownload`: with a result whose `download_url` is set, open the
      download address of the URL's last path segment. */
  function HandleDownload(result: Option<ProcessSuccess>, configured: Option<string>): (url: Option<string>)
    ensures url.Some? <==> result.Some? && result.value.downloadUrl != ""
    ensures url.Some? ==> exists name | LastSegment(result.value.downloadUrl, name) ::
      url.value == Endpoints.GetDownloadUrl(configured, name)
  {
    if result.Some? && result.value.downloadUrl != "" then
      var name := LastPiece(result.value.downloadUrl, '/');
      LastPieceShape(result.value.downloadUrl, '/');
      assert LastSegment(result.value.downloadUrl, name);
      Some(Endpoints.GetDownloadUrl(configured, name))
    else
      None
  }

  /** The backend's path `/api/download/<file>` and a full address on another
      host lead to the same download address. */
  lemma DownloadOfServedPath(response: ProcessSuccess, configured: Option<string>, prefix: string, file: string)
    requires response.downloadUrl == prefix + ['/'] + file && '/' !in file
    ensures HandleDownload(Some(response), configured) == Some(Endpoints.GetDownloadUrl(configured, file))
  {
    LastPieceAfterSep(prefix, file, '/');
  }

  /** A bare file name is used as it is. */
  lemma DownloadOfBareName(response: ProcessSuccess, configured: Option<string>)
    requires response.downloadUrl != "" && '/' !in response.downloadUrl
    ensures HandleDownload(Some(response), configured) == Some(Endpoints.GetDownloadUrl(configured, response.downloadUrl))
  {
    LastPieceShape(response.downloadUrl, '/');
  }

  /** Downloading from an address the page built itself opens that address. */
  lemma DownloadIdempotent(response: ProcessSuccess, configured: Option<string>, file: string)
    requires '/' !in file
    requires response.downloadUrl == Endpoints.GetDownloadUrl(configured, file)
    ensures HandleDownload(Some(response), configured) == Some(response.downloadUrl)
  {
    Endpoints.LastSegmentIsFile(configured, file);
  }

  /** `handleReset`: defaults, no result, no messages, and the saved form erased. */
  function HandleReset(st: State, store: Storage.Store, clearFails: bool): (r: (State, Storage.Store))
    ensures r.0.form == DefaultForm && r.0.result == None && r.0.errors == map[]
    ensures r.0.templates == st.templates && r.0.processing == st.processing
    ensures r.1 == Storage.Clear(store, clearFails)
  {
    (st.(form := DefaultForm, result := None, errors := map[]), Storage.Clear(store, clearFails))
  }

  /** After a reset whose clear succeeded, a reload starts from the defaults:
      the autosave skips the default object and nothing is left to load. */
  lemma ResetThenReload(st: State, store: Storage.Store, codec: Storage.Codec, readFails: bool)
    ensures var (after, cleared) := HandleReset(st, store, false);
      var kept := AutoSave(cleared, codec, after.form, true, false);
      LoadSavedFormData(InitialState, Storage.Load(kept, codec, readFails)).form == DefaultForm
  {
    Storage.LoadAfterClear(store, codec, readFails);
  }
}
