/** The request and response shapes exchanged with the proposal backend. */
module ApiTypes {
  import opened Optional

  /** One row of the project list, `{Project_Names, Location}` on the wire. */
  datatype Project = Project(projectNames: string, location: string)

  /** The submission payload. The four free-text fields are optional
      (`undefined` is `None`). */
  datatype ProcessRequest = ProcessRequest(
    templateName: string,
    forWhomProposalIs: Option<string>,
    submittedTo: Option<string>,
    date: Option<string>,
    cost: Option<string>,
    extraPoints: seq<string>,
    projects: seq<Project>,
    projectsStartSno: int)

  /** `Partial<ProcessRequest>`: a saved snapshot in which any key may be missing. */
  datatype PartialRequest = PartialRequest(
    templateName: Option<string>,
    forWhomProposalIs: Option<string>,
    submittedTo: Option<string>,
    date: Option<string>,
    cost: Option<string>,
    extraPoints: Option<seq<string>>,
    projects: Option<seq<Project>>,
    projectsStartSno: Option<int>)

  /** A successful processing response; `success` is always `true` and is not kept. */
  datatype ProcessSuccess = ProcessSuccess(message: string, outputFile: string, downloadUrl: string)

  datatype HealthResponse = HealthResponse(status: string, service: string, message: string)

  /** One entry of a structured backend failure; `errorType` is the wire field `type`. */
  datatype ValidationError = ValidationError(loc: seq<string>, msg: string, errorType: string)

  /** The single failure shape every remote call rejects with. */
  datatype NormalizedError = NormalizedError(
    status: int,
    message: string,
    validationErrors: Option<seq<ValidationError>>)

  /** The keys of `ProcessRequest` (`keyof ProcessRequest`). */
  datatype Field =
    | TemplateName | ForWhomProposalIs | SubmittedTo | Date | Cost
    | ExtraPoints | Projects | ProjectsStartSno
  {
    /** The key as it appears in the JSON payload and in error maps. */
    function Key(): string {
      match this
      case TemplateName => "template_name"
      case ForWhomProposalIs => "for_whom_proposal_is"
      case SubmittedTo => "submitted_to"
      case Date => "date"
      case Cost => "cost"
      case ExtraPoints => "extra_points"
      case Projects => "projects"
      case ProjectsStartSno => "projects_start_sno"
    }
  }

  /** The value stored under one key, whatever its type. */
  datatype FieldValue =
    | TextValue(text: string)
    | OptionalText(optionalText: Option<string>)
    | Points(points: seq<string>)
    | ProjectList(projectList: seq<Project>)
    | Number(number: int)

  /** `form[f]`. */
  function Get(form: ProcessRequest, f: Field): FieldValue {
    match f
    case TemplateName => TextValue(form.templateName)
    case ForWhomProposalIs => OptionalText(form.forWhomProposalIs)
    case SubmittedTo => OptionalText(form.submittedTo)
    case Date => OptionalText(form.date)
    case Cost => OptionalText(form.cost)
    case ExtraPoints => Points(form.extraPoints)
    case Projects => ProjectList(form.projects)
    case ProjectsStartSno => Number(form.projectsStartSno)
  }

  /** `snapshot[f]`, or `None` when the key is missing from the snapshot. */
  function GetPartial(snapshot: PartialRequest, f: Field): Option<FieldValue> {
    match f
    case TemplateName =>
      if snapshot.templateName.Some? then Some(TextValue(snapshot.templateName.value)) else None
    case ForWhomProposalIs =>
      if snapshot.forWhomProposalIs.Some? then Some(OptionalText(snapshot.forWhomProposalIs)) else None
    case SubmittedTo =>
      if snapshot.submittedTo.Some? then Some(OptionalText(snapshot.submittedTo)) else None
    case Date =>
      if snapshot.date.Some? then Some(OptionalText(snapshot.date)) else None
    case Cost =>
      if snapshot.cost.Some? then Some(OptionalText(snapshot.cost)) else None
    case ExtraPoints =>
      if snapshot.extraPoints.Some? then Some(Points(snapshot.extraPoints.value)) else None
    case Projects =>
      if snapshot.projects.Some? then Some(ProjectList(snapshot.projects.value)) else None
    case ProjectsStartSno =>
      if snapshot.projectsStartSno.Some? then Some(Number(snapshot.projectsStartSno.value)) else None
  }

  /** A whole form seen as a snapshot: every key is present except optional
      fields that are `undefined`, which JSON serialisation drops. */
  function AsPartial(form: ProcessRequest): (p: PartialRequest)
    ensures forall f: Field ::
      GetPartial(p, f) == if Get(form, f) == OptionalText(None) then None else Some(Get(form, f))
  {
    PartialRequest(
      Some(form.templateName), form.forWhomProposalIs, form.submittedTo, form.date, form.cost,
      Some(form.extraPoints), Some(form.projects), Some(form.projectsStartSno))
  }
}
