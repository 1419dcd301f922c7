# Proposal form front end — a Dafny model of its logic

The application is a single-page form. The user picks a document template,
fills in proposal details and an ordered list of projects, and submits. A
backend renders the document and returns a download link. This project models
the parts of the front end that have rules of their own:

- **the validator** that gates submission. It keeps one message per failing
  rule under a dotted field path (`template_name`, `projects.3.Location`,
  `projects_start_sno`).
- **the error normalizer** that turns every failed request into one
  `{status, message, validationErrors?}` shape.
- **persistence** of the form under the store key `proposal_form_data`. It
  is restored on load by laying the snapshot over the defaults.
- **the page controller**: field edits and the messages they clear, the
  submit gate, backend field errors mapped onto the same paths, the
  submit-enable check, the download address, and reset.
- **the two list editors** (projects and extra points), the start-serial
  input (`parseInt(value) || 1`) and the row numbering.
- **the health badge.**

Modules follow the source files:

| module | file |
|---|---|
| `ApiTypes` | `types/api.ts` |
| `Validation` | `utils/validation.ts` |
| `Http` | `api/http.ts` |
| `Endpoints` | `api/endpoints.ts` |
| `Storage` | `utils/storage.ts` |
| `ProjectsEditor` | `ProjectsEditor.tsx` |
| `ExtraPoints` | `ExtraPointsList.tsx` |
| `Header` | `Header.tsx` |
| `Dashboard` | `Dashboard.tsx` |

`Text` models the JavaScript string built-ins the code relies on:

- `trim` and `trimStart`, over ECMAScript's white-space and line-terminator
  set;
- `split` and `join` with a one-character separator;
- decimal rendering of an index in a template literal;
- base-10 `parseInt`.

`ListEdit` holds the array edits both editors share. `Optional` stands for
`undefined`, `null` and absent keys.

Things outside the model become parameters:

- **Browser storage** is a `map<string, string>`.
- **The JSON codec** is a pair of functions. Loading after saving restores
  the snapshot when the codec round-trips it.
- **Failures** are a boolean per call: a store exception or a serializer that
  throws. Such failures are swallowed.
- **The configured base address** (`VITE_API_BASE`) is an `Option<string>`.

Behaviour the proofs bring out:

- **A submit can be enabled and still refused.** The submit button's
  `isFormValid` is weaker than the validator. It ignores the `.docx`
  extension, the template list and the start serial.
- **Row messages outlive edits.** Editing the project list never clears a
  per-row message. `updateFormField` only drops the key named after the
  edited field, and a row message is never filed under such a key.
- **A response with an empty body keeps its HTTP status.** The status is
  0 only when no response arrived at all.

## Model

| member | source | states |
|---|---|---|
| `Text.Trim` | src/utils/validation.ts:25 | the trimmed text has no white space at either end and is no longer than the input |
| `Text.TrimIsMiddle` | src/utils/validation.ts:25 | what `trim` keeps is a contiguous middle part of the text, and everything removed before and after it is white space |
| `Text.TrimEmptyIffBlank` | src/utils/validation.ts:28 | `!s.trim()` holds exactly when every character of `s` is white space, the empty string included |
| `Text.DecimalRoundTrip` | src/utils/validation.ts:26 | the digits an index renders to in a template literal read back as that index |
| `Text.SplitJoin` | src/pages/Dashboard.tsx:143 | joining separator-free pieces with `.` and splitting again gives the pieces back |
| `Text.JoinSplit` | src/pages/Dashboard.tsx:161 | joining the pieces of a split with the separator restores the string |
| `Text.LastPiece` | src/pages/Dashboard.tsx:161 | `split('/').pop()`: the piece after the last separator, which never contains the separator; `LastPieceShape` and `LastPieceAfterSep` pin it down |
| `Text.LastPieceShape` | src/pages/Dashboard.tsx:161 | `split('/').pop()` holds no `/`, ends the string, and is either the whole string or preceded by `/` |
| `Text.LastPieceAfterSep` | src/pages/Dashboard.tsx:161 | whatever comes before the last `/`, the popped piece is what follows it |
| `Text.ParseInt` | src/components/ProjectsEditor.tsx:61 | `parseInt` on decimal text: skip leading white space, read one optional sign, then the longest digit run; no digits gives `NaN` (`None`). Its meaning is stated by the `ParseInt…` lemmas below |
| `Text.ParseIntLeadingDigits` | src/components/ProjectsEditor.tsx:61 | `parseInt` reads the leading digit run and ignores what follows it, e.g. `"12.5"` reads as 12 |
| `Text.ParseIntNegative` | src/components/ProjectsEditor.tsx:61 | a leading minus sign negates the number read after it |
| `Text.ParseIntNoDigits` | src/components/ProjectsEditor.tsx:61 | text without any digit parses to `NaN` |
| `Text.ParseIntRoundTrip` | src/components/ProjectsEditor.tsx:61 | a rendered non-negative number parses back to itself |
| `Text.ParseIntNegativeRoundTrip` | src/components/ProjectsEditor.tsx:61 | `-` followed by a rendered number parses to its negation |
| `ApiTypes.AsPartial` | src/utils/storage.ts:9 | the snapshot written for a form holds every key except optional fields left `undefined`, which serialization drops |
| `Validation.ProjectKey` | src/utils/validation.ts:26 | a cell's path starts with `projects.` |
| `Validation.ProjectKeyRoundTrip` | src/utils/validation.ts:26 | every cell path reads back as its row and cell |
| `Validation.ProjectKeyInjective` | src/utils/validation.ts:29 | two cells share a path exactly when they are the same row and cell |
| `Validation.ProjectKeyIsNotFieldKey` | src/utils/validation.ts:26 | no cell path is the name of a top-level field |
| `Validation.TemplateError` | src/utils/validation.ts:15-21 | empty name gets "required"; a name not ending in `.docx` gets "must be a .docx file"; a `.docx` name missing from the list gets "not available"; otherwise there is no message |
| `Validation.TemplateErrors` | src/utils/validation.ts:15-21 | the template rule files at most one message, under `template_name`, and only when the template is refused |
| `Validation.StartSnoErrors` | src/utils/validation.ts:34-36 | the start serial is refused exactly below 1, under `projects_start_sno` |
| `Validation.ValidateProcessRequest` | src/utils/validation.ts:38-41 | the result is valid exactly when the error map is empty |
| `Validation.ProjectErrors` | src/utils/validation.ts:24-31 | the per-project pass, rows filed in index order; what it files is stated by `ProjectErrorsExactly` and `ProjectErrorsOnlyCells` |
| `Validation.ProjectErrorsExactly` | src/utils/validation.ts:24-31 | the per-project pass files a message for a cell exactly when that cell of an existing row is blank, with the cell's own message |
| `Validation.ProjectErrorsOnlyCells` | src/utils/validation.ts:24-31 | the per-project pass files nothing but paths of existing rows' cells |
| `Validation.TemplateRule` | src/utils/validation.ts:15-21 | in the full map, `template_name` is present exactly when the template is refused, with the first failing check's message |
| `Validation.StartSnoRule` | src/utils/validation.ts:34-36 | in the full map, `projects_start_sno` is present exactly when the serial is below 1 |
| `Validation.ProjectRule` | src/utils/validation.ts:24-31 | in the full map, a cell's path is present exactly when it names a blank cell of an existing row, with that cell's message |
| `Validation.NoOtherKeys` | src/utils/validation.ts:12-36 | the map holds no key besides `template_name`, `projects_start_sno` and existing cells' paths |
| `Validation.ValidIffRulesHold` | src/utils/validation.ts:14-41 | the form is valid exactly when the template is a listed `.docx` name, no row has a blank cell and the serial is at least 1; no rule masks another |
| `Validation.ValidateProject` | src/utils/validation.ts:44-46 | a row passes exactly when neither its name nor its location is blank |
| `Validation.ValidateProjectAgrees` | src/utils/validation.ts:44-46 | `validateProject` accepts a row exactly when the validator files no message for either of its cells |
| `Validation.OnlyTemplateFails` | src/utils/validation.ts:15-21 | a form failing only the template rule gets a one-entry map holding that rule's message |
| `Validation.OnlyStartSnoFails` | src/utils/validation.ts:34-36 | a form failing only the start-serial rule gets a one-entry map, `projects_start_sno` with "Starting S. No. must be at least 1" |
| `Validation.OnlyCellFails` | src/utils/validation.ts:24-31 | a form whose only fault is one blank cell gets a one-entry map: that cell's path with that cell's message |
| `Validation.UnavailableTemplateExample` | src/utils/validation.ts:19-20 | `C.docx` against `[A.docx, B.docx]` is refused as not available, not as a wrong extension |
| `Http.BaseUrl` | src/api/http.ts:6 | the base address is never empty; it is the configured one unless that is unset or empty, then the local default |
| `Http.Normalize` | src/api/http.ts:31-52 | status is the response's or 0. Field errors are kept verbatim exactly when the detail is a list, with the fixed message. A text detail becomes the message, even when empty. Without a body the message is the transport's when non-empty and "Network error occurred" otherwise, with no field errors; the transport message is used only in that case. An empty message arises only from an empty text detail |
| `Http.MessageProvenance` | src/api/http.ts:32-49 | the message is the server's text, the fixed validation message, the transport's message or the generic one |
| `Http.NoResponse` | src/api/http.ts:33-34 | with no response at all the result is exactly status 0, the transport's message if non-empty or else "Network error occurred", and no field errors |
| `Http.TextDetailExample` | src/api/http.ts:40-41 | `{detail: "X"}` with status 400 normalizes to status 400, message "X" and no field errors |
| `Http.ListDetailExample` | src/api/http.ts:42-45 | a 422 listing one missing location keeps that one entry and reports "Validation errors occurred" |
| `Http.OtherDetailKeepsGenericMessage` | src/api/http.ts:37-46 | a body whose detail is neither text nor a list keeps the generic message, even if the transport supplied one |
| `Http.EmptyBodyKeepsStatus` | src/api/http.ts:47-49 | a response with an empty body keeps its status and uses the transport message |
| `Endpoints.GetDownloadUrl` | src/api/endpoints.ts:30-33 | the address starts with the base address and `/api/download/`, ends with the file name, and is exactly as long as the three parts |
| `Endpoints.DownloadedFile` | src/api/endpoints.ts:32 | a file name read off an address builds that address again |
| `Endpoints.DownloadUrlRoundTrip` | src/api/endpoints.ts:32 | reading the file name off a built address gives the name back |
| `Endpoints.DownloadUrlInjective` | src/api/endpoints.ts:32 | different file names give different addresses |
| `Endpoints.LastSegmentIsFile` | src/api/endpoints.ts:30-33 | for a name without `/`, the last path segment of the address is the name, whatever the base address |
| `Storage.Save` | src/utils/storage.ts:5-13 | a successful save stores the serialized snapshot under the form key; a failed one changes nothing; other keys are untouched |
| `Storage.Load` | src/utils/storage.ts:15-23 | a snapshot is loaded only if reading succeeds and the key holds non-empty text the parser accepts, and then it is the parsed value |
| `Storage.Clear` | src/utils/storage.ts:25-31 | a successful clear removes the form key and nothing else; a failed one changes nothing |
| `Storage.LoadAfterSave` | src/utils/storage.ts:5-23 | with a codec that round-trips the snapshot, loading after a save gives the snapshot back |
| `Storage.LoadAfterClear` | src/utils/storage.ts:15-31 | after a successful clear nothing is loaded |
| `Storage.SaveOverwrites` | src/utils/storage.ts:9 | a later save replaces an earlier one |
| `Storage.FailedSaveKeepsPrevious` | src/utils/storage.ts:6-12 | a save that throws leaves the previous snapshot loadable |
| `Storage.LoadIgnoresOtherKeys` | src/utils/storage.ts:17 | loading reads the form key and no other |
| `Storage.ClearIdempotent` | src/utils/storage.ts:27 | clearing twice is clearing once |
| `ListEdit.RemoveAt` | src/components/ProjectsEditor.tsx:24-26 | filtering out one position keeps the elements before and after it in order; a position outside the list removes nothing |
| `ListEdit.RemoveAtShifts` | src/components/ExtraPointsList.tsx:17-19 | after a removal, earlier elements keep their positions and later ones move up by one |
| `ListEdit.RemoveAppended` | src/components/ExtraPointsList.tsx:13-19 | appending an element and removing its position restores the list |
| `ListEdit.SetAt` | src/components/ExtraPointsList.tsx:21-25 | writing a position inside the list replaces that element only; one past the end appends; a negative position changes no element; further out cannot be represented |
| `ListEdit.SetAtRestore` | src/components/ExtraPointsList.tsx:21-25 | writing back the old value undoes an update |
| `ListEdit.SetAtTwice` | src/components/ExtraPointsList.tsx:21-25 | of two writes to one position the later wins |
| `ProjectsEditor.AddProject` | src/components/ProjectsEditor.tsx:20-22 | the list grows by one row at the end, the earlier rows are unchanged, and the new row has an empty name and an empty location |
| `ProjectsEditor.AddedRowInvalid` | src/utils/validation.ts:44-46 | the row `addProject` appends does not pass `validateProject` |
| `ProjectsEditor.RemoveProject` | src/components/ProjectsEditor.tsx:24-26 | the row at the index is dropped and the others keep their order; any other index changes nothing; a list whose every row passes `validateProject` still passes after a removal |
| `ProjectsEditor.SetCell` | src/components/ProjectsEditor.tsx:30 | the written cell takes the value and the other cell is unchanged |
| `ProjectsEditor.UpdateProject` | src/components/ProjectsEditor.tsx:28-32 | only an existing row can be written: its cell takes the value, everything else is unchanged; any other index throws and changes nothing |
| `ProjectsEditor.GetFieldError` | src/components/ProjectsEditor.tsx:34-36 | a cell shows the message stored under its path, if any; `FieldErrorFromValidator` ties that path to the validator's |
| `ProjectsEditor.FieldErrorFromValidator` | src/components/ProjectsEditor.tsx:34-36 | against the validator's map, a cell shows a message exactly when it is blank, and the message is that cell's |
| `ProjectsEditor.NewRowFlagged` | src/components/ProjectsEditor.tsx:20-22 | a freshly added row gets both cell messages on the next validation |
| `ProjectsEditor.DisplayNumber` | src/components/ProjectsEditor.tsx:81 | row `i` is labelled with the start serial plus `i`; `LabelledSplit` and `RenumberAfterRemove` say what this means for the list |
| `ProjectsEditor.RenumberAfterRemove` | src/components/ProjectsEditor.tsx:24-26 | after `removeProject` the labelled list is the rows before the removed one with their old labels, then the rows after it labelled on from the removed row's number |
| `ProjectsEditor.LabelledSplit` | src/components/ProjectsEditor.tsx:81 | labelling a list in two parts numbers the second part on from where the first ends, so labels are consecutive |
| `ProjectsEditor.StartSnoInput` | src/components/ProjectsEditor.tsx:61 | the stored serial is never 0, and it is below 1 only when the text parsed to that negative number |
| `ProjectsEditor.CoerceStartSno` | src/components/ProjectsEditor.tsx:61 | the stored serial is never 0: `NaN` and 0 fall back to 1, any other parsed number is kept |
| `ProjectsEditor.CoercedStartSnoValid` | src/components/ProjectsEditor.tsx:61 | the stored serial is at least 1 exactly when the text did not parse to a negative number |
| `ProjectsEditor.StartSnoInputExamples` | src/components/ProjectsEditor.tsx:61 | typing a positive number stores it; typing `0` or an empty box stores 1 |
| `ProjectsEditor.NegativeStartSnoInput` | src/components/ProjectsEditor.tsx:61 | typing `-n` stores `-n` |
| `ProjectsEditor.NegativeStartSnoRejected` | src/utils/validation.ts:34-36 | a serial typed as `-n` is then refused by the validator |
| `ExtraPoints.AddPoint` | src/components/ExtraPointsList.tsx:13-15 | the list grows by one empty point at the end |
| `ExtraPoints.RemovePoint` | src/components/ExtraPointsList.tsx:17-19 | the point at the index is dropped and the others keep their order; any other index changes nothing |
| `ExtraPoints.UpdatePoint` | src/components/ExtraPointsList.tsx:21-25 | an existing point takes the value and no other changes; one past the end appends; a negative index changes nothing |
| `ExtraPoints.AddThenRemove` | src/components/ExtraPointsList.tsx:13-19 | adding a point and removing it restores the list |
| `ExtraPoints.AddThenUpdate` | src/components/ExtraPointsList.tsx:13-25 | typing into a freshly added point is appending the text |
| `ExtraPoints.UpdateRestore` | src/components/ExtraPointsList.tsx:21-25 | editing a point back to its old text undoes the edit |
| `Header.GetHealthStatus` | src/components/Header.tsx:15-18 | loading while the check runs; healthy exactly when not loading and the response status is exactly `healthy` |
| `Header.UnhealthyCases` | src/components/Header.tsx:17 | a missing response, `Healthy` and `degraded` all show as unhealthy |
| `Dashboard.SetField` | src/pages/Dashboard.tsx:87 | the edited field takes the value and every other field keeps its own |
| `Dashboard.UpdateFormField` | src/pages/Dashboard.tsx:83-96 | only the edited field changes. No message is added or altered. The only message that can go is the edited field's, and it stays exactly when it was there and empty |
| `Dashboard.EditKeepsRowMessages` | src/pages/Dashboard.tsx:89-95 | no edit, not even of the project list, clears a per-row message |
| `Dashboard.EditClearsShownMessage` | src/pages/Dashboard.tsx:90-95 | a shown message for the edited field is removed |
| `Dashboard.Overlay` | src/pages/Dashboard.tsx:79 | every key present in the snapshot wins over the default; missing keys keep the default |
| `Dashboard.LoadSavedFormData` | src/pages/Dashboard.tsx:76-81 | nothing loaded leaves the page as it is; otherwise only the form changes, to the snapshot over the defaults, and messages, result, templates and busy flag stay |
| `Dashboard.AutoSave` | src/pages/Dashboard.tsx:43-47 | the untouched default form is not saved; any other form is saved as its snapshot; `RestoredForm` and `ResetThenReload` give the round trip |
| `Dashboard.RestoredForm` | src/pages/Dashboard.tsx:43-81 | a saved form comes back field by field, with optional fields left `undefined` coming back as "" |
| `Dashboard.RestoreAfterSave` | src/pages/Dashboard.tsx:43-81 | a form whose optional fields are all set comes back from storage unchanged |
| `Dashboard.IsFormValid` | src/pages/Dashboard.tsx:166-169 | the button check holds exactly when a template is chosen and no cell of any row is blank |
| `Dashboard.TrimmedRowsIffNoBlankCell` | src/pages/Dashboard.tsx:168 | every row having non-empty trimmed cells is the same as no cell being blank |
| `Dashboard.IsFormValidAgainstValidator` | src/pages/Dashboard.tsx:166-169 | the validator accepts exactly the forms that pass `isFormValid` and also have a listed `.docx` template and a serial of at least 1 |
| `Dashboard.EnabledButRefused` | src/pages/Dashboard.tsx:166-169 | a `report.pdf` template enables the button yet is refused as not `.docx` |
| `Dashboard.SubmitEnabled` | src/pages/Dashboard.tsx:277 | the button is enabled exactly when nothing is in flight, a template is chosen and every row passes `validateProject` |
| `Dashboard.HandleSubmit` | src/pages/Dashboard.tsx:111-125 | the validator's messages replace the shown ones. The form is sent, as it stands, exactly when every rule holds, and the page is then busy with no messages. A refused form always shows at least one message |
| `Dashboard.NoDoubleSubmit` | src/pages/Dashboard.tsx:277 | once a form is sent the button is disabled |
| `Dashboard.OnSubmitSuccess` | src/pages/Dashboard.tsx:128-129 | the response is kept and the page is no longer busy; form, messages and templates are unchanged |
| `Dashboard.BackendErrorMap` | src/pages/Dashboard.tsx:141-145 | the `forEach` over the backend's errors, each filed under `loc.join('.')`; its keys and values are stated by `BackendErrorMapKeys` and `BackendErrorMapLastWins` |
| `Dashboard.BackendErrorMapKeys` | src/pages/Dashboard.tsx:141-145 | the backend's errors are filed under exactly the dotted paths that occur |
| `Dashboard.BackendErrorMapLastWins` | src/pages/Dashboard.tsx:142-145 | when several errors share a path, the last one's message is kept |
| `Dashboard.OnSubmitFailure` | src/pages/Dashboard.tsx:136-155 | backend field errors replace the shown messages; other failures leave them; the page is no longer busy; the previous result, the form and the templates stay |
| `Dashboard.BackendPathIsProjectKey` | src/pages/Dashboard.tsx:143 | the backend path `["projects", i, field]` joins to the key the project editor looks up |
| `Dashboard.BackendCellErrorShown` | src/pages/Dashboard.tsx:139-146 | a 422 naming one project cell shows its message under that cell |
| `Dashboard.HandleDownload` | src/pages/Dashboard.tsx:159-164 | an address is opened exactly when there is a result with a download URL, and it is the download address of a `/`-free tail of that URL that is either the whole URL or follows a `/` |
| `Dashboard.DownloadOfServedPath` | src/pages/Dashboard.tsx:161 | a URL ending in `/file` opens the download address of `file`, whatever comes before |
| `Dashboard.DownloadOfBareName` | src/pages/Dashboard.tsx:161 | a URL without `/` is used as the file name |
| `Dashboard.DownloadIdempotent` | src/pages/Dashboard.tsx:161 | a URL the page would build itself is opened as it is |
| `Dashboard.HandleReset` | src/pages/Dashboard.tsx:98-109 | defaults, no result, no messages, and the saved form cleared; templates and busy flag untouched |
| `Dashboard.ResetThenReload` | src/pages/Dashboard.tsx:98-102 | after a reset whose clear succeeds, a reload starts from the defaults |

## Left out

- Rendering, routing and toasts are left out, as is the templates and
  health fetching (`loadTemplates`, the 30-second health timer). They carry
  no rules beyond the states above.
- The axios plumbing is left out: the request interceptor, headers and the
  10-second timeout. A timed-out call reaches the normalizer as a failure
  without a response.
- `window.open` and the browser's network are left out; the model stops at
  the address that would be opened.
- React's effect scheduling is left out. The autosave's identity test
  `formData !== DEFAULT_FORM_DATA` is a parameter, `untouched`, because a
  sequence cannot tell two equal values apart the way object identity does.
- `Storage.Load`: a snapshot whose JSON is valid but not an object, or whose
  fields have the wrong JSON types, is outside the model. The codec yields
  well-typed snapshots or nothing.
- `Dashboard.Overlay`: a snapshot is a fixed set of optional form fields.
  The spread in `loadSavedFormData` also copies keys the form does not
  declare, such as those left by an older version of the page, and the next
  submission would send them along. Such extra keys are not modelled.
- `Text.ParseInt`: `parseInt`'s `0x` hexadecimal prefix is not modelled,
  since a number input never holds one. Numbers are unbounded integers, so
  precision loss past 2^53 and `NaN` arriving through other paths are not
  modelled either.
- `ProjectsEditor.UpdateProject`: the source writes into the row object it
  shares with the previous state. The model builds a new row; the resulting
  list is the same.
- `ListEdit.SetAt`: writing past the end of an array leaves holes, which a
  sequence cannot hold; that case is `None`. Array indices are integers; a
  fractional index is not modelled.
- `Http.Normalize`: a `status` of `NaN` or any other falsy non-number is not
  modelled; statuses are integers.
- Backend locations are strings. A number inside `loc` joins the same way
  once written as its digits.
