# SIGEA certificates, attendance and profile core in Dafny

SIGEA is an event-management platform for IFAL (Instituto Federal de
Alagoas). Participants register for events, have their attendance marked
activity by activity, and receive certificates. This project models the
logic at the heart of that flow and proves properties about it:

- **Issuing a certificate.** The `issue-certificate` edge function:
  - authenticates the caller by bearer token;
  - requires exactly one registration for the event;
  - enforces the 10-minute cooldown after registering;
  - refuses a second certificate for the same event and user;
  - builds the `SIGEA-XXXX-YY` code;
  - inserts the `certificados` record.
- **Generating the certificate document.** The `generate-certificate` edge
  function:
  - loads the event's template;
  - turns the percent-based field mapping into drawing commands on the first
    page;
  - uploads the document to `issued/<event>/<user>/<code>.pdf`;
  - attaches that path to the record.
- **Editing the template mapping.** The certificate editor page and the
  `certificate_templates` repository: select a field, click to place it,
  remove it, save.
- **Validating a certificate.** `CertificateRepository.validate`, which looks
  a code up after trimming it, and the public validation page that shows the
  result.
- **Attendance.** The attendance page: confirmed participants, presence
  flags kept in `presencas` and toggled with an upsert, and search by name.
- **The in-memory repositories:**
  - activities (`mockActivitiesDB`);
  - registrations (`inscricoes`);
  - institutional link requests (`vinculos`).
- **Activities in the organiser's pages.** The activity form (the duration
  computed from the start and end times, the submit outcomes) and the
  activity management page.
- **Notifications.** The notification centre: the unread count, add, mark
  read, mark all read, delete.
- **Profile and navigation:**
  - the profile header (initials, status badge, validate-link button);
  - the profile page menus and logout;
  - the institution page;
  - the bottom bar and sidebar navigation;
  - the two route guards;
  - share links;
  - platform detection.

Tables and the React state a page mutates are modelled as classes whose
fields the methods reassign. Pure computations are modelled as functions.
Each state-changing method is proved against a specification function, and
lemmas prove the properties of those functions.

Things outside the program become parameters:
- query results and whether a write fails;
- the clock (`Date.now()`, the current year);
- random ids and codes;
- token verification;
- template downloads;
- the width of a text in the PDF font;
- locale date formatting;
- the user agent;
- `window.confirm`.

Supabase's `.single()` succeeds only on exactly one matching row.
`.maybeSingle()` gives no row for zero matches, the row for one, and an
error for more than one. The `Query` module models both.

JavaScript's `||` defaulting on an empty string, `0` or `undefined` is
written out in `Js`. `String.prototype.trim` uses the full JavaScript
white-space set (`Text.Trim`). `split`, `substring` and `includes` are also
in `Text`.

## Model

| member | source | states |
|---|---|---|
| Query.Single | supabase/functions/issue-certificate/index.ts:35-42 | `.single()` yields a row exactly when one row matches (that row), an error otherwise |
| Query.MaybeSingle | src/repositories/CertificateRepository.ts:9-18 | `.maybeSingle()` yields no row for 0 matches, the row for 1, an error for more than 1 |
| Certificados.RowsFor | supabase/functions/issue-certificate/index.ts:53-58 | the rows of one (event, user) pair are exactly the table rows for that pair |
| Certificados.RowsWithId | supabase/functions/generate-certificate/index.ts:34-38 | the rows matched by `.eq('id', …)` are exactly those with that id |
| Certificados.RowsForNone | supabase/functions/issue-certificate/index.ts:53-60 | a pair with no row in the table matches nothing |
| Certificados.OnePerPairAtMostOneMatch | supabase/functions/issue-certificate/index.ts:53-60 | while no pair has two rows, the duplicate query matches at most one row |
| Certificados.AppendKeepsOnePerPair | supabase/functions/issue-certificate/index.ts:68-78 | inserting a row for a pair that has none keeps one row per pair |
| Certificados.WithUrlPdf | supabase/functions/generate-certificate/index.ts:130-133 | the update sets `url_pdf` on every row with the id and leaves every other row unchanged |
| Certificados.WithUrlPdfKeepsOnePerPair | supabase/functions/generate-certificate/index.ts:130-133 | attaching the document path keeps one row per pair |
| Certificados.RowsWithIdAfterUrlPdf | supabase/functions/generate-certificate/index.ts:34-38 | after the update, the lookup by id finds the same rows, now carrying the path |
| Certificados.WithUrlPdfIdempotent | supabase/functions/generate-certificate/index.ts:130-133 | repeating the update changes nothing further |
| Certificados.CertificateTable.constructor | supabase/functions/issue-certificate/index.ts:53-58 | the table starts with the given rows |
| Certificados.CertificateTable.Insert | supabase/functions/issue-certificate/index.ts:68-78 | insert appends exactly the given row |
| Certificados.CertificateTable.UpdateUrlPdf | supabase/functions/generate-certificate/index.ts:130-133 | the rows become `WithUrlPdf` of the old rows |
| IssueCertificate.HttpStatus | supabase/functions/issue-certificate/index.ts:10-91 | 401 only for unauthorised, 400 only for failures, 200 for the preflight and for success |
| IssueCertificate.BearerTokenOfBearerHeader | supabase/functions/issue-certificate/index.ts:27 | removing `Bearer ` from `Bearer t` gives `t` |
| IssueCertificate.Ceil | supabase/functions/issue-certificate/index.ts:49 | `Math.ceil` is the least integer not below its argument |
| IssueCertificate.WaitBounds | supabase/functions/issue-certificate/index.ts:44-50 | inside the cooldown the reported wait is 1 to 10 minutes and covers the time still to wait |
| IssueCertificate.YearSuffixDigits | supabase/functions/issue-certificate/index.ts:64 | `slice(-2)` of the year gives its tens and units digits |
| IssueCertificate.ErrorMessage | supabase/functions/issue-certificate/index.ts:29-60 | an insert failure passes its message on; the too-early message is `Certificate not available yet. Please wait ` + digits + ` more minutes.` whose digits read back as the wait |
| IssueCertificate.CodeFormat | supabase/functions/issue-certificate/index.ts:64 | the code is `SIGEA-` + the first four characters of the event id + `-` + two digits, 13 characters |
| IssueCertificate.CodeIsTrimmed | supabase/functions/issue-certificate/index.ts:64 | the code has no surrounding white space, so the validation lookup's trim leaves it as is |
| IssueCertificate.RegistrationsOf | supabase/functions/issue-certificate/index.ts:35-40 | the registrations queried are exactly the caller's rows for the event |
| IssueCertificate.Issue | supabase/functions/issue-certificate/index.ts:10-91 | the response is the specified outcome; on success exactly the new record is appended, otherwise the table is unchanged |
| IssueCertificate.MissingHeaderIsUnauthorized | supabase/functions/issue-certificate/index.ts:16-19 | a missing or empty `Authorization` header gives `Unauthorized` with status 401 |
| IssueCertificate.NoRegistrationFails | supabase/functions/issue-certificate/index.ts:35-42 | an authenticated caller without a registration gets "User is not registered for this event." |
| IssueCertificate.CancelledRegistrationStillIssues | supabase/functions/issue-certificate/index.ts:35-80 | the registration's status is not consulted: a cancelled registration is still issued a certificate |
| IssueCertificate.CooldownBeforeDuplicate | supabase/functions/issue-certificate/index.ts:44-60 | inside the cooldown the request fails as too early, waiting at least 1 minute, whatever certificates exist |
| IssueCertificate.ExistingCertificateRejected | supabase/functions/issue-certificate/index.ts:53-60 | after the cooldown, an existing certificate for the pair gives "Certificate already issued." |
| IssueCertificate.IssuedRecordContents | supabase/functions/issue-certificate/index.ts:63-78 | the inserted record carries the caller, the event, the code and the registration's workload (0 when missing) |
| IssueCertificate.SameCodeWithinEventAndYear | supabase/functions/issue-certificate/index.ts:64 | two certificates issued for one event in one year carry the same code |
| IssueCertificate.IssuePreservesOnePerPair | supabase/functions/issue-certificate/index.ts:53-80 | issuing keeps the table at one certificate per (event, user) |
| IssueCertificate.SecondIssueRejected | supabase/functions/issue-certificate/index.ts:53-60 | after a successful issue, the same caller asking again for the same event is rejected as already issued |
| IssueCertificate.AmbiguousDuplicateNotDetected | supabase/functions/issue-certificate/index.ts:53-60 | if a pair ever held two rows, `maybeSingle` errors, its data is null and another row would be inserted |
| FieldMapping.Get | src/pages/gestor/CertificateEditorPage.tsx:122 | a key yields a placement exactly when some entry has that key, and then the placement of the first entry with that key |
| FieldMapping.Put | src/pages/gestor/CertificateEditorPage.tsx:57-67 | spreading and setting a key adds one entry only when the key is new; every entry is the new one or an old one |
| FieldMapping.Remove | src/pages/gestor/CertificateEditorPage.tsx:71-75 | after `delete`, no entry has the key and none is new |
| FieldMapping.PutGet | src/pages/gestor/CertificateEditorPage.tsx:57-67 | after a put, the key reads back the new placement and every other key reads as before |
| FieldMapping.PutKeepsUniqueKeys | src/pages/gestor/CertificateEditorPage.tsx:57-67 | put keeps each key at most once |
| FieldMapping.RemoveGet | src/pages/gestor/CertificateEditorPage.tsx:71-75 | after a remove, the key reads as absent and every other key as before |
| FieldMapping.RemoveAbsent | src/pages/gestor/CertificateEditorPage.tsx:71-75 | removing an absent key changes nothing |
| FieldMapping.RemoveKeepsUniqueKeys | src/pages/gestor/CertificateEditorPage.tsx:71-75 | remove keeps each key once and only keeps old entries |
| FieldMapping.TemplatesOf | src/repositories/CertificateTemplateRepository.ts:7-16 | the template rows of an event are exactly the rows with that event id |
| FieldMapping.WithMapping | src/repositories/CertificateTemplateRepository.ts:35-42 | the update sets the mapping on every row of the event and leaves other rows unchanged |
| FieldMapping.TemplatesOfAfterSave | src/repositories/CertificateTemplateRepository.ts:35-42 | after saving, the event's template rows are the same rows carrying the saved mapping |
| FieldMapping.TemplateTable.constructor | src/repositories/CertificateTemplateRepository.ts:7-16 | the table starts with the given rows |
| FieldMapping.TemplateTable.UpdateMapping | src/repositories/CertificateTemplateRepository.ts:35-42 | the rows become `WithMapping` of the old rows |
| CertificateEditor.Percent | src/pages/gestor/CertificateEditorPage.tsx:54-55 | the percentage maps back to the click coordinate, and a click inside the box gives 0 to 100 |
| CertificateEditor.ClickPlacement | src/pages/gestor/CertificateEditorPage.tsx:57-66 | the placement is at the click; it keeps the previous font size (14 when unset); it has a size, 80, only for `qr_code` |
| CertificateEditor.EditorPage.constructor | src/pages/gestor/CertificateEditorPage.tsx:26-48 | a found template gives its mapping or an empty one; the spinner stays when the query errors |
| CertificateEditor.EditorPage.IsPlaced | src/pages/gestor/CertificateEditorPage.tsx:122 | a field shows as placed exactly when the mapping has an entry for it |
| CertificateEditor.EditorPage.SelectField | src/pages/gestor/CertificateEditorPage.tsx:124-127 | clicking a field selects it unless it is already placed (its button is disabled) |
| CertificateEditor.EditorPage.CanvasClick | src/pages/gestor/CertificateEditorPage.tsx:50-69 | without a selection nothing changes; otherwise the selected field is put at the click and the selection clears |
| CertificateEditor.EditorPage.RemoveField | src/pages/gestor/CertificateEditorPage.tsx:71-75 | the mapping becomes `Remove` of the old one and keeps one entry per key |
| CertificateEditor.EditorPage.Save | src/pages/gestor/CertificateEditorPage.tsx:77-89 | without an event id nothing happens; on success the event's template rows take the mapping, the success alert shows and the page goes to `/gestor/eventos/<id>/certificado-template`; on failure nothing is stored, the alert shows the error and the page stays |
| CertificateEditor.ClickRoundTrip | src/pages/gestor/CertificateEditorPage.tsx:53-55 | on a page of any size the renderer puts a placed field at the fraction of the width from the left, and of the height from the top, at which the preview was clicked |
| CertificateEditor.PlaceThenRemove | src/pages/gestor/CertificateEditorPage.tsx:57-75 | placing an unplaced field and then removing it restores the mapping |
| CertificateEditor.SavedMappingIsRendered | src/pages/gestor/CertificateEditorPage.tsx:77-89 | with one template for the event, the renderer's template lookup finds the saved mapping |
| GenerateCertificate.HttpStatus | supabase/functions/generate-certificate/index.ts:135-144 | 400 exactly for failures, 200 otherwise |
| GenerateCertificate.ErrorMessage | supabase/functions/generate-certificate/index.ts:139-144 | the function's own three errors carry their messages and an upload error its own; failures raised inside pdf-lib or by a missing join carry none in the model |
| GenerateCertificate.LoadTemplate | supabase/functions/generate-certificate/index.ts:52-62 | a `pdf` template loads its pages; an image template yields one page of the image's size, with the image drawn |
| GenerateCertificate.DataMap | supabase/functions/generate-certificate/index.ts:71-78 | six keys; the CPF falls back to `---`; the workload is `<n> horas` with 0 when missing; the code is the record's |
| GenerateCertificate.TextFor | supabase/functions/generate-certificate/index.ts:100-101 | a field is drawn as text exactly when the data map holds a non-empty text for it |
| GenerateCertificate.ValidationUrl | supabase/functions/generate-certificate/index.ts:83 | the QR link is the validation page prefix followed by the certificate code |
| GenerateCertificate.DrawFor | supabase/functions/generate-certificate/index.ts:80-113 | `qr_code` draws the QR image of the validation link; another field draws its text or nothing |
| GenerateCertificate.Plan | supabase/functions/generate-certificate/index.ts:80-114 | the loop produces at most one drawing per mapping entry |
| GenerateCertificate.PlanLength | supabase/functions/generate-certificate/index.ts:80-114 | the drawings are exactly one per entry that is the QR code or has a text |
| GenerateCertificate.PlanAppend | supabase/functions/generate-certificate/index.ts:80-114 | the entries are drawn in enumeration order |
| GenerateCertificate.PercentToPage | supabase/functions/generate-certificate/index.ts:90-91 | 0 % is the top-left corner, 100 % the bottom-right, 50 % the centre |
| GenerateCertificate.AbsYDecreasing | supabase/functions/generate-certificate/index.ts:91 | a larger percent from the top is lower on the page |
| GenerateCertificate.QrCentred | supabase/functions/generate-certificate/index.ts:90-99 | the QR image is square, of the placement's size (80 when unset), centred on the placement |
| GenerateCertificate.TextCentred | supabase/functions/generate-certificate/index.ts:102-112 | the text has the placement's font size (14 when unset) and is centred on the placement |
| GenerateCertificate.OutputPath | supabase/functions/generate-certificate/index.ts:118 | the document is stored at `issued/<event>/<user>/<code>.pdf` |
| GenerateCertificate.Page.constructor | supabase/functions/generate-certificate/index.ts:64-66 | the page holds the loaded page's size, background and drawings |
| GenerateCertificate.Page.Content | supabase/functions/generate-certificate/index.ts:117 | the saved page has the page's size and drawings |
| GenerateCertificate.Page.DrawImageAt | supabase/functions/generate-certificate/index.ts:94-99 | drawing an image appends exactly that drawing |
| GenerateCertificate.Page.DrawTextAt | supabase/functions/generate-certificate/index.ts:106-112 | drawing a text appends exactly that drawing |
| GenerateCertificate.ApplyMapping | supabase/functions/generate-certificate/index.ts:80-114 | the loop appends `Plan` of the mapping to the first page's drawings |
| GenerateCertificate.Bucket.constructor | supabase/functions/generate-certificate/index.ts:120-125 | the bucket starts with the given objects |
| GenerateCertificate.Bucket.Upload | supabase/functions/generate-certificate/index.ts:120-125 | an upsert upload stores the document at the path and replaces any previous one |
| GenerateCertificate.Generate | supabase/functions/generate-certificate/index.ts:10-146 | the response is the specified outcome; only a success uploads; the record's path is set only when the update applies |
| GenerateCertificate.RenderAndStore | supabase/functions/generate-certificate/index.ts:43-127 | from the download on, the response is the specified rendering of the found template and certificate, and only a success uploads, at its own path |
| GenerateCertificate.RenderIgnoresUrlPdf | supabase/functions/generate-certificate/index.ts:43-118 | the record's document path plays no part in what is rendered or where it is stored |
| GenerateCertificate.RenderIsRetrySafe | supabase/functions/generate-certificate/index.ts:130-133 | rendering again after the path is attached gives the same response |
| GenerateCertificate.TemplateRequired | supabase/functions/generate-certificate/index.ts:25-31 | without a template for the event, the response is "Template não encontrado" |
| GenerateCertificate.GeneratedShape | supabase/functions/generate-certificate/index.ts:52-135 | a success keeps the template's pages and adds drawings to the first page only, stored at `OutputPath` |
| CertificateRepository.RowsWithCode | src/repositories/CertificateRepository.ts:9-15 | the rows matched are exactly those whose certificate code equals the given one |
| CertificateRepository.RowsWithCodeKeepsTwo | src/repositories/CertificateRepository.ts:9-15 | two rows carrying the code are both matched |
| CertificateRepository.Lookup | src/repositories/CertificateRepository.ts:9-39 | a found certificate carries the workload exactly when the projection includes it |
| CertificateRepository.EventSummary | src/repositories/CertificateRepository.ts:28-39 | missing texts become `''`, a missing workload 0; the institution, modality and status are fixed |
| CertificateRepository.CertificateSummaryAsWritten | src/repositories/CertificateRepository.ts:20-26 | the object carries the id, user, event, code and issue date, and no workload |
| CertificateRepository.CertificateSummary | src/repositories/CertificateRepository.ts:20-26 | the same object, also carrying the record's workload |
| CertificateRepository.ValidateAsWritten | src/repositories/CertificateRepository.ts:7-42 | a found certificate never carries a workload |
| CertificateRepository.AsWrittenAgreesWithValidate | src/repositories/CertificateRepository.ts:7-42 | the written lookup finds, misses and fails exactly when the corrected one does, with the same event; what it finds is the one record holding the trimmed code, summarised by its five properties without the workload |
| CertificateRepository.Validate | src/repositories/CertificateRepository.ts:7-42 | a found certificate carries its workload |
| CertificateRepository.ValidateFound | src/repositories/CertificateRepository.ts:9-18 | a code is found iff exactly one row carries the trimmed code and its event joins; the result is that row's |
| CertificateRepository.UnissuedCodeNotFound | src/repositories/CertificateRepository.ts:18 | a code no row carries gives `null` |
| CertificateRepository.OneRowFound | src/repositories/CertificateRepository.ts:9-39 | a table whose only record carries the trimmed code, and whose event exists, resolves the code |
| CertificateRepository.ValidateIgnoresSurroundingSpace | src/repositories/CertificateRepository.ts:15 | validating a code and validating its trimmed form agree |
| CertificateRepository.SharedCodeNotFound | src/repositories/CertificateRepository.ts:16-18 | two rows with the same code make the lookup return `null` |
| CertificateRepository.SecondParticipantHidesCode | src/repositories/CertificateRepository.ts:15-18 | once two participants of one event hold certificates from the same year, validating their shared code fails |
| ValidatePage.NumberProperty | src/pages/ValidateCertificatePage.tsx:119 | only `cargaHoraria` can be read as a number from the certificate object |
| ValidatePage.DateProperty | src/pages/ValidateCertificatePage.tsx:123 | only `dataEmissao` can be read as a date from the certificate object |
| ValidatePage.HoursFromMinutes | src/pages/ValidateCertificatePage.tsx:119 | an undefined minute count shows as `NaN`, and only then; a defined count `n` shows the integer `h` with `60h <= n < 60h + 60` (the floor of the hours) |
| ValidatePage.DateText | src/pages/ValidateCertificatePage.tsx:123 | a date shows formatted; an undefined one shows `Invalid Date` |
| ValidatePage.PanelAsWritten | src/pages/ValidateCertificatePage.tsx:110-131 | the panel shows the event title and `<institution> — <campus>` |
| ValidatePage.ShownPanel | src/pages/ValidateCertificatePage.tsx:110-131 | the panel shows the title, the formatted issue date and `<institution> — <campus>` |
| ValidatePage.AsWrittenPanelLosesRecord | src/pages/ValidateCertificatePage.tsx:119-123 | as written, every validated certificate shows `NaN Horas` and `Invalid Date` |
| ValidatePage.AsWrittenTwentyHoursShowsNaN | src/pages/ValidateCertificatePage.tsx:119 | a certificate with a 20-hour workload is shown as `NaN Horas` |
| ValidatePage.PanelShowsRecord | src/pages/ValidateCertificatePage.tsx:119-123 | with the workload carried, the panel shows the record's hours and its formatted issue date |
| ValidatePage.ValidationPage.constructor | src/pages/ValidateCertificatePage.tsx:17-19 | the field holds the `codigo` parameter or `''`; the status is idle with no result |
| ValidatePage.ValidationPage.SetCode | src/pages/ValidateCertificatePage.tsx:68 | typing changes the code only |
| ValidatePage.ValidationPage.CanSubmit | src/pages/ValidateCertificatePage.tsx:77 | the button is enabled iff not loading and the code is not blank |
| ValidatePage.ValidationPage.HandleValidation | src/pages/ValidateCertificatePage.tsx:27-45 | a blank code changes nothing; otherwise the status is valid with the result of the lookup as the repository writes it (no workload), or invalid with none |
| ValidatePage.ValidationPage.OnMount | src/pages/ValidateCertificatePage.tsx:21-25 | a link carrying a code validates it on arrival, with the lookup as the repository writes it |
| ValidatePage.ValidationPage.VisiblePanel | src/pages/ValidateCertificatePage.tsx:93 | the panel is shown exactly when the status is valid, with the event's title and institution and, as the page is written, `NaN Horas` and `Invalid Date` |
| ValidatePage.LinkValidates | src/pages/ValidateCertificatePage.tsx:17-37 | a code held by exactly one record, with its event, validates and shows that record's summary and code |
| ActivityRepository.WithoutId | src/repositories/ActivityRepository.ts:61 | the filtered list holds exactly the activities with another id |
| ActivityRepository.IndexOfId | src/repositories/ActivityRepository.ts:52 | `findIndex` gives the first position with the id, or -1 when there is none |
| ActivityRepository.ActivityStore.constructor | src/repositories/ActivityRepository.ts:3-30 | the store starts with the given record |
| ActivityRepository.ActivityStore.ListByEvent | src/repositories/ActivityRepository.ts:33-35 | an event's list, or `[]` for an unknown event |
| ActivityRepository.ActivityStore.CreateActivity | src/repositories/ActivityRepository.ts:37-47 | the data with the drawn id is appended to the event's list, which is created if missing: the new table is AfterCreate of the old |
| ActivityRepository.ActivityStore.UpdateActivity | src/repositories/ActivityRepository.ts:49-56 | an unknown event or id is rejected with its message and nothing changes; otherwise the event's list becomes AfterUpdate of the old, the first match replaced |
| ActivityRepository.ActivityStore.DeleteActivity | src/repositories/ActivityRepository.ts:58-62 | an unknown event changes nothing; otherwise the event's list loses the activities with that id |
| ActivityRepository.CreateAppendsOne | src/repositories/ActivityRepository.ts:37-47 | the table CreateActivity leaves, AfterCreate, has exactly one more activity at the end of the event's list and other events as they were |
| ActivityRepository.UpdateReplacesOne | src/repositories/ActivityRepository.ts:49-56 | the list UpdateActivity leaves, AfterUpdate, replaces one position, holding the same id, and keeps the length and the rest |
| ActivityRepository.DeleteRemovesId | src/repositories/ActivityRepository.ts:58-62 | no activity with the id remains, every other activity stays, and a repeated delete does nothing |
| ActivityForm.MinuteOfDay | src/pages/event/ActivityFormPage.tsx:9-10 | a parsed `HH:MM` time is a minute of the day, below 1440 |
| ActivityForm.MinuteOfDayTimeText | src/pages/event/ActivityFormPage.tsx:9-10 | writing a minute of the day as `HH:MM` and parsing it gives the minute back |
| ActivityForm.CalculateDuration | src/pages/event/ActivityFormPage.tsx:7-13 | an empty start or end gives 0; otherwise the result is `NaN` exactly when a time does not parse |
| ActivityForm.DurationOfValidTimes | src/pages/event/ActivityFormPage.tsx:7-13 | for two valid times, the duration is end minus start when the end is later and 0 otherwise |
| ActivityForm.HoursAndMinutes | src/pages/event/ActivityFormPage.tsx:216 | the hours and minutes shown recompose the duration, with the minutes below 60 |
| ActivityForm.DurationText | src/pages/event/ActivityFormPage.tsx:216 | `NaNh NaNmin` without a duration; for a non-negative count the hours and minutes of HoursAndMinutes; for any count `<h>h <r>min` with `h` the floor of the hours and `r` the remainder with the count's sign, congruent to it modulo 60 |
| ActivityForm.MinutesSplit | src/pages/event/ActivityFormPage.tsx:216 | `Math.floor(n / 60)` and JavaScript's `n % 60` are the floored hours and the truncated remainder, for every count |
| ActivityForm.Payload | src/pages/event/ActivityFormPage.tsx:59-69 | the payload copies the form fields and the event id and carries the computed duration |
| ActivityForm.HandleSubmit | src/pages/event/ActivityFormPage.tsx:48-85 | no event does nothing; a missing required field stops; editing is pending; otherwise the payload is created or fails |
| ActivityForm.SubmitAlert | src/pages/event/ActivityFormPage.tsx:48-85 | an alert is shown in every case except a missing event |
| ActivityForm.CreatedDuration | src/pages/event/ActivityFormPage.tsx:29-75 | a created activity's duration is a number below a day that leads from its start to its end |
| InscricaoRepository.FirstOfPair | src/repositories/InscricaoRepository.ts:11 | the first registration of the (event, user) pair, or -1 when there is none |
| InscricaoRepository.GetStatus | src/repositories/InscricaoRepository.ts:10-13 | `null` iff the pair has no registration; otherwise the status of the pair's first registration in stored order |
| InscricaoRepository.ListByEvento | src/repositories/InscricaoRepository.ts:15-17 | exactly the confirmed registrations of the event |
| InscricaoRepository.ListByUser | src/repositories/InscricaoRepository.ts:19-21 | exactly the confirmed registrations of the user |
| InscricaoRepository.CountByEvento | src/repositories/InscricaoRepository.ts:42-44 | the count is at most the number of registrations |
| InscricaoRepository.CountIsListLength | src/repositories/InscricaoRepository.ts:15-17 | the count equals the length of the event's list |
| InscricaoRepository.NewInscricao | src/repositories/InscricaoRepository.ts:24-30 | the new registration is for the pair, confirmed, with the drawn id |
| InscricaoRepository.CancelFirst | src/repositories/InscricaoRepository.ts:35-40 | cancelling keeps the number of registrations |
| InscricaoRepository.InscricaoStore.constructor | src/repositories/InscricaoRepository.ts:4-7 | the store starts with the given registrations |
| InscricaoRepository.InscricaoStore.CreateInscricao | src/repositories/InscricaoRepository.ts:23-33 | the new registration is appended and returned |
| InscricaoRepository.InscricaoStore.CancelInscricao | src/repositories/InscricaoRepository.ts:35-40 | the store becomes `CancelFirst` of the old one |
| InscricaoRepository.CreateAppends | src/repositories/InscricaoRepository.ts:23-33 | after registering, the event's list is the old list plus the new registration and the count rises by one |
| InscricaoRepository.CancelChangesOne | src/repositories/InscricaoRepository.ts:35-40 | with no registration nothing changes; otherwise only the first one becomes cancelled, the status reads cancelled, and a confirmed one leaves the count |
| InscricaoRepository.ReRegistrationStaysCancelled | src/repositories/InscricaoRepository.ts:10-40 | registering again after a cancellation still reads as cancelled; both records remain |
| VinculoRepository.ListByStatus | src/repositories/VinculoRepository.ts:20-22 | exactly the requests with that status |
| VinculoRepository.IndexOfId | src/repositories/VinculoRepository.ts:25 | the first position with the id, or -1 when there is none |
| VinculoRepository.VinculoStore.constructor | src/repositories/VinculoRepository.ts:19-22 | the store starts with the given requests |
| VinculoRepository.VinculoStore.UpdateStatus | src/repositories/VinculoRepository.ts:24-32 | an unknown id returns `null` and changes nothing; otherwise the first match takes the status and is returned |
| VinculoRepository.UpdateMovesRecord | src/repositories/VinculoRepository.ts:24-32 | a review changes one request's status only; it joins the list of its new status and leaves that of its old one |
| MarkPresence.PresenceMap | src/pages/event/MarkPresencePage.tsx:55 | the map has a key exactly for each user with a presence row |
| MarkPresence.PresenceMapLastWins | src/pages/event/MarkPresencePage.tsx:55 | a user's flag is that of the last row naming them |
| MarkPresence.ParticipantOf | src/pages/event/MarkPresencePage.tsx:57-62 | the name is the profile's or `Usuário sem nome`; the e-mail is empty; present only when a row says true |
| MarkPresence.Participants | src/pages/event/MarkPresencePage.tsx:55-62 | one participant per registration, in order |
| MarkPresence.AbsentByDefault | src/pages/event/MarkPresencePage.tsx:61 | a participant without a presence row is absent |
| MarkPresence.WithPresence | src/pages/event/MarkPresencePage.tsx:89-91 | the toggled user's rows take the new flag and every other row is unchanged |
| MarkPresence.ToggleTwiceRestores | src/pages/event/MarkPresencePage.tsx:75-96 | toggling a participant twice restores the list |
| MarkPresence.FilterLowered | src/pages/event/MarkPresencePage.tsx:98-100 | exactly the participants whose lower-cased name contains the lowered term |
| MarkPresence.FilterByName | src/pages/event/MarkPresencePage.tsx:98-100 | exactly the participants whose name contains the term, ignoring case |
| MarkPresence.EmptySearchShowsAll | src/pages/event/MarkPresencePage.tsx:98-100 | an empty search shows everyone, in order |
| MarkPresence.SearchIgnoresCase | src/pages/event/MarkPresencePage.tsx:98-100 | a term typed in capitals finds the same participants |
| MarkPresence.PresenceTable.constructor | src/pages/event/MarkPresencePage.tsx:79-85 | the table starts with the given rows |
| MarkPresence.PresenceTable.Upsert | src/pages/event/MarkPresencePage.tsx:79-85 | the upsert sets the flag of the (activity, user) key, inserting or replacing |
| MarkPresence.PresencePage.constructor | src/pages/event/MarkPresencePage.tsx:14-19 | the page starts loading, with no participants and an empty search |
| MarkPresence.PresencePage.Load | src/pages/event/MarkPresencePage.tsx:21-73 | without route ids nothing changes; otherwise loading ends, with the participant list on success and the old list when the query fails |
| MarkPresence.PresencePage.TogglePresence | src/pages/event/MarkPresencePage.tsx:75-96 | a failed upsert changes nothing and alerts; a success stores the flipped flag and shows it |
| MarkPresence.PresencePage.Visible | src/pages/event/MarkPresencePage.tsx:98-100 | the rows shown are exactly the participants matching the search term |
| Notifications.UnreadCount | src/contexts/NotificationContext.tsx:19-21 | the unread count is at most the number of notifications |
| Notifications.UnreadCountMeaning | src/contexts/NotificationContext.tsx:19-21 | the count is the number of unread notifications and is 0 exactly when all are read |
| Notifications.NewNotification | src/contexts/NotificationContext.tsx:23-30 | a new notification is unread, for `user001`, with id `notif<now>`, created now, with the caller's texts |
| Notifications.PrependUnread | src/contexts/NotificationContext.tsx:31 | prepending an unread notification raises the count by one |
| Notifications.MarkRead | src/contexts/NotificationContext.tsx:34-36 | entries with the id become read and the others are unchanged |
| Notifications.MarkAllRead | src/contexts/NotificationContext.tsx:38-40 | every entry becomes read |
| Notifications.Delete | src/contexts/NotificationContext.tsx:42-44 | exactly the entries with another id remain |
| Notifications.MarkReadLowersCount | src/contexts/NotificationContext.tsx:34-36 | marking read is idempotent and never raises the count |
| Notifications.MarkAllReadClearsCount | src/contexts/NotificationContext.tsx:38-40 | after marking all read the count is 0, and doing it twice is doing it once |
| Notifications.DeleteFacts | src/contexts/NotificationContext.tsx:42-44 | deleting an id nobody has changes nothing; deleting never raises the count |
| Notifications.NotificationCenter.constructor | src/contexts/NotificationContext.tsx:17 | the provider starts with the given notifications |
| Notifications.NotificationCenter.Unread | src/contexts/NotificationContext.tsx:19-21 | the count is at most the number of notifications |
| Notifications.NotificationCenter.Add | src/contexts/NotificationContext.tsx:23-32 | the new notification goes first and the count rises by one |
| Notifications.NotificationCenter.MarkAsRead | src/contexts/NotificationContext.tsx:34-36 | the list becomes `MarkRead` of the old one, and the count does not rise |
| Notifications.NotificationCenter.MarkAllAsRead | src/contexts/NotificationContext.tsx:38-40 | the list becomes all read and the count is 0 |
| Notifications.NotificationCenter.DeleteNotification | src/contexts/NotificationContext.tsx:42-44 | the list becomes `Delete` of the old one, and the count does not rise |
| ProfileHeader.FirstCharText | src/components/profile/ProfileHeader.tsx:18 | `s[0]` in a template is the first character, or `undefined` for an empty string |
| ProfileHeader.InitialsAsWritten | src/components/profile/ProfileHeader.tsx:15-21 | several parts give the first characters of the first and last parts; one part gives the first two characters, upper-cased |
| ProfileHeader.TrailingEmptyPartShowsUndefined | src/components/profile/ProfileHeader.tsx:16-18 | a name ending in a space shows the first initial followed by `UNDEFINED` |
| ProfileHeader.WordThenSpace | src/components/profile/ProfileHeader.tsx:15-21 | one word followed by a space shows the word's upper-cased first letter followed by `UNDEFINED` |
| ProfileHeader.TrailingSpaceShowsUndefined | src/components/profile/ProfileHeader.tsx:16-18 | `"Ana "` shows as `AUNDEFINED` |
| ProfileHeader.Words | src/components/profile/ProfileHeader.tsx:16 | the words of the name are non-empty, hold no space, and are made of the name's characters |
| ProfileHeader.Initials | src/components/profile/ProfileHeader.tsx:15-21 | at most two characters, each an upper-cased character of the name, non-empty when the name has a word |
| ProfileHeader.InitialsAgreeWithoutEmptyParts | src/components/profile/ProfileHeader.tsx:15-21 | without a leading, trailing or doubled space, the corrected initials equal the written ones |
| ProfileHeader.StatusLabel | src/components/profile/ProfileHeader.tsx:23-36 | the badge differs from `Visitante` exactly for the four known statuses |
| ProfileHeader.HeaderOf | src/components/profile/ProfileHeader.tsx:12-84 | nothing without a user; initials iff no avatar; the badge; the validate link iff `ativo_comunidade` |
| ProfileHeader.HeaderInitialsOfWords | src/components/profile/ProfileHeader.tsx:15-21 | without an avatar and without empty name parts, the header shows the initials of the first and last words |
| ProfileHeader.HeaderShowsUndefined | src/components/profile/ProfileHeader.tsx:15-21 | without an avatar, a name of several parts ending in a space shows `UNDEFINED` as its last initial |
| ProfileHeader.ValidateLinkOnlyForCommunity | src/components/profile/ProfileHeader.tsx:77-84 | the validate-link button only appears beside the `Comunidade` badge |
| Share.EventShare | src/utils/share.ts:47-56 | the url is `<origin>/evento/<id>`; the title is `SIGEA \| <title>`; the text starts with the pin and the title |
| Share.ActivityShare | src/utils/share.ts:58-71 | the url adds `?atividade=<id>` to the event link; the title is `SIGEA \| <activity>` |
| Share.EventShareReadsBack | src/utils/share.ts:47-56 | the event id can be read back from the url and the title from the share title |
| Share.ActivityLinkExtendsEventLink | src/utils/share.ts:49-60 | an activity link is its event's link followed by the activity query |
| Share.CopiedByShare | src/utils/share.ts:11-29 | the link is copied iff there is no native share or it failed other than by `AbortError`; the url is what is copied |
| BottomBar.Render | src/components/BottomBar.tsx:19-44 | the pill and the active colour show exactly for the active item, and the caption takes the icon's colour |
| BottomBar.Bar | src/components/BottomBar.tsx:7-19 | one rendered item per navigation item, in order |
| BottomBar.RootExactOnly | src/components/BottomBar.tsx:20 | Home is active only on `/` itself |
| BottomBar.AtMostOneActive | src/components/BottomBar.tsx:20 | at most one item is active on any path |
| BottomBar.NoSegmentBoundary | src/components/BottomBar.tsx:20 | the prefix test makes `/explorarX` activate Explore |
| Sidebar.ShownOf | src/components/Sidebar.tsx:18 | the items kept are exactly the public ones, or all of them when signed in |
| Sidebar.VisibleItems | src/components/Sidebar.tsx:10-18 | exactly the items that are public, or all of them when signed in |
| Sidebar.ShownOfSignedIn | src/components/Sidebar.tsx:18 | a signed-in user is shown every item, in order |
| Sidebar.ShownOfVisitor | src/components/Sidebar.tsx:18 | when the public items come first, a visitor is shown exactly those, in order |
| Sidebar.SignedInSeesAll | src/components/Sidebar.tsx:18 | a signed-in user sees all five items |
| Sidebar.VisitorSeesPublicOnly | src/components/Sidebar.tsx:18 | a visitor sees only Início and Explorar |
| Sidebar.AvatarFallback | src/components/Sidebar.tsx:61 | the first two characters of the name (fewer for a shorter name), upper-cased |
| Sidebar.AvatarOf | src/components/Sidebar.tsx:53-63 | a picture iff there is an avatar url, otherwise the fallback initials |
| RouteGuards.Protected | src/components/ProtectedRoute.tsx:8-31 | a spinner iff loading; `/login` iff signed out; the outlet iff the profile is allowed; `/acesso-restrito` otherwise |
| RouteGuards.ManagementProfilesAllButCommunity | src/components/GestorProtectedRoute.tsx:8 | the management list holds every profile but `comunidade_externa` |
| RouteGuards.Management | src/components/GestorProtectedRoute.tsx:4-15 | the outlet iff a user other than external community; otherwise `/gestor/acesso-restrito` |
| RouteGuards.ManagementIsProtectedWithList | src/components/GestorProtectedRoute.tsx:8-14 | the management guard lets through exactly whom the general guard with that list does |
| ManageActivities.ViewOf | src/pages/event/ManageActivitiesPage.tsx:36-45 | a spinner iff loading; the list iff loaded and the user may manage |
| ManageActivities.RedirectOf | src/pages/event/ManageActivitiesPage.tsx:38-42 | a redirect to `/perfil` exactly when the page renders nothing |
| ManageActivities.ManagementNeedsFlagOrAdmin | src/pages/event/ManageActivitiesPage.tsx:35-36 | a `gestor` without the organiser flag is sent away; an admin always manages |
| ManageActivities.WithoutActivity | src/pages/event/ManageActivitiesPage.tsx:28 | exactly the activities with another id remain |
| ManageActivities.WithoutActivityKeepsOrder | src/pages/event/ManageActivitiesPage.tsx:28 | the filter keeps the list's order |
| ManageActivities.ManageActivitiesPage.constructor | src/pages/event/ManageActivitiesPage.tsx:12-13 | no activities, loading |
| ManageActivities.ManageActivitiesPage.Load | src/pages/event/ManageActivitiesPage.tsx:15-22 | with an event id the listed activities are shown, a rejected listing keeps the list as it was, and loading ends either way; without an event id nothing changes |
| ManageActivities.ManageActivitiesPage.HandleDelete | src/pages/event/ManageActivitiesPage.tsx:24-33 | a confirmed delete removes the activity; a failed one alerts "Erro ao excluir atividade"; a declined one does nothing |
| Institution.InitialForm | src/pages/profile/InstitutionPage.tsx:16-19 | the fields start from the user's values, falling back to IFAL, `''`, `aluno` and `''` |
| Institution.Payload | src/pages/profile/InstitutionPage.tsx:28-37 | the form's fields are sent; organiser iff `servidor` or `gestor`; the status is `gestor` for organisers, `ativo_vinculado` otherwise |
| Institution.HiddenMatriculaIsSent | src/pages/profile/InstitutionPage.tsx:34-111 | for external community the field is hidden, yet the matricula is still sent and the status becomes `ativo_vinculado` |
| Institution.MatriculaShown | src/pages/profile/InstitutionPage.tsx:111 | the matrícula field is hidden only for the external community, so staff and managers always see it |
| Institution.HandleSubmit | src/pages/profile/InstitutionPage.tsx:22-53 | a success adds the "Vínculo Atualizado" notification, alerts and goes to `/perfil`; a failure only alerts |
| ProfilePage.EventMenu | src/pages/ProfilePage.tsx:38-67 | no menu without a user; the organiser menu for `servidor`; the manager menu for `gestor`; the participant menu otherwise |
| ProfilePage.ManagerRoutesOnlyForManagers | src/pages/ProfilePage.tsx:41-66 | `/gestor/` links appear only for `gestor`; an admin gets the participant menu |
| ProfilePage.Logout | src/pages/ProfilePage.tsx:31-36 | a confirmed logout signs out and goes to `/`; a declined one does nothing |
| Platform.Classify | src/hooks/usePlatform.ts:13-24 | iOS iff the agent names an iPhone, iPad or iPod; Android iff not iOS and it names Android; desktop otherwise |
| Platform.PlatformState.constructor | src/hooks/usePlatform.ts:8-9 | the hook starts as desktop, not mobile |
| Platform.PlatformState.CheckPlatform | src/hooks/usePlatform.ts:12-27 | the platform is the classification; mobile iff the media query matches or the agent is iOS or Android |
| Platform.PlatformState.FlagCount | src/hooks/usePlatform.ts:34-40 | exactly one of `isIos`, `isAndroid` and `isDesktop` holds |

## Left out

- The QR image is not generated. `api.qrserver.com` is an external service, so the model records the image by the link it encodes.
- pdf-lib is not modelled: no bytes, fonts or PNG/JPEG decoding. A page is its size plus a list of drawings, and text width is a parameter.
- The text of a pdf-lib error for a template it rejects is not modelled. The rejection itself is. `req.json()` failures on malformed bodies are not modelled.
- `CertificateEditor.EditorPage.CanvasClick`: it requires a box of positive width and height. The browser's bounding box of a rendered preview always has one.
- `ProfileHeader.StatusLabel`: JavaScript object-prototype keys such as `constructor` used as a status are not modelled.
- `ActivityForm.MinuteOfDay`: accepts only strict `HH:MM` with hours 00-23. The browser's lenient date parsing and `24:00` are not modelled. They make the duration `NaN`, and the model carries that case.
- Time zones and daylight saving are not modelled.
- Locale formatting (`toLocaleDateString`, `toLocaleTimeString`) is a function parameter.
- Async interleavings and the intermediate loading states of pages are not modelled. Each handler is one step.
- Calls made through the `ActivityRepository` name are outcome parameters: whether the list, create and delete succeed. That name is not exported by the repository file, and `src/integrations/supabase/client.ts` is not part of this model.
- `MarkPresence.PresencePage.Load`: the activity title fetch is not modelled because it only sets a heading.
- `Text.Upper` and `Text.Lower` map ASCII letters only. Unicode case mapping of accented names is not modelled.
- `CertificateTemplateRepository.saveTemplate` is not modelled. It is the upload page's path, and that page is outside this model.
- `usePlatform`'s resize listener is not modelled. It re-runs `CheckPlatform`, which the model covers.
- Not modelled for the sidebar, because they are presentation only:
  - the sidebar's active-link styling;
  - the `end` flag on its links;
  - animations.
- Not modelled for sharing:
  - the unused `shareText`;
  - the clipboard's success and failure toasts.
- The in-memory repositories start from their fixtures. The model starts each store from any given contents.
- Logging (`console.log`, `console.error`) and the CORS headers are not modelled.
- `GenerateCertificate.ErrorMessage`: errors raised inside pdf-lib or by reading a missing join carry no message in the model, because their text comes from the library or the runtime.

## Findings

| source | as written | input that shows it | evidently intended | confidence | as-written member | corrected member |
|---|---|---|---|---|---|---|
| src/pages/ValidateCertificatePage.tsx:119-123 with src/repositories/CertificateRepository.ts:20-26 | the panel reads `carga_horaria_minutos` and `data_emissao`, which the repository's certificate object never sets | any validated certificate, e.g. a 20-hour record with code `SIGEA-E1XX-26`: the panel shows `NaN Horas` and `Invalid Date` | the panel shows the record's workload in hours and its issue date | high (not executed) | ValidatePage.AsWrittenPanelLosesRecord, ValidatePage.AsWrittenTwentyHoursShowsNaN, CertificateRepository.ValidateAsWritten, ValidatePage.ValidationPage.VisiblePanel | CertificateRepository.Validate, ValidatePage.ShownPanel, ValidatePage.PanelShowsRecord |
| src/components/profile/ProfileHeader.tsx:16-18 | `split(' ')` keeps empty parts, and `''[0]` interpolates as `undefined` | the name `"Ana "` shows the initials `AUNDEFINED` | the initials of the first and last words | high (not executed) | ProfileHeader.InitialsAsWritten, ProfileHeader.TrailingSpaceShowsUndefined, ProfileHeader.HeaderShowsUndefined | ProfileHeader.Initials, ProfileHeader.InitialsAgreeWithoutEmptyParts |
