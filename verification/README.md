# User access management: benefits-enrollment core in Dafny

This project models the core of the user-access-management service. The
service keeps an employer's benefits-enrollment table in sync with a
delimited file that the employer uploads. It also signs users up against the
User Directory.

The model covers:

- **The enrollment job** (`ProcessBenefitsEnrollmentCommandHandler`). It:
  - resolves the employer in the Employer Directory;
  - downloads the file;
  - removes the employer's existing rows and commits that removal;
  - derives the report path;
  - walks the file's rows;
  - commits the staged rows;
  - asks the User Directory to delete every user of the employer that no
    valid row kept. A row keeps a user only when its lookup found exactly
    that one user. So the users of invalid rows, of ambiguous lookups and of
    lookups that threw are deleted as well.
- **The row loop**, as a fold over the reader's events (`EnrollmentStream`):
  - A malformed line becomes a pending parse error.
  - A parsed record first flushes the pending errors, ordered by line
    number, and then yields exactly one report row of its own.
  - A valid record looks up its user, updates country and salary when
    exactly one user matches, then is mapped and staged.
  - Any exception inside one record becomes that record's report row.
- **The report row** `BenefitsEnrollmentProcessedRecord`:
  - its four constructors;
  - its `|`-delimited line format.
- **The validators**:
  - the three FluentValidation validators: file record, enrollment request,
    sign-up;
  - the mediator's `ValidatorBehavior`, which collects all their failures
    or passes the request on.
- **`SignUpCommandHandler`**:
  - An address with one enrollment row becomes an employer-sponsored user.
  - An address with several enrollment rows throws.
  - An address with no enrollment row becomes a direct-to-consumer user,
    unless the User Directory already knows it.
  - A failing directory call escapes before anything is created.
- **`BenefitsEnrollmentMapper.Map` and `FileHelper.AddSuffix`.**

Collaborators are function-valued fields of `Env` datatypes, and every call
that may throw returns a `Result`:

- the Employer and User Directory clients;
- the download;
- the file reader;
- `SaveChangesAsync`;
- the repository's `AddAsync`;
- the currency formatter;
- the validation library's default messages.

A `null` string or list is `None`. The enrollment table is a sequence of
rows. The job's result records:

- its outcome;
- the table afterwards;
- the downloads it requested;
- the report path and rows;
- the delete requests it sent.

## Model

| member | source | states |
|---|---|---|
| EnrollmentJob.Handle | src/UserAccessManagement/Application/Commands/ProcessBenefitsEnrollmentCommandHandler.cs:57-83 | A null request or a blank employer name throws. Every later failure ends the job with `false`. The table changes only once the purge is committed, and is never rolled back. At most one delete request is sent: exactly when the staged rows were committed, with the kept ids and the employer's id. The job answers `true` exactly when that request succeeds. A report path exists only once the purge is committed, and it is then the downloaded path with the timestamped suffix, whenever that can be derived. |
| EnrollmentJob.AfterEmployer | src/UserAccessManagement/Application/Commands/ProcessBenefitsEnrollmentCommandHandler.cs:67-69 | A failed download or a failed purge commit leaves the table untouched and sends nothing. Otherwise the job continues from the committed purge. |
| EnrollmentJob.AfterPurge | src/UserAccessManagement/Application/Commands/ProcessBenefitsEnrollmentCommandHandler.cs:85-151 | An unreadable file, or a report path that cannot be derived, leaves only the purge and an empty report. Otherwise the report is the loop's report. The table is the purge plus the staged rows exactly when the final commit succeeded; then one delete request follows. The report path is present exactly when the downloaded path takes the `-Processing-Report-` suffix with the timestamp, and is that path. |
| EnrollmentJob.ResolveEmployer | src/UserAccessManagement/Application/Commands/ProcessBenefitsEnrollmentCommandHandler.cs:153-165 | Succeeds exactly when the directory names exactly one employer, and returns it. A null or empty answer raises the not-found message with the requested name. |
| EnrollmentJob.PurgeKeepsOthers | src/UserAccessManagement/Application/Commands/ProcessBenefitsEnrollmentCommandHandler.cs:167-172 | The purge keeps exactly the rows of the other employers. |
| EnrollmentJob.PurgeTwice | src/UserAccessManagement/Application/Commands/ProcessBenefitsEnrollmentCommandHandler.cs:167-172 | Purging is idempotent. |
| EnrollmentJob.PurgeAppend | src/UserAccessManagement/Application/Commands/ProcessBenefitsEnrollmentCommandHandler.cs:167-172 | Purging distributes over concatenation of tables. |
| EnrollmentJob.PurgeOwnRows | src/UserAccessManagement/Application/Commands/ProcessBenefitsEnrollmentCommandHandler.cs:169 | Rows that all belong to the employer are removed entirely. |
| EnrollmentJob.OtherEmployersUntouched | src/UserAccessManagement/Application/Commands/ProcessBenefitsEnrollmentCommandHandler.cs:63-82 | Whatever step a job stops at, the other employers' rows are the same before and after it. |
| EnrollmentJob.InterruptedJobLeavesNoRows | src/UserAccessManagement/Application/Commands/ProcessBenefitsEnrollmentCommandHandler.cs:69-73 | A job that commits the purge and then fails before the final commit leaves the employer with no rows: nothing is rolled back. |
| EnrollmentJob.SuccessfulJobIsIdempotent | src/UserAccessManagement/Application/Commands/ProcessBenefitsEnrollmentCommandHandler.cs:63-76 | Re-running a successful job on the table it left gives the same run and table, when every collaborator answers as in the first run, the User Directory included. |
| EnrollmentJob.RerunAfterOwnDeleteIsIdempotent | src/UserAccessManagement/Application/Commands/ProcessBenefitsEnrollmentCommandHandler.cs:63-76 | Re-running a successful job on the table it left, against the User Directory as its own delete request left it, gives the same run and table, provided no successful lookup of a valid record named several users. A lookup that throws fails the same way on the re-run. |
| EnrollmentJob.EmployerRowsAfterSuccess | src/UserAccessManagement/Application/Commands/ProcessBenefitsEnrollmentCommandHandler.cs:116-131 | After a successful job the table is the other employers' rows followed by the file's staged rows: the entities of the valid records whose lookup, update and add completed, in file order. Every row of the employer maps such a record. |
| EnrollmentStream.ProcessRecord | src/UserAccessManagement/Application/Commands/ProcessBenefitsEnrollmentCommandHandler.cs:116-136 | Every record gets one row with its own line number. An invalid record is only reported. A record is staged exactly when it is valid and every call on the way completes; it is then staged as its mapped entity with the success row. A user id is kept exactly when a valid record's lookup finds exactly one user, even if the update then fails. |
| EnrollmentStream.Reconcile | src/UserAccessManagement/Application/Commands/ProcessBenefitsEnrollmentCommandHandler.cs:174-212 | The update request goes out exactly for a single matching user, and carries only country and formatted salary. Several matching users fail the row with the runtime's message. Staging happens exactly when lookup, update and add all complete. |
| EnrollmentStream.Persist | src/UserAccessManagement/Application/Commands/ProcessBenefitsEnrollmentCommandHandler.cs:126-130 | The row reports success exactly when the add completed, and the staged entity carries the employer's name. |
| EnrollmentStream.FlushWritesEachErrorOnce | src/UserAccessManagement/Application/Commands/ProcessBenefitsEnrollmentCommandHandler.cs:106-114 | A flush writes every pending parse error exactly once, ordered by line number, and keeps errors already in order unchanged. |
| EnrollmentStream.ReportCoversEveryEvent | src/UserAccessManagement/Application/Commands/ProcessBenefitsEnrollmentCommandHandler.cs:102-147 | The report holds exactly one row per event of the file: each record's own outcome and each parse error's own line. None is lost or repeated. |
| EnrollmentStream.OrderedStreamKeepsOrder | src/UserAccessManagement/Application/Commands/ProcessBenefitsEnrollmentCommandHandler.cs:102-147 | When the events arrive in line order, the report is the events' rows in that same order. |
| EnrollmentStream.SeenIsSingleMatches | src/UserAccessManagement/Application/Commands/ProcessBenefitsEnrollmentCommandHandler.cs:184-191 | The kept ids are exactly the ids of the single users found for valid records. |
| EnrollmentStream.UpdatesAreReference | src/UserAccessManagement/Application/Commands/ProcessBenefitsEnrollmentCommandHandler.cs:184-211 | The update requests are, in file order, one per valid record whose lookup found one user: that user's id with the record's country and formatted salary. They are sent whether or not the add then fails. |
| EnrollmentStream.SameLookupsSameRun | src/UserAccessManagement/Application/Commands/ProcessBenefitsEnrollmentCommandHandler.cs:116-136 | Two User Directories that answer every valid record's lookup alike lead the loop to the same final state: report, staged rows, kept ids and updates. |
| EnrollmentStream.RerunAfterDeleteIsSame | src/UserAccessManagement/Application/Commands/ProcessBenefitsEnrollmentCommandHandler.cs:184-222 | When no successful lookup of a valid record names several users, the directory as the loop's own delete request leaves it answers every valid record's lookup as before, a failing lookup included, so a second loop over the file ends in the same state. |
| EnrollmentStream.AmbiguousRecordNotKept | src/UserAccessManagement/Application/Commands/ProcessBenefitsEnrollmentCommandHandler.cs:182-186 | A record whose lookup finds several users stages nothing and keeps no user. |
| EnrollmentStream.AmbiguousRecordStagedOnRerun | src/UserAccessManagement/Application/Commands/ProcessBenefitsEnrollmentCommandHandler.cs:184-222 | A re-run can differ: a valid record whose lookup finds several users of the employer is not staged and keeps none of them, so the delete request removes them all; over the directory this leaves, the same record is staged. |
| Services.Survivors | src/UserAccessManagement/Infrastructure/External/Services/Users/IUserService.cs:16-24 | After a delete request, a lookup answer keeps exactly its users of other employers and the employer's users whose id the request lists, in order. |
| Services.AllSurvive | src/UserAccessManagement/Infrastructure/External/Services/Users/IUserService.cs:16-24 | An answer whose users all survive the delete request is unchanged by it. |
| Services.NoneSurvive | src/UserAccessManagement/Infrastructure/External/Services/Users/IUserService.cs:16-24 | An answer none of whose users survives the delete request becomes empty. |
| EnrollmentStream.StagedFromValidRecords | src/UserAccessManagement/Application/Commands/ProcessBenefitsEnrollmentCommandHandler.cs:118-128 | Every staged entity is the mapping of a valid record of the stream whose lookup, update and add completed, and carries the resolved employer's name. |
| EnrollmentStream.StagedIsReference | src/UserAccessManagement/Application/Commands/ProcessBenefitsEnrollmentCommandHandler.cs:116-131 | The loop stages exactly the entities of the valid records whose lookup, update and add completed, once each and in file order. A record whose lookup, update or add threw adds no row. |
| EnrollmentStream.ValidRecordsAreStaged | src/UserAccessManagement/Application/Commands/ProcessBenefitsEnrollmentCommandHandler.cs:122-131 | Every valid record whose lookup, update and add complete has its entity staged. |
| ProcessedRecord.FromDescription | src/UserAccessManagement/Application/Models/BenefitsEnrollmentProcessedRecord.cs:18-27 | A null or whitespace description is refused with the argument message. Any other keeps line number and description. |
| ProcessedRecord.FromException | src/UserAccessManagement/Application/Models/BenefitsEnrollmentProcessedRecord.cs:29-35 | A null exception is refused. Otherwise the description is the exception's message. |
| ProcessedRecord.FromValidation | src/UserAccessManagement/Application/Models/BenefitsEnrollmentProcessedRecord.cs:37-44 | A null result is refused. Otherwise the description starts with the validation prefix. |
| ProcessedRecord.FromParseError | src/UserAccessManagement/Application/Models/BenefitsEnrollmentProcessedRecord.cs:46-52 | A null error is refused. Otherwise line number and message come from the reader's error. |
| ProcessedRecord.ValidationDescriptionDecodes | src/UserAccessManagement/Application/Models/BenefitsEnrollmentProcessedRecord.cs:42-43 | Splitting the validation description at `;` after the prefix gives back each failure's rendering, in order, when none contains `;`. |
| ProcessedRecord.LineRoundTrip | src/UserAccessManagement/Application/Models/BenefitsEnrollmentProcessedRecord.cs:8-13 | Reading a written report line gives back the row, when the description has no `|`. |
| ProcessedRecord.ReportRoundTrip | src/UserAccessManagement/Application/Models/BenefitsEnrollmentProcessedRecord.cs:8-13 | Reading a written report gives back all its rows in order, when no description has `|` or a line break. |
| Numerals.IntRoundTrip | src/UserAccessManagement/Application/Models/BenefitsEnrollmentProcessedRecord.cs:12 | Parsing a rendered line number gives the number back, negative numbers included. |
| Services.SingleOrDefault | src/UserAccessManagement/Application/Commands/ProcessBenefitsEnrollmentCommandHandler.cs:184 | A null or empty list gives null, a single element gives it, and more than one throws. |
| LineOrder.SortBySorted | src/UserAccessManagement/Application/Commands/ProcessBenefitsEnrollmentCommandHandler.cs:108 | Ordering by a key gives a sequence sorted by that key. |
| LineOrder.SortByStable | src/UserAccessManagement/Application/Commands/ProcessBenefitsEnrollmentCommandHandler.cs:108 | The ordering is stable: elements with equal keys keep their relative order. |
| Validation.EmailRule | src/UserAccessManagement/Application/Validators/BenefitsEnrollmentFileRecordValidator.cs:14-18 | The e-mail chain reports nothing exactly for a non-blank, e-mail-shaped address of at most 320 characters. Every failure it reports is about Email. |
| Validation.CountryRule | src/UserAccessManagement/Application/Validators/BenefitsEnrollmentFileRecordValidator.cs:20-23 | The country chain reports nothing exactly for a non-blank country of one or two characters. Every failure it reports is about Country. |
| FileRecordValidator.Validate | src/UserAccessManagement/Application/Validators/BenefitsEnrollmentFileRecordValidator.cs:14-23 | A row is valid exactly when e-mail and country are acceptable. Failures name only Email and Country, and each property is named exactly when its value is unacceptable. |
| FileRecordValidator.OnlyEmailAndCountryMatter | src/UserAccessManagement/Application/Validators/BenefitsEnrollmentFileRecordValidator.cs:14-23 | Rows agreeing on e-mail and country get the same failures, whatever their other fields. |
| FileRecordValidator.PlainAddressRejected | tests/UserAccessManagement.UnitTests/Application/Validators/BenefitsEnrollmentFileRecordValidatorTests.cs:37-43 | "plainaddress" fails the e-mail address check. |
| FileRecordValidator.CountryAtMostTwo | src/UserAccessManagement/Application/Validators/BenefitsEnrollmentFileRecordValidator.cs:20-23 | "BRA" fails the maximum length; "BR" and "B" raise no country failure. |
| RequestValidator.Validate | src/UserAccessManagement/Application/Validators/RequestBenefitsEnrollmentValidator.cs:14-20 | A submission is valid exactly when file and employer name are both non-blank. Each property is named exactly when it is blank. |
| EnrollmentJob.AcceptedSubmissionNeverThrows | src/UserAccessManagement/BackgroundTasks/BenefitsEnrollmentWorker.cs:63-67 | The job the worker starts for a submission the request validator accepted never throws: it answers `true` or `false`. Once its employer is resolved, it downloads the submitted file. |
| SignUpValidator.PasswordChecksAccept | src/UserAccessManagement/Application/Validators/SignUpValidator.cs:20-28 | The password chain accepts exactly the non-blank passwords of at least 8 characters that hold an upper-case letter, a lower-case letter, a digit and one of `! ? * .`. |
| SignUpValidator.PasswordRule | src/UserAccessManagement/Application/Validators/SignUpValidator.cs:20-28 | The password rule reports nothing exactly for a strong password, and otherwise only Password failures. |
| SignUpValidator.Validate | src/UserAccessManagement/Application/Validators/SignUpValidator.cs:14-33 | A sign-up is valid exactly when e-mail, password and country are all acceptable. Each property is named exactly when its value is not acceptable. |
| SignUpValidator.SamplePasswordAccepted | tests/UserAccessManagement.UnitTests/Application/Validators/SignUpValidatorTests.cs:101-107 | "x4xxfgKr5T*" passes every password check. |
| SignUpValidator.MissingSymbolIsTheOnlyFailure | tests/UserAccessManagement.UnitTests/Application/Validators/SignUpValidatorTests.cs:93-99 | "Password1" fails the symbol check and nothing else. |
| SignUpValidator.SpaceIsNotASymbol | src/UserAccessManagement/Application/Validators/SignUpValidator.cs:28 | A space does not satisfy the symbol check, although the message's text shows one. |
| ValidatorBehavior.Handle | src/UserAccessManagement/Application/Behaviors/ValidatorBehavior.cs:25-50 | `next` runs at most once: exactly when no validator throws and no failure is collected. If a validator throws, the first such exception is thrown. Otherwise any collected failure rejects the request, carrying every non-null failure of every validator, in order. Otherwise the response, or the error, of `next` is passed on. |
| ValidatorBehavior.EveryFailureRejects | src/UserAccessManagement/Application/Behaviors/ValidatorBehavior.cs:32-46 | When no validator throws, any non-null failure any validator reports rejects the request, appears among the rejection's failures, and keeps `next` from running. |
| ValidatorBehavior.CollectAppend | src/UserAccessManagement/Application/Behaviors/ValidatorBehavior.cs:32-36 | Later validators' failures follow earlier ones', and one validator contributes exactly its non-null failures. |
| ValidatorBehavior.NoValidatorsPassThrough | src/UserAccessManagement/Application/Behaviors/ValidatorBehavior.cs:32-49 | With no validators the step calls `next` once and returns its response. |
| SignUp.WithEmail | src/UserAccessManagement/Application/Commands/SignUpCommandHandler.cs:58-65 | The rows found for an address are exactly the table's rows with that address. |
| SignUp.Handle | src/UserAccessManagement/Application/Commands/SignUpCommandHandler.cs:40-139 | At most one user is created, and `true` is answered exactly when that creation returns, whatever its boolean. Several enrollment rows for the address throw. One row creates an employer user from the row, with no conflict check. No row checks for a conflict, then creates a direct-to-consumer user. A failing user or employer lookup, or several employers, escapes with that exception and creates nothing. The created user always keeps the sign-up's address and password. |
| SignUp.EmployerSignUp | src/UserAccessManagement/Application/Commands/SignUpCommandHandler.cs:67-100 | The employer user is sent exactly when the directory names exactly one employer, and carries that employer's id. A failing, empty or ambiguous lookup escapes before anything is created. |
| SignUp.DtcSignUp | src/UserAccessManagement/Application/Commands/SignUpCommandHandler.cs:102-139 | The direct-to-consumer user is sent exactly when the address lookup answers null or empty. A failing lookup escapes, and a known address raises the conflict, both before anything is created. |
| Mapper.Map | src/UserAccessManagement/Application/Mappers/BenefitsEnrollmentMapper.cs:9-24 | A null record throws. Otherwise the entity copies the five data fields, takes the employer name and has no id yet. |
| Mapper.MapForgetsOnlyPosition | src/UserAccessManagement/Application/Mappers/BenefitsEnrollmentMapper.cs:15-20 | Two rows map to the same entity exactly when their data fields and employer names agree: only line number and raw line are dropped. |
| FileHelper.AddSuffix | src/UserAccessManagement/Infrastructure/Helpers/FileHelper.cs:36-47 | A null or blank path is refused, and so is a path whose file stem is empty. Otherwise the result grows by the suffix length once per occurrence of the stem. |
| FileHelper.AddSuffixShape | src/UserAccessManagement/Infrastructure/Helpers/FileHelper.cs:43-44 | The file's own stem always receives the suffix and keeps its extension. Occurrences of the stem in the directory or the extension are rewritten too. |
| FileHelper.AddSuffixSingleOccurrence | src/UserAccessManagement/Infrastructure/Helpers/FileHelper.cs:43-44 | When the stem occurs once, the result is directory, stem, suffix, extension. |
| FileHelper.EmptySuffixIsIdentity | src/UserAccessManagement/Infrastructure/Helpers/FileHelper.cs:43-44 | An empty suffix leaves a valid path unchanged. |
| FileHelper.ReplaceAllLength | src/UserAccessManagement/Infrastructure/Helpers/FileHelper.cs:44 | Each replacement changes the length by the length difference of new and old text. |
| FileHelper.Decompose | src/UserAccessManagement/Infrastructure/Helpers/FileHelper.cs:43 | A path is its directory, its stem and its extension, in that order. |

## Left out

- The employer lock: `AsyncLocker` serialises jobs per employer name. Only its check for a blank key is modelled. The concurrency of the background worker and its channel is not part of this model.
- The HTTP transfer and temporary-file handling of `DownloadFileAsync` (`FileHelper.cs:21-33`) are an oracle. Only its check for a blank source is modelled.
- `DateTime.UtcNow` in the report suffix is a parameter (`Env.timestamp`).
- The FileHelpers delimited reader and its error manager are an oracle. It yields the file's events in order, each a parsed record or a line error. Its field conversions are not modelled.
- A reader fault in the middle of the stream, or a failure while writing the report, is not modelled. The file is read whole or not at all.
- `decimal.ToString("C")` and the validation library's default messages are oracles. Only the messages given with `WithMessage` are literal.
- The database: `SaveChangesAsync` is an oracle over the table content it would make durable, and id assignment is not modelled. `_repository.Remove(predicate)` and `AddAsync` only mark rows: they are assumed to reach the table through the `SaveChangesAsync` that follows, and never by themselves.
- The sign-up's enrollment lookup uses the repository library's `SingleOrDefaultAsync(query)`, whose code is not part of this model. It is assumed to behave as LINQ's `SingleOrDefault`: no row gives null, one row gives it, several rows throw.
- User ids answered by the User Directory are assumed non-null (`Services.User.id` is a plain string), although `RetrieveUserResponse.Id` is nullable. The job would keep and send a null id like any other.
- Row order inside the table is kept as a sequence, and the purge keeps it.
- The `EmailAddress` check is the library's default form: exactly one `@`, neither first nor last.
- String lengths are counted in Unicode scalar values, not UTF-16 code units, for `MaximumLength`, `MinimumLength` and the 320-character bound.
- Paths use only the Unix separator `/`. Windows separators and volume names are not modelled.
- A validator's error list may hold null entries, and `ValidatorBehavior` drops them. The severity of library failures is fixed at Error.
- EnrollmentStream.Process: the row loop is modelled as two steps. Each event's outcome is computed on its own, then the outcomes are folded. This is equivalent because processing a record reads nothing the loop has accumulated: the kept-id set is only ever added to.
- EnrollmentJob.Handle: logging and the cancellation token are not modelled.
- EnrollmentJob.SuccessfulJobIsIdempotent: holds only with every collaborator answering as in the first run. The User Directory is frozen there, so the first run's own delete request does not reach the second run's lookups. `EnrollmentJob.RerunAfterOwnDeleteIsIdempotent` lets the deletes through, but it still needs that no successful lookup of a valid record names several users. `EnrollmentStream.AmbiguousRecordStagedOnRerun` shows that an ambiguous lookup makes the re-run stage a row the first run did not. A lookup, update or add that fails only transiently is not modelled: the oracles answer every run alike.
- Services.LookupsAfterDelete: models only the lookups' view of `DeleteUsersAsync`, which removes users. Updates of country and salary do not change what a lookup answers, because a user is reduced to id, e-mail and employer.
- ProcessedRecord.LineRoundTrip: requires a description without `|`. The two-field format cannot carry one, and the source does not check for it.
