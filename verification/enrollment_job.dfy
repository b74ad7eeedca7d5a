/** `ProcessBenefitsEnrollmentCommandHandler.Handle`: one job for one
    employer. Outside the `try`: the null-request check and the employer
    lock's key check, whose failures propagate. Inside: resolve the employer,
    download the file, purge and commit the employer's rows, derive the report
    path, run the row loop, commit the staged rows, ask the User Directory to
    delete the employer's users that were not kept. Any failure inside the
    `try` ends the job with `false`; nothing already committed is undone. */
module EnrollmentJob {
  import opened Wrappers
  import opened Errors
  import opened Text
  import opened Records
  import opened Services
  import opened Commands
  import opened ProcessedRecord
  import Stream = EnrollmentStream
  import FileHelper
  import RequestValidator

  const ReportSuffix := "-Processing-Report-"

  /** The job's collaborators. */
  datatype Env = Env(
    /** `GetEmployersAsync`, filtered by name. */
    findEmployers: Option<string> -> Result<Option<seq<Employer>>, Exn>,
    /** The transfer part of `DownloadFileAsync`: the local path written. */
    download: string -> Result<string, Exn>,
    /** `DateTime.UtcNow` formatted as `yyyyMMddHHmmssfff`. */
    timestamp: string,
    /** Opening the downloaded file and reading it into events. */
    read: string -> Result<seq<Stream.ReadEvent>, Exn>,
    /** `SaveChangesAsync`, given the table content it would make durable. */
    save: seq<Enrollment> -> Result<(), Exn>,
    /** `DeleteUsersAsync`. */
    deleteUsers: DeleteUsersRequest -> Result<bool, Exn>,
    /** The row loop's collaborators. */
    stream: Stream.Env)

  /** What one job did: its outcome, the committed table afterwards, the
      files it asked to download, the report path and rows, and the delete
      requests it sent. */
  datatype JobRun = JobRun(
    outcome: Result<bool, Exn>,
    store: seq<Enrollment>,
    downloads: seq<Option<string>>,
    reportPath: Option<string>,
    report: seq<OutcomeRow>,
    deletes: seq<DeleteUsersRequest>)

  /** `GetEmployerAsync`: the directory must name exactly one employer. */
  function ResolveEmployer(env: Env, employerName: Option<string>): (r: Result<Employer, Exn>)
    ensures r.Success? <==>
      var found := env.findEmployers(employerName);
      found.Success? && found.value.Some? && |found.value.value| == 1
    ensures r.Success? ==> r.value == env.findEmployers(employerName).value.value[0]
    ensures env.findEmployers(employerName) in {Success(None), Success(Some([]))} ==>
      r == Failure(NotFound("Employer '" + Show(employerName) + "' was not found."))
  {
    match env.findEmployers(employerName)
    case Failure(e) => Failure(e)
    case Success(employers) =>
      match SingleOrDefault(employers)
      case Failure(e) => Failure(e)
      case Success(None) => Failure(NotFound("Employer '" + Show(employerName) + "' was not found."))
      case Success(Some(employer)) => Success(employer)
  }

  /** `DownloadFileAsync`: refuses a null or whitespace source before transferring. */
  function Download(env: Env, file: Option<string>): (r: Result<string, Exn>)
    ensures IsNullOrWhiteSpace(file) ==>
      r == Failure(Argument("'sourceFilePath' cannot be null or whitespace.", "sourceFilePath"))
    ensures !IsNullOrWhiteSpace(file) ==> r == env.download(file.value)
  {
    if IsNullOrWhiteSpace(file) then
      Failure(Argument("'sourceFilePath' cannot be null or whitespace.", "sourceFilePath"))
    else env.download(file.value)
  }

  /** `RemoveExistingEnrollmentsAsync` before its commit: the rows of every
      other employer, in their order. */
  function Purge(store: seq<Enrollment>, employerName: Option<string>): (r: seq<Enrollment>)
    ensures |r| <= |store|
  {
    if |store| == 0 then []
    else if store[0].employerName == employerName then Purge(store[1..], employerName)
    else [store[0]] + Purge(store[1..], employerName)
  }

  /** The purge keeps exactly the rows of the other employers. */
  lemma {:induction false} PurgeKeepsOthers(store: seq<Enrollment>, employerName: Option<string>)
    ensures forall e :: e in Purge(store, employerName) <==> e in store && e.employerName != employerName
    decreases |store|
  {
    if |store| > 0 {
      PurgeKeepsOthers(store[1..], employerName);
      assert store == [store[0]] + store[1..];
    }
  }

  /** The employer and the downloaded path, when those steps succeed. */
  predicate Located(env: Env, cmd: ProcessCommand) {
    ResolveEmployer(env, cmd.employerName).Success? && Download(env, cmd.file).Success?
  }

  function EmployerOf(env: Env, cmd: ProcessCommand): Employer
    requires Located(env, cmd)
  {
    ResolveEmployer(env, cmd.employerName).value
  }

  /** The purge was made durable. */
  predicate Committed(env: Env, cmd: ProcessCommand, store: seq<Enrollment>) {
    Located(env, cmd) && env.save(Purge(store, EmployerOf(env, cmd).name)).Success?
  }

  /** The report path can be derived from `path` and the file at `path` was read. */
  predicate Readable(env: Env, path: string) {
    FileHelper.AddSuffix(Some(path), ReportSuffix + env.timestamp).Success? && env.read(path).Success?
  }

  /** The row loop's final state over the file at `path`. */
  function LoopOver(env: Env, employer: Employer, path: string): Stream.State
    requires Readable(env, path)
  {
    Stream.Process(env.stream, employer, env.read(path).value)
  }

  /** The report path was derived and the downloaded file was read. */
  predicate Streamed(env: Env, cmd: ProcessCommand) {
    Located(env, cmd) && Readable(env, Download(env, cmd.file).value)
  }

  /** The row loop's final state. */
  function StreamOf(env: Env, cmd: ProcessCommand): Stream.State
    requires Streamed(env, cmd)
  {
    LoopOver(env, EmployerOf(env, cmd), Download(env, cmd.file).value)
  }

  /** From the report path on, after the purge was committed. */
  function AfterPurge(env: Env, cmd: ProcessCommand, employer: Employer, path: string,
                      purged: seq<Enrollment>): (run: JobRun)
    ensures run.outcome.Success? && run.downloads == [cmd.file]
    // an unreadable file leaves the committed purge and sends nothing
    ensures !Readable(env, path) ==> run.store == purged && run.report == [] && run.deletes == []
    ensures Readable(env, path) ==>
      && run.report == LoopOver(env, employer, path).report
      && (run.store == purged || run.store == purged + LoopOver(env, employer, path).staged)
    // the delete request goes out exactly when the staged rows were committed
    ensures |run.deletes| <= 1
    ensures |run.deletes| == 1 <==>
      Readable(env, path) && env.save(purged + LoopOver(env, employer, path).staged).Success?
    ensures |run.deletes| == 1 ==>
      && run.deletes[0] == DeleteUsersRequest(LoopOver(env, employer, path).seen, employer.id)
      && run.store == purged + LoopOver(env, employer, path).staged
    ensures |run.deletes| == 0 ==> run.store == purged
    ensures run.outcome == Success(true) <==> |run.deletes| == 1 && env.deleteUsers(run.deletes[0]).Success?
    // the report path is the downloaded path with the timestamped suffix, whenever that can be derived
    ensures run.reportPath.Some? <==> FileHelper.AddSuffix(Some(path), ReportSuffix + env.timestamp).Success?
    ensures run.reportPath.Some? ==>
      run.reportPath.value == FileHelper.AddSuffix(Some(path), ReportSuffix + env.timestamp).value
  {
    match FileHelper.AddSuffix(Some(path), ReportSuffix + env.timestamp)
    case Failure(_) => JobRun(Success(false), purged, [cmd.file], None, [], [])
    case Success(reportPath) =>
      match env.read(path)
      case Failure(_) => JobRun(Success(false), purged, [cmd.file], Some(reportPath), [], [])
      case Success(events) =>
        var st := Stream.Process(env.stream, employer, events);
        var final := purged + st.staged;
        match env.save(final)
        case Failure(_) => JobRun(Success(false), purged, [cmd.file], Some(reportPath), st.report, [])
        case Success(_) =>
          var request := DeleteUsersRequest(st.seen, employer.id);
          match env.deleteUsers(request)
          case Failure(_) => JobRun(Success(false), final, [cmd.file], Some(reportPath), st.report, [request])
          case Success(_) => JobRun(Success(true), final, [cmd.file], Some(reportPath), st.report, [request])
  }

  /** From the download on, once the employer is resolved. */
  function AfterEmployer(env: Env, cmd: ProcessCommand, employer: Employer, store: seq<Enrollment>): (run: JobRun)
    ensures run.outcome.Success? && run.downloads == [cmd.file]
    // nothing reaches the table before the download succeeded and the purge was committed
    ensures Download(env, cmd.file).Failure? || env.save(Purge(store, employer.name)).Failure? ==>
      run == JobRun(Success(false), store, [cmd.file], None, [], [])
    ensures Download(env, cmd.file).Success? && env.save(Purge(store, employer.name)).Success? ==>
      run == AfterPurge(env, cmd, employer, Download(env, cmd.file).value, Purge(store, employer.name))
  {
    match Download(env, cmd.file)
    case Failure(_) => JobRun(Success(false), store, [cmd.file], None, [], [])
    case Success(path) =>
      var purged := Purge(store, employer.name);
      match env.save(purged)
      case Failure(_) => JobRun(Success(false), store, [cmd.file], None, [], [])
      case Success(_) => AfterPurge(env, cmd, employer, path, purged)
  }

  /** `Handle(request)`. */
  function Handle(env: Env, request: Option<ProcessCommand>, store: seq<Enrollment>): (run: JobRun)
    // the two checks before the `try` propagate; nothing else does
    ensures request.None? ==> run == JobRun(Failure(ArgumentNull("request")), store, [], None, [], [])
    ensures request.Some? && IsNullOrWhiteSpace(request.value.employerName) ==>
      run == JobRun(Failure(Argument("'key' cannot be null or whitespace.", "key")), store, [], None, [], [])
    ensures run.outcome.Failure? <==> request.None? || IsNullOrWhiteSpace(request.value.employerName)
    // an unresolved employer ends the job before any download or purge
    ensures request.Some? && !IsNullOrWhiteSpace(request.value.employerName)
            && ResolveEmployer(env, request.value.employerName).Failure? ==>
      run == JobRun(Success(false), store, [], None, [], [])
    // the table changes only once the purge is committed, and is then never rolled back
    ensures request.Some? && !Committed(env, request.value, store) ==> run.store == store && run.deletes == []
    ensures request.Some? && !IsNullOrWhiteSpace(request.value.employerName) && Committed(env, request.value, store) ==>
      var purged := Purge(store, EmployerOf(env, request.value).name);
      && (run.store == purged || (Streamed(env, request.value) && run.store == purged + StreamOf(env, request.value).staged))
      && (|run.deletes| == 0 ==> run.store == purged)
    ensures request.Some? && !IsNullOrWhiteSpace(request.value.employerName)
            && Committed(env, request.value, store) && Streamed(env, request.value) ==>
      run.report == StreamOf(env, request.value).report
    // one delete request at most, sent exactly when the final commit succeeded, even with no user kept
    ensures |run.deletes| <= 1
    ensures |run.deletes| == 1 <==>
      && request.Some? && !IsNullOrWhiteSpace(request.value.employerName)
      && Committed(env, request.value, store) && Streamed(env, request.value)
      && env.save(Purge(store, EmployerOf(env, request.value).name) + StreamOf(env, request.value).staged).Success?
    ensures |run.deletes| == 1 ==>
      && run.deletes[0] == DeleteUsersRequest(StreamOf(env, request.value).seen, EmployerOf(env, request.value).id)
      && run.store == Purge(store, EmployerOf(env, request.value).name) + StreamOf(env, request.value).staged
    // `true` exactly when the delete request went through as well
    ensures run.outcome == Success(true) <==> |run.deletes| == 1 && env.deleteUsers(run.deletes[0]).Success?
    // a report path is derived only once the purge is committed, from the downloaded path
    ensures run.reportPath.Some? ==>
      && request.Some? && !IsNullOrWhiteSpace(request.value.employerName) && Committed(env, request.value, store)
      && FileHelper.AddSuffix(Some(Download(env, request.value.file).value), ReportSuffix + env.timestamp)
         == Success(run.reportPath.value)
    ensures request.Some? && !IsNullOrWhiteSpace(request.value.employerName) && Committed(env, request.value, store)
            && FileHelper.AddSuffix(Some(Download(env, request.value.file).value), ReportSuffix + env.timestamp).Success? ==>
      run.reportPath.Some?
  {
    if request.None? then JobRun(Failure(ArgumentNull("request")), store, [], None, [], [])
    else if IsNullOrWhiteSpace(request.value.employerName) then
      JobRun(Failure(Argument("'key' cannot be null or whitespace.", "key")), store, [], None, [], [])
    else
      match ResolveEmployer(env, request.value.employerName)
      case Failure(_) => JobRun(Success(false), store, [], None, [], [])
      case Success(employer) => AfterEmployer(env, request.value, employer, store)
  }

  lemma {:induction false} PurgeAppend(a: seq<Enrollment>, b: seq<Enrollment>, employerName: Option<string>)
    ensures Purge(a + b, employerName) == Purge(a, employerName) + Purge(b, employerName)
    decreases |a|
  {
    if |a| == 0 {
      assert a + b == b;
    } else {
      var t := a[1..];
      PurgeAppend(t, b, employerName);
      assert (a + b)[0] == a[0] && (a + b)[1..] == t + b;
      var pt, pb := Purge(t, employerName), Purge(b, employerName);
      if a[0].employerName == employerName {
        assert Purge(a + b, employerName) == pt + pb;
      } else {
        assert Purge(a + b, employerName) == [a[0]] + (pt + pb);
        assert [a[0]] + (pt + pb) == ([a[0]] + pt) + pb;
      }
    }
  }

  /** Purging rows that all belong to the employer leaves nothing. */
  lemma {:induction false} PurgeOwnRows(s: seq<Enrollment>, employerName: Option<string>)
    requires forall i :: 0 <= i < |s| ==> s[i].employerName == employerName
    ensures Purge(s, employerName) == []
    decreases |s|
  {
    if |s| > 0 {
      PurgeOwnRows(s[1..], employerName);
    }
  }

  /** Purging twice is purging once. */
  lemma {:induction false} PurgeTwice(s: seq<Enrollment>, employerName: Option<string>)
    ensures Purge(Purge(s, employerName), employerName) == Purge(s, employerName)
    decreases |s|
  {
    if |s| > 0 {
      PurgeTwice(s[1..], employerName);
      if s[0].employerName != employerName {
        var rest := Purge(s[1..], employerName);
        assert ([s[0]] + rest)[1..] == rest;
      }
    }
  }

  /** The rows of every other employer are the same before and after a job,
      whatever step it stopped at. */
  lemma OtherEmployersUntouched(env: Env, request: Option<ProcessCommand>, store: seq<Enrollment>)
    requires request.Some? && Located(env, request.value)
    ensures var name := EmployerOf(env, request.value).name;
      Purge(Handle(env, request, store).store, name) == Purge(store, name)
  {
    var cmd := request.value;
    var name := EmployerOf(env, cmd).name;
    var run := Handle(env, request, store);
    var purged := Purge(store, name);
    PurgeTwice(store, name);
    if !IsNullOrWhiteSpace(cmd.employerName) && Committed(env, cmd, store) && run.store != purged {
      var staged := StreamOf(env, cmd).staged;
      Stream.StagedFromValidRecords(env.stream, EmployerOf(env, cmd), env.read(Download(env, cmd.file).value).value);
      PurgeAppend(purged, staged, name);
      PurgeOwnRows(staged, name);
      assert purged + [] == purged;
    }
  }

  /** A job that stops after committing the purge and before committing the
      staged rows leaves the employer with no rows at all: nothing is rolled back. */
  lemma InterruptedJobLeavesNoRows(env: Env, request: Option<ProcessCommand>, store: seq<Enrollment>)
    requires request.Some? && !IsNullOrWhiteSpace(request.value.employerName)
    requires Committed(env, request.value, store) && Handle(env, request, store).deletes == []
    ensures forall e :: e in Handle(env, request, store).store ==>
      e.employerName != EmployerOf(env, request.value).name
  {
    PurgeKeepsOthers(store, EmployerOf(env, request.value).name);
  }

  /** A job that succeeded, run again on the table it left with every
      collaborator answering as before, does exactly the same and leaves the
      same table. The User Directory here is frozen: the first run's delete
      request is not reflected in the second run's lookups (see
      `RerunAfterOwnDeleteIsIdempotent` for the directory it leaves). */
  lemma SuccessfulJobIsIdempotent(env: Env, request: Option<ProcessCommand>, store: seq<Enrollment>)
    requires Handle(env, request, store).outcome == Success(true)
    ensures Handle(env, request, Handle(env, request, store).store) == Handle(env, request, store)
  {
    OtherEmployersUntouched(env, request, store);
  }

  /** The collaborators of a later job: the User Directory's lookups as a
      delete request left them, everything else as before. */
  function AfterOwnDelete(env: Env, request: DeleteUsersRequest): Env {
    env.(stream := env.stream.(findUsers := LookupsAfterDelete(env.stream.findUsers, request)))
  }

  /** A job that succeeded, run again on the table it left against the User
      Directory its own delete request left, does exactly the same, provided
      no successful lookup of a valid record named several users. */
  lemma RerunAfterOwnDeleteIsIdempotent(env: Env, request: Option<ProcessCommand>, store: seq<Enrollment>)
    requires Handle(env, request, store).outcome == Success(true)
    requires Stream.UnambiguousLookups(env.stream, EmployerOf(env, request.value),
                                       env.read(Download(env, request.value.file).value).value)
    ensures var run := Handle(env, request, store);
      Handle(AfterOwnDelete(env, run.deletes[0]), request, run.store) == run
  {
    var run := Handle(env, request, store);
    var cmd := request.value;
    var employer := EmployerOf(env, cmd);
    var events := env.read(Download(env, cmd.file).value).value;
    var later := AfterOwnDelete(env, run.deletes[0]);
    Stream.RerunAfterDeleteIsSame(env.stream, employer, events);
    assert Stream.Process(later.stream, employer, events) == Stream.Process(env.stream, employer, events);
    OtherEmployersUntouched(env, request, store);
  }

  /** A row of the employer in `purged + staged` comes from `staged`. */
  lemma OwnRowIsStaged(purged: seq<Enrollment>, staged: seq<Enrollment>, employerName: Option<string>, i: nat)
    returns (k: nat)
    requires forall j :: 0 <= j < |purged| ==> purged[j].employerName != employerName
    requires i < |purged + staged| && (purged + staged)[i].employerName == employerName
    ensures k < |staged| && staged[k] == (purged + staged)[i]
  {
    k := i - |purged|;
  }

  /** After a successful job the table is the other employers' rows followed
      by the reference staged rows of the file; each of the employer's rows
      maps a valid record of the file whose calls all completed. */
  lemma EmployerRowsAfterSuccess(env: Env, request: Option<ProcessCommand>, store: seq<Enrollment>)
    requires Handle(env, request, store).outcome == Success(true)
    ensures Streamed(env, request.value)
    ensures Handle(env, request, store).store
         == Purge(store, EmployerOf(env, request.value).name)
            + Stream.StagedRef(env.stream, EmployerOf(env, request.value),
                               env.read(Download(env, request.value.file).value).value)
    ensures var run := Handle(env, request, store);
      var employer := EmployerOf(env, request.value);
      var events := env.read(Download(env, request.value.file).value).value;
      forall i :: 0 <= i < |run.store| && run.store[i].employerName == employer.name ==>
        exists j :: 0 <= j < |events| && Stream.StagesEntity(env.stream, employer, events[j], run.store[i])
  {
    var cmd := request.value;
    var run := Handle(env, request, store);
    var employer := EmployerOf(env, cmd);
    var events := env.read(Download(env, cmd.file).value).value;
    var purged := Purge(store, employer.name);
    var staged := StreamOf(env, cmd).staged;
    assert run.store == purged + staged;
    Stream.StagedIsReference(env.stream, employer, events);
    PurgeKeepsOthers(store, employer.name);
    assert forall j :: 0 <= j < |purged| ==> purged[j] in purged;
    Stream.StagedFromValidRecords(env.stream, employer, events);
    forall i | 0 <= i < |run.store| && run.store[i].employerName == employer.name
      ensures exists j :: 0 <= j < |events| && Stream.StagesEntity(env.stream, employer, events[j], run.store[i])
    {
      var k := OwnRowIsStaged(purged, staged, employer.name, i);
      assert exists j :: 0 <= j < |events| && Stream.StagesEntity(env.stream, employer, events[j], staged[k]);
    }
  }

  /** The job the background worker starts for a queued submission. */
  function Forward(submission: RequestCommand): ProcessCommand {
    ProcessCommand(submission.file, submission.employerName)
  }

  /** A job for a submission the request validator accepted never throws: it
      ends with `true` or `false`, and once the employer is resolved it
      downloads the submitted file. */
  lemma AcceptedSubmissionNeverThrows(env: Env, submission: RequestCommand, store: seq<Enrollment>)
    requires |RequestValidator.Validate(submission)| == 0
    ensures Handle(env, Some(Forward(submission)), store).outcome.Success?
    ensures ResolveEmployer(env, submission.employerName).Success? ==>
      && Handle(env, Some(Forward(submission)), store).downloads == [submission.file]
      && Download(env, submission.file) == env.download(submission.file.value)
  {
  }
}
