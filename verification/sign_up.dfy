/** `SignUpCommandHandler.Handle`: an address that appears in the enrollment
    store becomes an employer-sponsored user; any other address becomes a
    direct-to-consumer user unless the User Directory already knows it. */
module SignUp {
  import opened Wrappers
  import opened Errors
  import opened Text
  import opened Records
  import opened Services
  import opened Commands

  const EmployerAccess := "employer"
  const DtcAccess := "dtc"

  /** The two directories the handler calls. Each call may throw. */
  datatype Env = Env(
    /** `GetEmployersAsync`, filtered by name. */
    findEmployers: Option<string> -> Result<Option<seq<Employer>>, Exn>,
    /** `GetUsersAsync`. */
    findUsers: UserQuery -> Result<Option<seq<User>>, Exn>,
    /** `CreateUserAsync`; its boolean answer is ignored by the handler. */
    createUser: CreateUserRequest -> Result<bool, Exn>)

  /** What one call did: its outcome, the user queries it sent and the
      creation requests it sent. */
  datatype SignUpRun = SignUpRun(
    outcome: Result<bool, Exn>,
    queried: seq<UserQuery>,
    sent: seq<CreateUserRequest>)

  /** The stored enrollments whose email equals `email`, in store order; a
      null address matches the rows whose email is null. */
  function WithEmail(store: seq<Enrollment>, email: Option<string>): (m: seq<Enrollment>)
    ensures |m| <= |store|
    ensures forall i :: 0 <= i < |m| ==> m[i].email == email && m[i] in store
    ensures forall i :: 0 <= i < |store| && store[i].email == email ==> store[i] in m
  {
    if |store| == 0 then []
    else if store[0].email == email then [store[0]] + WithEmail(store[1..], email)
    else WithEmail(store[1..], email)
  }

  function NotFoundMessage(employerName: Option<string>): string {
    "Employer '" + Show(employerName) + "' was not found."
  }

  function ConflictMessage(email: Option<string>): string {
    "Email '" + Show(email) + "' already exists."
  }

  /** The employer-user request: identity and profile from the enrollment,
      the password from the sign-up, the employer id from the directory. */
  function EmployerUser(e: Enrollment, password: Option<string>, employerId: Option<string>): CreateUserRequest {
    CreateUserRequest(e.email, password, e.country, Some(EmployerAccess),
                      e.fullName, employerId, e.birthDate, e.salary)
  }

  /** The direct-to-consumer request: only the sign-up's own three fields. */
  function DtcUser(cmd: SignUpCommand): CreateUserRequest {
    CreateUserRequest(cmd.email, cmd.password, cmd.country, Some(DtcAccess), None, None, None, None)
  }

  /** Sends `req`; the handler answers true whatever the directory answered. */
  function Create(env: Env, queried: seq<UserQuery>, req: CreateUserRequest): SignUpRun {
    match env.createUser(req)
    case Failure(e) => SignUpRun(Failure(e), queried, [req])
    case Success(_) => SignUpRun(Success(true), queried, [req])
  }

  /** The employer path: a failing or ambiguous employer lookup escapes before
      anything is created; a single employer gets the employer user. */
  function EmployerSignUp(env: Env, e: Enrollment, password: Option<string>): (run: SignUpRun)
    ensures run.queried == [] && |run.sent| <= 1
    ensures var employers := env.findEmployers(e.employerName);
      && (employers.Failure? ==> run == SignUpRun(Failure(employers.error), [], []))
      && (employers.Success? && employers.value.Some? && |employers.value.value| > 1 ==>
            run == SignUpRun(Failure(InvalidOperation(MoreThanOneElement)), [], []))
      && (employers in {Success(None), Success(Some([]))} ==>
            run == SignUpRun(Failure(NotFound(NotFoundMessage(e.employerName))), [], []))
      && (|run.sent| == 1 <==> employers.Success? && employers.value.Some? && |employers.value.value| == 1)
      && (|run.sent| == 1 ==> run.sent[0] == EmployerUser(e, password, employers.value.value[0].id))
  {
    match env.findEmployers(e.employerName)
    case Failure(err) => SignUpRun(Failure(err), [], [])
    case Success(employers) =>
      match SingleOrDefault(employers)
      case Failure(err) => SignUpRun(Failure(err), [], [])
      case Success(None) => SignUpRun(Failure(NotFound(NotFoundMessage(e.employerName))), [], [])
      case Success(Some(employer)) => Create(env, [], EmployerUser(e, password, employer.id))
  }

  /** The direct-to-consumer path: a failing lookup escapes, a known address
      conflicts, and only an unknown address gets the user. */
  function DtcSignUp(env: Env, cmd: SignUpCommand): (run: SignUpRun)
    ensures var query := UserQuery(cmd.email, None);
      var users := env.findUsers(query);
      && run.queried == [query]
      && (users.Failure? ==> run == SignUpRun(Failure(users.error), [query], []))
      && (users.Success? && users.value.Some? && |users.value.value| > 0 ==>
            run == SignUpRun(Failure(Conflict(ConflictMessage(cmd.email))), [query], []))
      && (users in {Success(None), Success(Some([]))} <==> run.sent == [DtcUser(cmd)])
      && (run.sent == [] || run.sent == [DtcUser(cmd)])
  {
    var query := UserQuery(cmd.email, None);
    match env.findUsers(query)
    case Failure(err) => SignUpRun(Failure(err), [query], [])
    case Success(users) =>
      if users.Some? && |users.value| > 0 then
        SignUpRun(Failure(Conflict(ConflictMessage(cmd.email))), [query], [])
      else Create(env, [query], DtcUser(cmd))
  }

  /** `Handle(request)`. */
  function Handle(env: Env, store: seq<Enrollment>, request: Option<SignUpCommand>): (run: SignUpRun)
    ensures request.None? ==> run == SignUpRun(Failure(ArgumentNull("request")), [], [])
    // at most one user is created; `true` exactly when that creation returned
    ensures |run.sent| <= 1 && |run.queried| <= 1
    ensures run.outcome.Success? <==> |run.sent| == 1 && env.createUser(run.sent[0]).Success?
    ensures run.outcome.Success? ==> run.outcome.value
    // whoever is created keeps the address and password of the sign-up
    ensures request.Some? && |run.sent| == 1 ==>
      run.sent[0].email == request.value.email && run.sent[0].password == request.value.password
    ensures request.Some? ==> var matches := WithEmail(store, request.value.email);
      && (|matches| > 1 ==> run == SignUpRun(Failure(InvalidOperation(MoreThanOneElement)), [], []))
      // an enrolled address: employer user, no conflict check
      && (|matches| == 1 ==>
            && run.queried == []
            && (|run.sent| == 1 ==>
                  var employers := env.findEmployers(matches[0].employerName);
                  && employers.Success? && employers.value.Some? && |employers.value.value| == 1
                  && run.sent[0] == EmployerUser(matches[0], request.value.password, employers.value.value[0].id))
            && (var employers := env.findEmployers(matches[0].employerName);
                employers.Success? && employers.value.Some? && |employers.value.value| == 1 ==>
                  run.sent == [EmployerUser(matches[0], request.value.password, employers.value.value[0].id)])
            && (env.findEmployers(matches[0].employerName) in {Success(None), Success(Some([]))} ==>
                  run.outcome == Failure(NotFound(NotFoundMessage(matches[0].employerName))))
            // a failing or ambiguous employer lookup escapes before anything is created
            && (env.findEmployers(matches[0].employerName).Failure? ==>
                  run == SignUpRun(Failure(env.findEmployers(matches[0].employerName).error), [], []))
            && (var employers := env.findEmployers(matches[0].employerName);
                employers.Success? && employers.value.Some? && |employers.value.value| > 1 ==>
                  run == SignUpRun(Failure(InvalidOperation(MoreThanOneElement)), [], [])))
      // an unknown address: conflict check, then a direct-to-consumer user
      && (|matches| == 0 ==>
            var query := UserQuery(request.value.email, None);
            && run.queried == [query]
            && (env.findUsers(query).Success? && env.findUsers(query).value.Some?
                && |env.findUsers(query).value.value| > 0 ==>
                  run == SignUpRun(Failure(Conflict(ConflictMessage(request.value.email))), [query], []))
            // a failing user lookup escapes before anything is created
            && (env.findUsers(query).Failure? ==>
                  run == SignUpRun(Failure(env.findUsers(query).error), [query], []))
            && (env.findUsers(query) in {Success(None), Success(Some([]))} <==>
                  run.sent == [DtcUser(request.value)]))
    ensures request.Some? && |run.sent| == 1 ==>
      (run.sent[0].accessType == Some(EmployerAccess) <==> |WithEmail(store, request.value.email)| == 1)
  {
    if request.None? then SignUpRun(Failure(ArgumentNull("request")), [], [])
    else
      var cmd := request.value;
      match SingleOrDefault(Some(WithEmail(store, cmd.email)))
      case Failure(err) => SignUpRun(Failure(err), [], [])
      case Success(None) => DtcSignUp(env, cmd)
      case Success(Some(e)) => EmployerSignUp(env, e, cmd.password)
  }
}
