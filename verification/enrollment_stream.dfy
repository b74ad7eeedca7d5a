/** The row loop of `ProcessDownloadedFile`: a fold over the reader's events.
    A malformed line leaves a pending parse error; a parsed record first
    flushes the pending errors (ordered by line number), then yields exactly
    one outcome row of its own. After the last event the remaining errors are
    flushed. Valid records reconcile the matching User Directory account and
    are staged for insertion. */
module EnrollmentStream {
  import opened Wrappers
  import opened Errors
  import opened Records
  import opened Services
  import opened Validation
  import opened ProcessedRecord
  import opened LineOrder
  import FileRecordValidator
  import Mapper

  /** What the reader hands over, in file order. */
  datatype ReadEvent =
    | Parsed(record: FileRecord)
    | Malformed(error: ErrorInfo)

  /** The collaborators of the loop. Calls to the directory and the store may throw. */
  datatype Env = Env(
    /** `GetUsersAsync`. */
    findUsers: UserQuery -> Result<Option<seq<User>>, Exn>,
    /** `UpdateUserAsync`. */
    updateUser: UpdateUserRequest -> Result<bool, Exn>,
    /** `AddAsync` on the repository: stages an insert. */
    add: Enrollment -> Result<(), Exn>,
    /** `decimal.ToString("C")` under the process culture. */
    formatCurrency: Decimal -> string,
    /** The validation library's message for a failed check. */
    describe: RuleFailure -> string)

  /** What processing one record produced: its outcome row, the entity staged
      for insert, the user id recorded and the update request sent, if any. */
  datatype RowEffect = RowEffect(
    row: OutcomeRow,
    staged: Option<Enrollment>,
    seenId: Option<string>,
    update: Option<UpdateUserRequest>)

  /** The loop's state: parse errors not yet written, the report so far, the
      staged inserts, the ids of users kept, and the update requests sent. */
  datatype State = State(
    pending: seq<ErrorInfo>,
    report: seq<OutcomeRow>,
    staged: seq<Enrollment>,
    seen: set<string>,
    updates: seq<UpdateUserRequest>)

  const Start := State([], [], [], {}, [])

  function ErrorLine(e: ErrorInfo): int { e.lineNumber }
  function RowLine(r: OutcomeRow): int { r.lineNumber }

  function EventLine(ev: ReadEvent): int {
    match ev
    case Parsed(r) => r.lineNumber
    case Malformed(e) => e.lineNumber
  }

  predicate Valid(record: FileRecord) {
    |FileRecordValidator.Validate(record)| == 0
  }

  /** The lookup for a record: its email within the employer. */
  function LookupFor(record: FileRecord, employer: Employer): UserQuery {
    UserQuery(record.email, employer.id)
  }

  function ParseErrorRow(e: ErrorInfo): (row: OutcomeRow)
    ensures row.lineNumber == e.lineNumber && row.description == e.exceptionMessage
  {
    FromParseError(Some(e)).value
  }

  function ExceptionRow(lineNumber: int, e: Exn): (row: OutcomeRow)
    ensures row.lineNumber == lineNumber && row.description == e.Message()
  {
    FromException(lineNumber, Some(e)).value
  }

  function SuccessRow(lineNumber: int): (row: OutcomeRow)
    ensures row.lineNumber == lineNumber && row.description == SuccessDescription
  {
    assert !Text.IsWhiteSpace(SuccessDescription[0]);
    FromDescription(lineNumber, Some(SuccessDescription)).value
  }

  /** The failures as the validation result carries them: default severity. */
  function Reported(fs: seq<RuleFailure>, describe: RuleFailure -> string): seq<ValidationFailure> {
    seq(|fs|, i requires 0 <= i < |fs| => ValidationFailure(fs[i].property, describe(fs[i]), Error))
  }

  function ValidationRow(lineNumber: int, fs: seq<RuleFailure>, describe: RuleFailure -> string): (row: OutcomeRow)
    ensures row.lineNumber == lineNumber
  {
    FromValidation(lineNumber, Some(Reported(fs, describe))).value
  }

  /** The update of a known user: country and formatted salary, nothing else. */
  function UpdateFor(id: string, record: FileRecord, formatCurrency: Decimal -> string): UpdateUserRequest {
    var salary := if record.salary.Some? then Some(formatCurrency(record.salary.value)) else None;
    UpdateUserRequest(id, [UpdateProperty("country", record.country), UpdateProperty("salary", salary)])
  }

  /** The entity a valid record becomes. */
  function EntityFor(record: FileRecord, employer: Employer): (e: Enrollment)
    ensures Mapper.Map(Some(record), employer.name) == Success(e)
  {
    Mapper.Map(Some(record), employer.name).value
  }

  /** Map and stage; the row reports success only when staging completed. */
  function Persist(env: Env, employer: Employer, record: FileRecord,
                   seenId: Option<string>, update: Option<UpdateUserRequest>): (eff: RowEffect)
    ensures eff.row.lineNumber == record.lineNumber
    ensures eff.seenId == seenId && eff.update == update
    ensures eff.staged.Some? <==> env.add(EntityFor(record, employer)).Success?
    ensures eff.staged.Some? ==>
      && eff.staged.value == EntityFor(record, employer)
      && eff.staged.value.employerName == employer.name
      && eff.row.description == SuccessDescription
  {
    var entity := EntityFor(record, employer);
    match env.add(entity)
    case Failure(e) => RowEffect(ExceptionRow(record.lineNumber, e), None, seenId, update)
    case Success(_) => RowEffect(SuccessRow(record.lineNumber), Some(entity), seenId, update)
  }

  /** The lookup answer names exactly one user. */
  predicate SingleMatch(users: Result<Option<seq<User>>, Exn>) {
    users.Success? && users.value.Some? && |users.value.value| == 1
  }

  /** Every call a valid record makes on its way to being staged completes:
      the lookup, the update when the lookup found one user, and the add. */
  predicate Stageable(env: Env, employer: Employer, record: FileRecord) {
    var users := env.findUsers(LookupFor(record, employer));
    && users.Success?
    && (users.value.None? || |users.value.value| == 0
        || (|users.value.value| == 1
            && env.updateUser(UpdateFor(users.value.value[0].id, record, env.formatCurrency)).Success?))
    && env.add(EntityFor(record, employer)).Success?
  }

  /** `UpdateUserAsync` followed by mapping and staging, for a valid record. */
  function Reconcile(env: Env, employer: Employer, record: FileRecord): (eff: RowEffect)
    ensures eff.row.lineNumber == record.lineNumber
    ensures eff.staged.Some? <==> Stageable(env, employer, record)
    ensures eff.staged.Some? ==>
      && eff.staged.value == EntityFor(record, employer)
      && eff.staged.value.employerName == employer.name
      && eff.row.description == SuccessDescription
    // the id is recorded exactly when the lookup finds one user, whether or not the update succeeds
    ensures var users := env.findUsers(LookupFor(record, employer));
      && (eff.seenId.Some? <==> SingleMatch(users))
      && (eff.seenId.Some? ==> eff.seenId.value == users.value.value[0].id)
    // an update is sent exactly for a recorded id, with country and salary only
    ensures eff.update.Some? <==> eff.seenId.Some?
    ensures eff.update.Some? ==> eff.update.value == UpdateFor(eff.seenId.value, record, env.formatCurrency)
    // several users with the address fail the row
    ensures var users := env.findUsers(LookupFor(record, employer));
      users.Success? && users.value.Some? && |users.value.value| > 1 ==>
        eff == RowEffect(ExceptionRow(record.lineNumber, InvalidOperation(MoreThanOneElement)), None, None, None)
  {
    match env.findUsers(LookupFor(record, employer))
    case Failure(e) => RowEffect(ExceptionRow(record.lineNumber, e), None, None, None)
    case Success(users) =>
      match SingleOrDefault(users)
      case Failure(e) => RowEffect(ExceptionRow(record.lineNumber, e), None, None, None)
      case Success(None) => Persist(env, employer, record, None, None)
      case Success(Some(user)) =>
        var request := UpdateFor(user.id, record, env.formatCurrency);
        match env.updateUser(request)
        case Failure(e) => RowEffect(ExceptionRow(record.lineNumber, e), None, Some(user.id), Some(request))
        case Success(_) => Persist(env, employer, record, Some(user.id), Some(request))
  }

  /** One record, inside the loop's `try`: report an invalid record, reconcile a valid one. */
  function ProcessRecord(env: Env, employer: Employer, record: FileRecord): (eff: RowEffect)
    // every record gets its own row, tagged with its own line number
    ensures eff.row.lineNumber == record.lineNumber
    // an invalid record is only reported
    ensures !Valid(record) ==>
      eff == RowEffect(ValidationRow(record.lineNumber, FileRecordValidator.Validate(record), env.describe),
                       None, None, None)
    // a record is staged exactly when it is valid and every call on the way completes,
    // as its mapped entity, with a success row
    ensures eff.staged.Some? <==> Valid(record) && Stageable(env, employer, record)
    ensures eff.staged.Some? ==>
      && Valid(record)
      && eff.staged.value == EntityFor(record, employer)
      && eff.staged.value.employerName == employer.name
      && eff.row.description == SuccessDescription
    ensures var users := env.findUsers(LookupFor(record, employer));
      && (eff.seenId.Some? <==> Valid(record) && SingleMatch(users))
      && (eff.seenId.Some? ==> eff.seenId.value == users.value.value[0].id)
    ensures eff.update.Some? <==> eff.seenId.Some?
    ensures eff.update.Some? ==> eff.update.value == UpdateFor(eff.seenId.value, record, env.formatCurrency)
  {
    var fs := FileRecordValidator.Validate(record);
    if |fs| > 0 then
      RowEffect(ValidationRow(record.lineNumber, fs, env.describe), None, None, None)
    else
      Reconcile(env, employer, record)
  }

  function ParseRows(es: seq<ErrorInfo>): (rows: seq<OutcomeRow>)
    ensures |rows| == |es|
    ensures forall i :: 0 <= i < |es| ==> rows[i] == ParseErrorRow(es[i])
  {
    seq(|es|, i requires 0 <= i < |es| => ParseErrorRow(es[i]))
  }

  /** Writing the pending errors: ordered by line number, then converted. */
  function Flush(pending: seq<ErrorInfo>): seq<OutcomeRow> {
    ParseRows(SortBy(pending, ErrorLine))
  }

  function Option2Seq<T>(o: Option<T>): seq<T> {
    if o.Some? then [o.value] else []
  }

  function Option2Set<T>(o: Option<T>): set<T> {
    if o.Some? then {o.value} else {}
  }

  /** What one event amounts to. Processing a record reads nothing the loop
      has accumulated (the kept-id set is only ever added to), so each
      event's outcome can be computed on its own. */
  datatype Outcome =
    | RecordDone(effect: RowEffect)
    | ParseFailed(error: ErrorInfo)

  function Classify(env: Env, employer: Employer, ev: ReadEvent): Outcome {
    match ev
    case Parsed(r) => RecordDone(ProcessRecord(env, employer, r))
    case Malformed(e) => ParseFailed(e)
  }

  function Outcomes(env: Env, employer: Employer, events: seq<ReadEvent>): (os: seq<Outcome>)
    ensures |os| == |events|
    ensures forall i :: 0 <= i < |events| ==> os[i] == Classify(env, employer, events[i])
  {
    seq(|events|, i requires 0 <= i < |events| => Classify(env, employer, events[i]))
  }

  /** One turn of the loop. */
  function Step(st: State, o: Outcome): State {
    match o
    case ParseFailed(e) => st.(pending := st.pending + [e])
    case RecordDone(eff) =>
      State([],
            st.report + Flush(st.pending) + [eff.row],
            st.staged + Option2Seq(eff.staged),
            st.seen + Option2Set(eff.seenId),
            st.updates + Option2Seq(eff.update))
  }

  /** The loop over a prefix of the outcomes. */
  function Fold(os: seq<Outcome>): State
    decreases |os|
  {
    if |os| == 0 then Start
    else Step(Fold(os[..|os| - 1]), os[|os| - 1])
  }

  /** The flush after the loop. */
  function Finish(st: State): State {
    st.(pending := [], report := st.report + Flush(st.pending))
  }

  /** The whole loop over the file's events. */
  function Process(env: Env, employer: Employer, events: seq<ReadEvent>): (st: State)
    ensures st.pending == []
  {
    Finish(Fold(Outcomes(env, employer, events)))
  }

  /** The row an outcome contributes on its own. */
  function RowOf(o: Outcome): OutcomeRow {
    match o
    case RecordDone(eff) => eff.row
    case ParseFailed(e) => ParseErrorRow(e)
  }

  function Rows(os: seq<Outcome>): (rows: seq<OutcomeRow>)
    ensures |rows| == |os|
    ensures forall i :: 0 <= i < |os| ==> rows[i] == RowOf(os[i])
  {
    seq(|os|, i requires 0 <= i < |os| => RowOf(os[i]))
  }

  function OutcomeLine(o: Outcome): int {
    RowLine(RowOf(o))
  }

  lemma ParseRowsAppend(a: seq<ErrorInfo>, b: seq<ErrorInfo>)
    ensures ParseRows(a + b) == ParseRows(a) + ParseRows(b)
  {
  }

  /** Converting then inserting is inserting then converting: the conversion keeps the line number. */
  lemma {:induction false} ParseRowsInsert(x: ErrorInfo, s: seq<ErrorInfo>)
    ensures ParseRows(Insert(x, s, ErrorLine)) == Insert(ParseErrorRow(x), ParseRows(s), RowLine)
    decreases |s|
  {
    var rows := ParseRows(s);
    if |s| == 0 || ErrorLine(s[|s| - 1]) <= ErrorLine(x) {
      ParseRowsAppend(s, [x]);
    } else {
      var front, last := s[..|s| - 1], s[|s| - 1];
      ParseRowsInsert(x, front);
      assert Insert(x, s, ErrorLine) == Insert(x, front, ErrorLine) + [last];
      ParseRowsAppend(Insert(x, front, ErrorLine), [last]);
      assert rows[..|rows| - 1] == ParseRows(front) && rows[|rows| - 1] == ParseErrorRow(last);
      assert RowLine(rows[|rows| - 1]) > RowLine(ParseErrorRow(x));
      assert Insert(ParseErrorRow(x), rows, RowLine)
          == Insert(ParseErrorRow(x), ParseRows(front), RowLine) + [ParseErrorRow(last)];
    }
  }

  lemma {:induction false} ParseRowsSort(s: seq<ErrorInfo>)
    ensures ParseRows(SortBy(s, ErrorLine)) == SortBy(ParseRows(s), RowLine)
    decreases |s|
  {
    if |s| > 0 {
      var front := s[..|s| - 1];
      ParseRowsSort(front);
      ParseRowsInsert(s[|s| - 1], SortBy(front, ErrorLine));
      assert ParseRows(s)[..|s| - 1] == ParseRows(front);
    }
  }

  /** The flush writes every pending error exactly once, ordered by line
      number, and keeps their order when they already were. */
  lemma FlushWritesEachErrorOnce(pending: seq<ErrorInfo>)
    ensures multiset(Flush(pending)) == multiset(ParseRows(pending))
    ensures SortedBy(Flush(pending), RowLine)
    ensures SortedBy(pending, ErrorLine) ==> Flush(pending) == ParseRows(pending)
  {
    ParseRowsSort(pending);
    SortBySorted(ParseRows(pending), RowLine);
    if SortedBy(pending, ErrorLine) {
      SortedUnchanged(pending, ErrorLine);
    }
  }

  lemma {:induction false} FoldAccounts(os: seq<Outcome>)
    ensures var st := Fold(os);
      multiset(st.report) + multiset(ParseRows(st.pending)) == multiset(Rows(os))
    decreases |os|
  {
    if |os| > 0 {
      var front, o := os[..|os| - 1], os[|os| - 1];
      FoldAccounts(front);
      var st := Fold(front);
      assert Rows(os) == Rows(front) + [RowOf(o)];
      match o
      case ParseFailed(e) =>
        ParseRowsAppend(st.pending, [e]);
      case RecordDone(_) =>
        FlushWritesEachErrorOnce(st.pending);
    }
  }

  /** The row each event contributes on its own. */
  function EventRow(env: Env, employer: Employer, ev: ReadEvent): OutcomeRow {
    RowOf(Classify(env, employer, ev))
  }

  function EventRows(env: Env, employer: Employer, events: seq<ReadEvent>): (rows: seq<OutcomeRow>)
    ensures |rows| == |events|
    ensures forall i :: 0 <= i < |events| ==> rows[i] == EventRow(env, employer, events[i])
  {
    seq(|events|, i requires 0 <= i < |events| => EventRow(env, employer, events[i]))
  }

  /** Every event of the stream yields exactly one report row: each record
      its own outcome, each parse error its own line, none twice. */
  lemma ReportCoversEveryEvent(env: Env, employer: Employer, events: seq<ReadEvent>)
    ensures multiset(Process(env, employer, events).report) == multiset(EventRows(env, employer, events))
    ensures |Process(env, employer, events).report| == |events|
  {
    var os := Outcomes(env, employer, events);
    FoldAccounts(os);
    FlushWritesEachErrorOnce(Fold(os).pending);
    assert Rows(os) == EventRows(env, employer, events);
    assert |multiset(Process(env, employer, events).report)| == |events|;
  }

  /** A parse error arriving in line order extends the pending errors in order. */
  lemma InOrderParseStep(st: State, e: ErrorInfo, rows: seq<OutcomeRow>)
    requires st.report + ParseRows(st.pending) == rows
    requires SortedBy(st.pending, ErrorLine)
    requires |st.pending| > 0 ==> ErrorLine(st.pending[|st.pending| - 1]) <= ErrorLine(e)
    ensures var next := Step(st, ParseFailed(e));
      && next.report + ParseRows(next.pending) == rows + [ParseErrorRow(e)]
      && SortedBy(next.pending, ErrorLine)
      && ErrorLine(next.pending[|next.pending| - 1]) == ErrorLine(e)
  {
    assert Insert(e, st.pending, ErrorLine) == st.pending + [e];
    InsertSorted(e, st.pending, ErrorLine);
    ParseRowsAppend(st.pending, [e]);
  }

  /** A record flushes pending errors that are already in order unchanged. */
  lemma InOrderRecordStep(st: State, eff: RowEffect, rows: seq<OutcomeRow>)
    requires st.report + ParseRows(st.pending) == rows
    requires SortedBy(st.pending, ErrorLine)
    ensures var next := Step(st, RecordDone(eff));
      next.report + ParseRows(next.pending) == rows + [eff.row] && next.pending == []
  {
    FlushWritesEachErrorOnce(st.pending);
  }

  /** Both kinds of step keep the pending errors in order behind the report. */
  lemma InOrderStep(st: State, o: Outcome, rows: seq<OutcomeRow>)
    requires st.report + ParseRows(st.pending) == rows
    requires SortedBy(st.pending, ErrorLine)
    requires |st.pending| > 0 ==> ErrorLine(st.pending[|st.pending| - 1]) <= OutcomeLine(o)
    ensures var next := Step(st, o);
      && next.report + ParseRows(next.pending) == rows + [RowOf(o)]
      && SortedBy(next.pending, ErrorLine)
      && (|next.pending| > 0 ==> ErrorLine(next.pending[|next.pending| - 1]) == OutcomeLine(o))
  {
    match o
    case ParseFailed(e) => InOrderParseStep(st, e, rows);
    case RecordDone(eff) => InOrderRecordStep(st, eff, rows);
  }

  /** After the outcomes `os`, in line order: the report followed by the
      pending errors is every outcome's row in order, and the pending errors
      end at the last outcome's line. */
  predicate InOrder(st: State, os: seq<Outcome>) {
    && st.report + ParseRows(st.pending) == Rows(os)
    && SortedBy(st.pending, ErrorLine)
    && (|st.pending| > 0 ==> |os| > 0 && ErrorLine(st.pending[|st.pending| - 1]) == OutcomeLine(os[|os| - 1]))
  }

  lemma FoldInOrderStep(os: seq<Outcome>)
    requires |os| > 0 && SortedBy(os, OutcomeLine)
    requires InOrder(Fold(os[..|os| - 1]), os[..|os| - 1])
    ensures InOrder(Fold(os), os)
  {
    var front, o := os[..|os| - 1], os[|os| - 1];
    var st := Fold(front);
    RowsSnoc(os);
    if |st.pending| > 0 {
      SortedLastPair(os, OutcomeLine);
      assert front[|front| - 1] == os[|os| - 2];
    }
    InOrderStep(st, o, Rows(front));
  }

  lemma RowsSnoc(os: seq<Outcome>)
    requires |os| > 0
    ensures Rows(os) == Rows(os[..|os| - 1]) + [RowOf(os[|os| - 1])]
  {
  }

  lemma {:induction false} FoldInOrder(os: seq<Outcome>)
    requires SortedBy(os, OutcomeLine)
    ensures InOrder(Fold(os), os)
    decreases |os|
  {
    if |os| > 0 {
      SortedPrefix(os, OutcomeLine);
      FoldInOrder(os[..|os| - 1]);
      FoldInOrderStep(os);
    }
  }

  /** On a file whose events come in line order, the report is the events'
      own rows in that order. */
  lemma OrderedStreamKeepsOrder(env: Env, employer: Employer, events: seq<ReadEvent>)
    requires SortedBy(events, EventLine)
    ensures Process(env, employer, events).report == EventRows(env, employer, events)
  {
    var os := Outcomes(env, employer, events);
    assert forall i :: 0 <= i < |os| ==> OutcomeLine(os[i]) == EventLine(events[i]);
    FoldInOrder(os);
    FlushWritesEachErrorOnce(Fold(os).pending);
    assert Rows(os) == EventRows(env, employer, events);
  }

  /** The kept set is the union of the ids the records recorded. */
  lemma {:induction false} FoldSeen(os: seq<Outcome>, id: string)
    ensures id in Fold(os).seen <==>
      exists j :: 0 <= j < |os| && os[j].RecordDone? && os[j].effect.seenId == Some(id)
    decreases |os|
  {
    if |os| > 0 {
      var front := os[..|os| - 1];
      FoldSeen(front, id);
      assert forall j :: 0 <= j < |front| ==> front[j] == os[j];
      if exists j :: 0 <= j < |os| && os[j].RecordDone? && os[j].effect.seenId == Some(id) {
        var j :| 0 <= j < |os| && os[j].RecordDone? && os[j].effect.seenId == Some(id);
        if j < |front| {
          assert front[j].RecordDone? && front[j].effect.seenId == Some(id);
        }
      }
    }
  }

  /** Outcome `j` of `os` is a record that staged `e`. */
  predicate StagedAt(os: seq<Outcome>, j: int, e: Enrollment) {
    0 <= j < |os| && os[j].RecordDone? && os[j].effect.staged == Some(e)
  }

  /** The entities an outcome staged, if any. */
  function StagedBy(o: Outcome): seq<Enrollment> {
    if o.RecordDone? then Option2Seq(o.effect.staged) else []
  }

  /** The staged list the loop builds, on its own. */
  function StagedOf(os: seq<Outcome>): seq<Enrollment>
    decreases |os|
  {
    if |os| == 0 then [] else StagedOf(os[..|os| - 1]) + StagedBy(os[|os| - 1])
  }

  lemma {:induction false} FoldStagedOf(os: seq<Outcome>)
    ensures Fold(os).staged == StagedOf(os)
    decreases |os|
  {
    if |os| > 0 {
      FoldStagedOf(os[..|os| - 1]);
    }
  }

  /** Every staged entity is one a record staged: `origin[i]` is the
      position of the record that staged entity `i`. */
  lemma {:induction false} StagedOrigins(os: seq<Outcome>) returns (origin: seq<nat>)
    ensures |origin| == |StagedOf(os)|
    ensures forall i :: 0 <= i < |origin| ==> StagedAt(os, origin[i], StagedOf(os)[i])
    decreases |os|
  {
    if |os| == 0 {
      origin := [];
    } else {
      var front, o := os[..|os| - 1], os[|os| - 1];
      var earlier := StagedOrigins(front);
      var before := StagedOf(front);
      var added := StagedBy(o);
      var staged := before + added;
      assert StagedOf(os) == staged;
      origin := earlier + seq(|added|, _ => |os| - 1);
      forall i | 0 <= i < |origin|
        ensures StagedAt(os, origin[i], staged[i])
      {
        if i < |before| {
          assert StagedAt(front, earlier[i], before[i]);
        } else {
          assert staged[i] == added[i - |before|] == o.effect.staged.value;
        }
      }
    }
  }

  /** Nothing a record staged is lost by later steps. */
  lemma {:induction false} StagedKept(os: seq<Outcome>, j: nat)
    requires j < |os| && os[j].RecordDone? && os[j].effect.staged.Some?
    ensures os[j].effect.staged.value in StagedOf(os)
    decreases |os|
  {
    var front := os[..|os| - 1];
    var x := os[j].effect.staged.value;
    assert StagedOf(os) == StagedOf(front) + StagedBy(os[|os| - 1]);
    if j < |front| {
      assert front[j] == os[j];
      StagedKept(front, j);
      InAppend(x, StagedOf(front), StagedBy(os[|os| - 1]));
    } else {
      assert StagedBy(os[|os| - 1]) == [x];
      InAppend(x, StagedOf(front), [x]);
    }
  }

  lemma InAppend<T>(x: T, a: seq<T>, b: seq<T>)
    requires x in a || x in b
    ensures x in a + b
  {
    if x in a {
      var k :| 0 <= k < |a| && a[k] == x;
      assert (a + b)[k] == x;
    } else {
      var k :| 0 <= k < |b| && b[k] == x;
      assert (a + b)[|a| + k] == x;
    }
  }

  /** Event `ev` is a valid record whose lookup found exactly the user `id`. */
  predicate KeepsUser(env: Env, employer: Employer, ev: ReadEvent, id: string) {
    && ev.Parsed? && Valid(ev.record)
    && var users := env.findUsers(LookupFor(ev.record, employer));
    SingleMatch(users) && users.value.value[0].id == id
  }

  /** The kept ids are exactly those of the single users found for valid
      records, including the ones whose update then failed. */
  lemma SeenIsSingleMatches(env: Env, employer: Employer, events: seq<ReadEvent>, id: string)
    ensures id in Process(env, employer, events).seen <==>
      exists j :: 0 <= j < |events| && KeepsUser(env, employer, events[j], id)
  {
    var os := Outcomes(env, employer, events);
    FoldSeen(os, id);
    assert forall j :: 0 <= j < |events| ==>
      (os[j].RecordDone? && os[j].effect.seenId == Some(id) <==> KeepsUser(env, employer, events[j], id));
  }

  /** Event `ev` is a valid record whose calls all complete. */
  predicate StagedEvent(env: Env, employer: Employer, ev: ReadEvent) {
    ev.Parsed? && Valid(ev.record) && Stageable(env, employer, ev.record)
  }

  /** Event `ev` is a valid record whose calls all complete and whose entity is `e`. */
  predicate StagesEntity(env: Env, employer: Employer, ev: ReadEvent, e: Enrollment) {
    StagedEvent(env, employer, ev) && e == EntityFor(ev.record, employer)
  }

  /** Reference definition of the staged rows: in file order, the entity of
      every valid record whose calls all complete, and nothing else. */
  function StagedRef(env: Env, employer: Employer, events: seq<ReadEvent>): seq<Enrollment>
    decreases |events|
  {
    if |events| == 0 then []
    else
      var ev := events[|events| - 1];
      StagedRef(env, employer, events[..|events| - 1])
        + (if StagedEvent(env, employer, ev) then [EntityFor(ev.record, employer)] else [])
  }

  lemma {:induction false} StagedOfRef(env: Env, employer: Employer, events: seq<ReadEvent>)
    ensures StagedOf(Outcomes(env, employer, events)) == StagedRef(env, employer, events)
    decreases |events|
  {
    if |events| > 0 {
      var front, ev := events[..|events| - 1], events[|events| - 1];
      var os := Outcomes(env, employer, events);
      StagedOfRef(env, employer, front);
      assert os[..|os| - 1] == Outcomes(env, employer, front);
      assert os[|os| - 1] == Classify(env, employer, ev);
      if ev.Parsed? {
        var eff := ProcessRecord(env, employer, ev.record);
        assert StagedBy(os[|os| - 1]) == Option2Seq(eff.staged);
      }
    }
  }

  /** The loop stages exactly the reference rows: the entities of the valid
      records whose lookup, update and add completed, once each, in file order. */
  lemma StagedIsReference(env: Env, employer: Employer, events: seq<ReadEvent>)
    ensures Process(env, employer, events).staged == StagedRef(env, employer, events)
  {
    FoldStagedOf(Outcomes(env, employer, events));
    StagedOfRef(env, employer, events);
  }

  /** Each staged entity is the mapping of a valid record of the stream whose
      lookup, update and add completed, and carries the resolved employer's name. */
  lemma StagedFromValidRecords(env: Env, employer: Employer, events: seq<ReadEvent>)
    ensures var staged := Process(env, employer, events).staged;
      forall i :: 0 <= i < |staged| ==>
        && staged[i].employerName == employer.name
        && exists j :: 0 <= j < |events| && StagesEntity(env, employer, events[j], staged[i])
  {
    var os := Outcomes(env, employer, events);
    var origin := StagedOrigins(os);
    FoldStagedOf(os);
    var staged := StagedOf(os);
    assert Process(env, employer, events).staged == staged;
    forall i | 0 <= i < |staged|
      ensures && staged[i].employerName == employer.name
              && exists j :: 0 <= j < |events| && StagesEntity(env, employer, events[j], staged[i])
    {
      var j := origin[i];
      StagedByValidRecord(env, employer, events[j], staged[i]);
    }
  }

  lemma StagedByValidRecord(env: Env, employer: Employer, ev: ReadEvent, e: Enrollment)
    requires Classify(env, employer, ev).RecordDone? && Classify(env, employer, ev).effect.staged == Some(e)
    ensures StagesEntity(env, employer, ev, e) && e.employerName == employer.name
  {
  }

  /** Every valid record whose calls all complete has its entity staged. */
  lemma ValidRecordsAreStaged(env: Env, employer: Employer, events: seq<ReadEvent>, j: nat)
    requires j < |events| && events[j].Parsed?
    requires Valid(events[j].record) && Stageable(env, employer, events[j].record)
    ensures EntityFor(events[j].record, employer) in Process(env, employer, events).staged
  {
    var os := Outcomes(env, employer, events);
    assert os[j] == RecordDone(ProcessRecord(env, employer, events[j].record));
    StagedKept(os, j);
    FoldStagedOf(os);
  }

  /** Event `ev` is a valid record whose lookup found exactly one user. */
  predicate FindsOneUser(env: Env, employer: Employer, ev: ReadEvent) {
    ev.Parsed? && Valid(ev.record) && SingleMatch(env.findUsers(LookupFor(ev.record, employer)))
  }

  /** Reference definition of the update requests: in file order, one for
      every valid record whose lookup found one user, naming that user and
      carrying the record's country and salary. */
  function UpdatesRef(env: Env, employer: Employer, events: seq<ReadEvent>): seq<UpdateUserRequest>
    decreases |events|
  {
    if |events| == 0 then []
    else
      var ev := events[|events| - 1];
      UpdatesRef(env, employer, events[..|events| - 1])
        + (if FindsOneUser(env, employer, ev)
           then [UpdateFor(env.findUsers(LookupFor(ev.record, employer)).value.value[0].id, ev.record, env.formatCurrency)]
           else [])
  }

  /** The update requests an outcome sent, if any. */
  function UpdatesBy(o: Outcome): seq<UpdateUserRequest> {
    if o.RecordDone? then Option2Seq(o.effect.update) else []
  }

  /** The update list the loop builds, on its own. */
  function UpdatesOf(os: seq<Outcome>): seq<UpdateUserRequest>
    decreases |os|
  {
    if |os| == 0 then [] else UpdatesOf(os[..|os| - 1]) + UpdatesBy(os[|os| - 1])
  }

  lemma {:induction false} FoldUpdatesOf(os: seq<Outcome>)
    ensures Fold(os).updates == UpdatesOf(os)
    decreases |os|
  {
    if |os| > 0 {
      FoldUpdatesOf(os[..|os| - 1]);
    }
  }

  lemma {:induction false} UpdatesOfRef(env: Env, employer: Employer, events: seq<ReadEvent>)
    ensures UpdatesOf(Outcomes(env, employer, events)) == UpdatesRef(env, employer, events)
    decreases |events|
  {
    if |events| > 0 {
      var front, ev := events[..|events| - 1], events[|events| - 1];
      var os := Outcomes(env, employer, events);
      UpdatesOfRef(env, employer, front);
      assert os[..|os| - 1] == Outcomes(env, employer, front);
      assert os[|os| - 1] == Classify(env, employer, ev);
      if ev.Parsed? {
        var eff := ProcessRecord(env, employer, ev.record);
        assert UpdatesBy(os[|os| - 1]) == Option2Seq(eff.update);
      }
    }
  }

  /** The loop sends exactly the reference updates: one per valid record whose
      lookup found one user, whether or not the update or the add then failed,
      in file order. */
  lemma UpdatesAreReference(env: Env, employer: Employer, events: seq<ReadEvent>)
    ensures Process(env, employer, events).updates == UpdatesRef(env, employer, events)
  {
    FoldUpdatesOf(Outcomes(env, employer, events));
    UpdatesOfRef(env, employer, events);
  }

  /** A lookup answer that, when it does not fail, names at most one user. */
  predicate Unambiguous(users: Result<Option<seq<User>>, Exn>) {
    users.Success? ==> users.value.None? || |users.value.value| <= 1
  }

  /** No successful lookup of a valid record of the stream names several users. */
  predicate UnambiguousLookups(env: Env, employer: Employer, events: seq<ReadEvent>) {
    forall j :: 0 <= j < |events| && events[j].Parsed? && Valid(events[j].record) ==>
      Unambiguous(env.findUsers(LookupFor(events[j].record, employer)))
  }

  /** A record is processed alike by two directories that answer its lookup alike. */
  lemma SameLookupSameRecord(env: Env, other: Env, employer: Employer, record: FileRecord)
    requires other == env.(findUsers := other.findUsers)
    requires Valid(record) ==> other.findUsers(LookupFor(record, employer)) == env.findUsers(LookupFor(record, employer))
    ensures ProcessRecord(other, employer, record) == ProcessRecord(env, employer, record)
  {
  }

  /** Two directories that answer every valid record's lookup alike lead the
      loop to the same final state. */
  lemma SameLookupsSameRun(env: Env, other: Env, employer: Employer, events: seq<ReadEvent>)
    requires other == env.(findUsers := other.findUsers)
    requires forall j :: 0 <= j < |events| && events[j].Parsed? && Valid(events[j].record) ==>
      other.findUsers(LookupFor(events[j].record, employer)) == env.findUsers(LookupFor(events[j].record, employer))
    ensures Process(other, employer, events) == Process(env, employer, events)
  {
    forall j | 0 <= j < |events|
      ensures Classify(other, employer, events[j]) == Classify(env, employer, events[j])
    {
      if events[j].Parsed? {
        SameLookupSameRecord(env, other, employer, events[j].record);
      }
    }
    assert Outcomes(other, employer, events) == Outcomes(env, employer, events);
  }

  /** A delete request that keeps every user a valid record's unambiguous
      lookup found leaves that lookup's answer as it was. */
  lemma LookupUnchangedByDelete(env: Env, employer: Employer, ev: ReadEvent, request: DeleteUsersRequest)
    requires ev.Parsed? && Valid(ev.record)
    requires Unambiguous(env.findUsers(LookupFor(ev.record, employer)))
    requires forall id :: KeepsUser(env, employer, ev, id) ==> id in request.ids
    ensures LookupsAfterDelete(env.findUsers, request)(LookupFor(ev.record, employer))
         == env.findUsers(LookupFor(ev.record, employer))
  {
    var users := env.findUsers(LookupFor(ev.record, employer));
    if users.Success? && users.value.Some? {
      var found := users.value.value;
      if |found| == 1 {
        assert KeepsUser(env, employer, ev, found[0].id);
      }
      AllSurvive(found, request);
    }
  }

  /** When no successful lookup of a valid record names several users, the
      directory as the loop's own delete request leaves it still answers every
      valid record's lookup as before (the one user a lookup found is kept, a
      failing lookup still fails), so the loop over it ends in the same state. */
  lemma RerunAfterDeleteIsSame(env: Env, employer: Employer, events: seq<ReadEvent>)
    requires UnambiguousLookups(env, employer, events)
    ensures var st := Process(env, employer, events);
      var after := env.(findUsers := LookupsAfterDelete(env.findUsers, DeleteUsersRequest(st.seen, employer.id)));
      Process(after, employer, events) == st
  {
    var seen := Process(env, employer, events).seen;
    var request := DeleteUsersRequest(seen, employer.id);
    var after := env.(findUsers := LookupsAfterDelete(env.findUsers, request));
    forall j | 0 <= j < |events| && events[j].Parsed? && Valid(events[j].record)
      ensures after.findUsers(LookupFor(events[j].record, employer)) == env.findUsers(LookupFor(events[j].record, employer))
    {
      forall id | KeepsUser(env, employer, events[j], id) ensures id in seen {
        SeenIsSingleMatches(env, employer, events, id);
      }
      LookupUnchangedByDelete(env, employer, events[j], request);
    }
    SameLookupsSameRun(env, after, employer, events);
  }

  /** An ambiguous lookup fails the record: nothing is staged and no user kept. */
  lemma AmbiguousRecordNotKept(env: Env, employer: Employer, record: FileRecord, users: seq<User>)
    requires env.findUsers(LookupFor(record, employer)) == Success(Some(users)) && |users| > 1
    ensures Process(env, employer, [Parsed(record)]).staged == []
    ensures Process(env, employer, [Parsed(record)]).seen == {}
  {
    var events := [Parsed(record)];
    StagedIsReference(env, employer, events);
    assert events[..0] == [];
    forall id | id in Process(env, employer, events).seen ensures false {
      SeenIsSingleMatches(env, employer, events, id);
    }
  }

  /** An ambiguous lookup makes a re-run differ: the record's row fails and
      none of the users found is kept, so the delete request removes them all;
      over the directory it leaves, the same record's lookup finds nobody and
      the record is staged. */
  lemma AmbiguousRecordStagedOnRerun(env: Env, employer: Employer, record: FileRecord, users: seq<User>)
    requires Valid(record)
    requires env.findUsers(LookupFor(record, employer)) == Success(Some(users))
    requires |users| > 1 && forall i :: 0 <= i < |users| ==> users[i].employerId == employer.id
    requires env.add(EntityFor(record, employer)).Success?
    ensures var st := Process(env, employer, [Parsed(record)]);
      var after := env.(findUsers := LookupsAfterDelete(env.findUsers, DeleteUsersRequest(st.seen, employer.id)));
      && st.staged == []
      && st.seen == {}
      && Process(after, employer, [Parsed(record)]).staged == [EntityFor(record, employer)]
  {
    AmbiguousRecordNotKept(env, employer, record, users);
    var request := DeleteUsersRequest({}, employer.id);
    var after := env.(findUsers := LookupsAfterDelete(env.findUsers, request));
    NoneSurvive(users, request);
    assert after.findUsers(LookupFor(record, employer)) == Success(Some([]));
    StagedAlone(after, employer, record);
  }

  /** A valid record whose calls all complete is staged on its own. */
  lemma StagedAlone(env: Env, employer: Employer, record: FileRecord)
    requires Valid(record) && Stageable(env, employer, record)
    ensures Process(env, employer, [Parsed(record)]).staged == [EntityFor(record, employer)]
  {
    var events := [Parsed(record)];
    StagedIsReference(env, employer, events);
    assert events[..0] == [];
  }
}
