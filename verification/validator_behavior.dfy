/** `ValidatorBehavior.Handle`: the mediator pipeline step that runs every
    registered validator on a request, throws a validation exception carrying
    all their failures, or else hands the request to the next step. */
module ValidatorBehavior {
  import opened Wrappers
  import opened Errors

  /** What the pipeline step produces: the next step's response, a validation
      exception with its failures, or another exception passing through. */
  datatype Outcome<F, T> = Returned(response: T) | Rejected(failures: seq<F>) | Threw(error: Exn)

  /** The outcome and how many times `next` was invoked. */
  datatype Handled<F, T> = Handled(outcome: Outcome<F, T>, nextCalls: nat)

  /** The non-null entries of one validator's error list. */
  function NonNull<F>(errors: seq<Option<F>>): (fs: seq<F>)
    ensures |fs| <= |errors|
    ensures |fs| == 0 <==> forall j :: 0 <= j < |errors| ==> errors[j].None?
    decreases |errors|
  {
    if |errors| == 0 then []
    else
      var rest := NonNull(errors[1..]);
      assert forall j :: 1 <= j < |errors| ==> errors[j] == errors[1..][j - 1];
      if errors[0].Some? then [errors[0].value] + rest else rest
  }

  /** Dropping nulls keeps the order of what remains: the list for `a + b`
      is the list for `a` followed by the list for `b`. */
  lemma {:induction false} NonNullAppend<F>(a: seq<Option<F>>, b: seq<Option<F>>)
    ensures NonNull(a + b) == NonNull(a) + NonNull(b)
    decreases |a|
  {
    if |a| > 0 {
      assert (a + b)[0] == a[0];
      assert (a + b)[1..] == a[1..] + b;
      NonNullAppend(a[1..], b);
    } else {
      assert a + b == b;
    }
  }

  /** `SelectMany(r => r.Errors).Where(f => f is not null)`, in validator order. */
  function Collect<F>(results: seq<seq<Option<F>>>): (fs: seq<F>)
    ensures |fs| == 0 <==> forall i, j :: 0 <= i < |results| && 0 <= j < |results[i]| ==> results[i][j].None?
    decreases |results|
  {
    if |results| == 0 then []
    else
      var head := NonNull(results[0]);
      assert forall i :: 1 <= i < |results| ==> results[i] == results[1..][i - 1];
      head + Collect(results[1..])
  }

  /** Failures of later validators follow those of earlier ones, and one
      validator contributes exactly its non-null errors. */
  lemma {:induction false} CollectAppend<F>(a: seq<seq<Option<F>>>, b: seq<seq<Option<F>>>)
    ensures Collect(a + b) == Collect(a) + Collect(b)
    ensures forall l: seq<Option<F>> :: Collect([l]) == NonNull(l)
    decreases |a|
  {
    if |a| > 0 {
      assert (a + b)[0] == a[0];
      assert (a + b)[1..] == a[1..] + b;
      CollectAppend(a[1..], b);
    } else {
      assert a + b == b;
    }
    forall l: seq<Option<F>> ensures Collect([l]) == NonNull(l) {
      assert [l][1..] == [];
      assert NonNull(l) + [] == NonNull(l);
    }
  }

  /** The first validator that throws, if any: building the failure list is
      eager, so its exception escapes before anything else happens. */
  function FirstThrow<F>(runs: seq<Result<seq<Option<F>>, Exn>>): (r: Option<Exn>)
    ensures r.None? <==> forall i :: 0 <= i < |runs| ==> runs[i].Success?
    ensures r.Some? ==> exists i :: 0 <= i < |runs| && runs[i] == Failure(r.value)
    decreases |runs|
  {
    if |runs| == 0 then None
    else if runs[0].Failure? then Some(runs[0].error)
    else
      var rest := FirstThrow(runs[1..]);
      assert forall i :: 1 <= i < |runs| ==> runs[i] == runs[1..][i - 1];
      rest
  }

  /** The error lists of validators none of which threw. */
  function ErrorLists<F>(runs: seq<Result<seq<Option<F>>, Exn>>): (lists: seq<seq<Option<F>>>)
    requires forall i :: 0 <= i < |runs| ==> runs[i].Success?
    ensures |lists| == |runs|
    ensures forall i :: 0 <= i < |runs| ==> lists[i] == runs[i].value
  {
    seq(|runs|, i requires 0 <= i < |runs| => runs[i].value)
  }

  /** `Handle(request, next)`: `runs` are the validators' results on the
      request in registration order, `next` what the next step does. */
  function Handle<F, T>(runs: seq<Result<seq<Option<F>>, Exn>>, next: Result<T, Exn>): (h: Handled<F, T>)
    ensures h.nextCalls <= 1
    ensures h.nextCalls == 1 <==>
      (forall i :: 0 <= i < |runs| ==> runs[i].Success?) && |Collect(ErrorLists(runs))| == 0
    ensures h.outcome.Rejected? ==>
      && (forall i :: 0 <= i < |runs| ==> runs[i].Success?)
      && h.outcome.failures == Collect(ErrorLists(runs))
      && |h.outcome.failures| > 0
    // the first validator that throws decides the outcome; otherwise any failure rejects
    ensures FirstThrow(runs).Some? ==> h.outcome == Threw(FirstThrow(runs).value)
    ensures FirstThrow(runs).None? && |Collect(ErrorLists(runs))| > 0 ==>
      h.outcome == Rejected(Collect(ErrorLists(runs)))
    ensures h.nextCalls == 1 && next.Success? ==> h.outcome == Returned(next.value)
    ensures h.nextCalls == 1 && next.Failure? ==> h.outcome == Threw(next.error)
    ensures h.nextCalls == 0 ==> !h.outcome.Returned?
  {
    match FirstThrow(runs)
    case Some(e) => Handled(Threw(e), 0)
    case None =>
      var failures := Collect(ErrorLists(runs));
      if |failures| > 0 then Handled(Rejected(failures), 0)
      else match next
        case Success(v) => Handled(Returned(v), 1)
        case Failure(e) => Handled(Threw(e), 1)
  }

  /** A non-null entry of an error list survives the dropping of nulls. */
  lemma {:induction false} NonNullKeeps<F>(errors: seq<Option<F>>, j: nat)
    requires j < |errors| && errors[j].Some?
    ensures errors[j].value in NonNull(errors)
    decreases |errors|
  {
    if j > 0 {
      assert errors[1..][j - 1] == errors[j];
      NonNullKeeps(errors[1..], j - 1);
    }
  }

  /** A non-null entry of any validator's list is among the collected failures. */
  lemma {:induction false} CollectKeeps<F>(results: seq<seq<Option<F>>>, i: nat, j: nat)
    requires i < |results| && j < |results[i]| && results[i][j].Some?
    ensures results[i][j].value in Collect(results)
    decreases |results|
  {
    if i == 0 {
      NonNullKeeps(results[0], j);
    } else {
      assert results[1..][i - 1] == results[i];
      CollectKeeps(results[1..], i - 1, j);
    }
  }

  /** Any failure a validator reports, when none throws, rejects the request
      and appears in the rejection; `next` is not called. */
  lemma EveryFailureRejects<F, T>(runs: seq<Result<seq<Option<F>>, Exn>>, next: Result<T, Exn>, i: nat, j: nat)
    requires forall k :: 0 <= k < |runs| ==> runs[k].Success?
    requires i < |runs| && j < |runs[i].value| && runs[i].value[j].Some?
    ensures Handle(runs, next).outcome.Rejected?
    ensures runs[i].value[j].value in Handle(runs, next).outcome.failures
    ensures Handle(runs, next).nextCalls == 0
  {
    var lists := ErrorLists(runs);
    assert lists[i][j] == runs[i].value[j];
    CollectKeeps(lists, i, j);
  }

  /** With no validators registered the step is transparent. */
  lemma NoValidatorsPassThrough<F, T>(next: Result<T, Exn>)
    ensures Handle<F, T>([], next).nextCalls == 1
    ensures next.Success? ==> Handle<F, T>([], next).outcome == Returned(next.value)
  {
  }
}
