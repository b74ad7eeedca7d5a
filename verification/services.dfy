/** Request and response shapes of the Employer Directory and User Directory
    clients, and the `list?.SingleOrDefault()` idiom both handlers apply to
    their answers. A nullable service answer is `Option<seq<T>>`. */
module Services {
  import opened Wrappers
  import opened Errors
  import Records

  /** `RetrieveEmployerResponse`; both fields are nullable in the JSON. */
  datatype Employer = Employer(id: Option<string>, name: Option<string>)

  /** `RetrieveUserResponse`, reduced to the fields the handlers read. */
  datatype User = User(id: string, email: Option<string>, employerId: Option<string>)

  /** `RetrieveUsersRequest`: a filter on email and/or employer id. */
  datatype UserQuery = UserQuery(email: Option<string>, employerId: Option<string>)

  /** One `UpdateUserProperty`. */
  datatype UpdateProperty = UpdateProperty(field: string, value: Option<string>)

  /** `UpdateUserRequest`. */
  datatype UpdateUserRequest = UpdateUserRequest(id: string, properties: seq<UpdateProperty>)

  /** `DeleteUsersRequest`: keep the listed ids of the employer, delete its other users.
      The ids come from a hash set, so their order carries no meaning. */
  datatype DeleteUsersRequest = DeleteUsersRequest(ids: set<string>, employerId: Option<string>)

  /** `CreateUserRequest`. */
  datatype CreateUserRequest = CreateUserRequest(
    email: Option<string>,
    password: Option<string>,
    country: Option<string>,
    accessType: Option<string>,
    fullName: Option<string>,
    employerId: Option<string>,
    birthDate: Option<Records.Date>,
    salary: Option<Records.Decimal>)

  /** `xs?.SingleOrDefault()`: null or empty gives null, one element gives it,
      more than one throws. */
  function SingleOrDefault<T>(xs: Option<seq<T>>): (r: Result<Option<T>, Exn>)
    ensures r.Failure? <==> xs.Some? && |xs.value| > 1
    ensures r.Failure? ==> r.error == InvalidOperation(MoreThanOneElement)
    ensures r == Success(None) <==> xs.None? || |xs.value| == 0
    ensures r.Success? && r.value.Some? <==> xs.Some? && |xs.value| == 1
    ensures r.Success? && r.value.Some? ==> r.value.value == xs.value[0]
  {
    match xs
    case None => Success(None)
    case Some(list) =>
      if |list| == 0 then Success(None)
      else if |list| == 1 then Success(Some(list[0]))
      else Failure(InvalidOperation(MoreThanOneElement))
  }

  /** A user the delete request leaves in place: one of another employer, or
      one of the employer whose id the request lists. */
  predicate Survives(user: User, request: DeleteUsersRequest) {
    user.employerId != request.employerId || user.id in request.ids
  }

  /** The users of a lookup answer that the delete request leaves, in order. */
  function Survivors(users: seq<User>, request: DeleteUsersRequest): (kept: seq<User>)
    ensures |kept| <= |users|
    ensures forall u :: u in kept <==> u in users && Survives(u, request)
    decreases |users|
  {
    if |users| == 0 then []
    else
      var rest := Survivors(users[1..], request);
      assert forall u :: u in users <==> u == users[0] || u in users[1..];
      if Survives(users[0], request) then [users[0]] + rest else rest
  }

  /** Every user of the answer survives, so the answer is unchanged. */
  lemma {:induction false} AllSurvive(users: seq<User>, request: DeleteUsersRequest)
    requires forall i :: 0 <= i < |users| ==> Survives(users[i], request)
    ensures Survivors(users, request) == users
    decreases |users|
  {
    if |users| > 0 {
      AllSurvive(users[1..], request);
    }
  }

  /** No user of the answer survives, so the answer becomes empty. */
  lemma {:induction false} NoneSurvive(users: seq<User>, request: DeleteUsersRequest)
    requires forall i :: 0 <= i < |users| ==> !Survives(users[i], request)
    ensures Survivors(users, request) == []
    decreases |users|
  {
    if |users| > 0 {
      NoneSurvive(users[1..], request);
    }
  }

  /** The User Directory's lookups once `DeleteUsersAsync(request)` went
      through: the same answers without the users it deleted; a lookup that
      failed or answered null still does. */
  function LookupsAfterDelete(findUsers: UserQuery -> Result<Option<seq<User>>, Exn>, request: DeleteUsersRequest)
    : UserQuery -> Result<Option<seq<User>>, Exn>
  {
    q => match findUsers(q)
         case Success(Some(users)) => Success(Some(Survivors(users, request)))
         case other => other
  }
}
