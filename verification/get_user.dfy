/**
 * The get-user query handler: look the identifier up, turn "no such user"
 * into a not-found application error, and project the stored user's fields.
 */
module GetUser {
  import opened Wrappers
  import opened Errors
  import opened Ids
  import opened Entities
  import opened MemoryStore

  /** The caller-visible fields; both times are carried as the time values themselves. */
  datatype GetUserResult = GetUserResult(id: ID, name: string, email: string, createdAt: Time, updatedAt: Time)

  const LookupFailureText := "failed to get user"
  const NotFoundText := "user not found"

  /** The handler on the reply of a repository lookup: a lookup error is
      wrapped, an absent user is a not-found error, a present one is projected. */
  function FromLookup(found: Option<User>, lookupErr: Option<Error>): (r: Result<GetUserResult, Error>)
    ensures lookupErr.Some? ==>
              && r == Failure(WrapError(lookupErr.value, LookupFailureText))
              && IsType(Some(r.error), WrappedKind(lookupErr.value))
    ensures lookupErr.None? && found.None? ==>
              r.Failure? && IsType(Some(r.error), NotFound) && Text(r.error) == NotFoundText
    ensures lookupErr.None? && found.Some? ==>
              r.Success? && r.value.id == found.value.id && r.value.name == found.value.name
              && r.value.email == found.value.email
              && r.value.createdAt == found.value.createdAt && r.value.updatedAt == found.value.updatedAt
  {
    match lookupErr
    case Some(e) => Failure(WrapError(e, LookupFailureText))
    case None =>
      match found
      case None => Failure(NewNotFoundError(NotFoundText))
      case Some(u) => Success(GetUserResult(u.id, u.name, u.email, u.createdAt, u.updatedAt))
  }

  /** The handler over the in-memory store, whose lookup never fails. The
      store is an input only: the query cannot change it. */
  function Handle(s: Store, id: ID): (r: Result<GetUserResult, Error>)
    ensures id !in s ==> r.Failure? && IsType(Some(r.error), NotFound) && Text(r.error) == NotFoundText
    ensures id in s ==>
              (r.Success? && r.value.name == s[id].name && r.value.email == s[id].email
               && r.value.id == s[id].id
               && r.value.createdAt == s[id].createdAt && r.value.updatedAt == s[id].updatedAt)
    ensures r.Success? ==> id in s
    ensures WellKeyed(s) && r.Success? ==> r.value.id == id
  {
    FromLookup(GetByID(s, id), None)
  }
}
