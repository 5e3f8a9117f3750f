/**
 * The create-user command handler: build the user, check it structurally,
 * check the business rules, check that the email is not taken, then store
 * it. Each step ends the pipeline on failure, leaving the store as it was.
 */
module CreateUser {
  import opened Wrappers
  import opened Errors
  import opened Ids
  import opened Entities
  import opened MemoryStore
  import opened UserService

  datatype CreateUserCommand = CreateUserCommand(name: string, email: string)

  /** The caller-visible fields; the creation time is carried as the time value itself. */
  datatype CreateUserResult = CreateUserResult(id: ID, name: string, email: string, createdAt: Time)

  /** The reply, the store after the call, and the identifier generator after the call. */
  datatype Outcome = Outcome(result: Result<CreateUserResult, Error>, store: Store, ids: IdGen)

  const InvalidDataText := "invalid user data"
  const RuleFailureText := "user creation validation failed"
  const UniquenessFailureText := "failed to check email uniqueness"

  /** Whether the name and email pass every check the handler makes. */
  predicate AcceptableInput(name: string, email: string)
  {
    !AllSpace(name) && '@' in email && '.' in email
  }

  function Handle(s: Store, order: seq<ID>, cmd: CreateUserCommand, src: Entropy, ids: IdGen, now: Time): (o: Outcome)
    requires IsEnumeration(order, s)
    requires WellFormedEntropy(src)
    // the identifier generator advances whatever the outcome
    ensures o.ids == NewUser(cmd.name, cmd.email, src, ids, now).1
    // structural validation comes first: an empty field, wrapped as Internal
    ensures cmd.name == "" ==>
              o.result == Failure(WrapError(Plain(InvalidUserName), InvalidDataText))
    ensures cmd.name != "" && cmd.email == "" ==>
              o.result == Failure(WrapError(Plain(InvalidUserEmail), InvalidDataText))
    // then the business rules, also wrapped as Internal
    ensures cmd.name != "" && cmd.email != "" && AllSpace(cmd.name) ==>
              o.result == Failure(WrapError(Plain(InvalidUserName), RuleFailureText))
    ensures cmd.name != "" && cmd.email != "" && !AllSpace(cmd.name) && !('@' in cmd.email && '.' in cmd.email) ==>
              o.result == Failure(WrapError(Plain(InvalidUserEmail), RuleFailureText))
    // then uniqueness, reported with the bare sentinel
    ensures AcceptableInput(cmd.name, cmd.email) && !NoUserHasEmail(s, cmd.email) ==>
              o.result == Failure(Plain(UserAlreadyExists))
    // success exactly when every check passes
    ensures o.result.Success? <==> AcceptableInput(cmd.name, cmd.email) && NoUserHasEmail(s, cmd.email)
    ensures o.result.Failure? ==> o.store == s
    ensures o.result.Success? ==>
              var r := o.result.value;
              && r.id == NewUser(cmd.name, cmd.email, src, ids, now).0.id
              && r.name == cmd.name && r.email == cmd.email && r.createdAt == now
              && o.store == s[r.id := User(r.id, cmd.name, cmd.email, now, now)]
    // the store invariants survive a successful create
    ensures WellKeyed(s) ==> WellKeyed(o.store)
    ensures EmailsUnique(s) ==> EmailsUnique(o.store)
  {
    var (user, ids') := NewUser(cmd.name, cmd.email, src, ids, now);
    match Entities.Validate(user)
    case Some(e) => Outcome(Failure(WrapError(e, InvalidDataText)), s, ids')
    case None =>
      match ValidateUserCreation(user)
      case Some(e) => Outcome(Failure(WrapError(e, RuleFailureText)), s, ids')
      case None =>
        var (unique, err) := IsEmailUnique(s, order, user.email, ID(""));
        match err
        case Some(e) => Outcome(Failure(WrapError(e, UniquenessFailureText)), s, ids')
        case None =>
          if !unique then Outcome(Failure(Plain(UserAlreadyExists)), s, ids')
          else
            var s' := Create(s, user);
            assert EmailsUnique(s) ==> EmailsUnique(s') by {
              if EmailsUnique(s) {
                forall a, b | a in s' && b in s' && s'[a].email == s'[b].email ensures a == b {
                  if a != user.id && b != user.id {
                    assert s'[a] == s[a] && s'[b] == s[b];
                  }
                }
              }
            }
            Outcome(Success(CreateUserResult(user.id, user.name, user.email, user.createdAt)), s', ids')
  }

  /** The failures of the handler carry the kind the reader of the source may
      not expect: invalid input comes back Internal (a wrapped plain sentinel),
      a taken email as a bare sentinel with no kind at all. */
  lemma FailureKinds(s: Store, order: seq<ID>, cmd: CreateUserCommand, src: Entropy, ids: IdGen, now: Time)
    requires IsEnumeration(order, s)
    requires WellFormedEntropy(src)
    ensures var o := Handle(s, order, cmd, src, ids, now);
            !AcceptableInput(cmd.name, cmd.email) ==>
              o.result.Failure? && IsType(Some(o.result.error), Internal)
              && !IsType(Some(o.result.error), Validation)
    ensures var o := Handle(s, order, cmd, src, ids, now);
            AcceptableInput(cmd.name, cmd.email) && !NoUserHasEmail(s, cmd.email) ==>
              o.result.Failure? && forall t :: !IsType(Some(o.result.error), t)
  {
  }
}
