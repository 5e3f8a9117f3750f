/**
 * Properties of the service as a whole, relating several calls: create then
 * get, a second create with a taken email, an update guarded by the
 * uniqueness check, and two creates with distinct emails.
 */
module Scenarios {
  import opened Wrappers
  import opened Errors
  import opened Ids
  import opened Entities
  import opened MemoryStore
  import opened UserService
  import CreateUser
  import GetUser

  /** A create with acceptable input and an unused email succeeds, and getting
      the identifier it returned gives back the name and email as given, with
      equal creation and update times. */
  lemma CreateThenGet(s: Store, order: seq<ID>, cmd: CreateUser.CreateUserCommand, src: Entropy, ids: IdGen, now: Time)
    requires IsEnumeration(order, s)
    requires WellFormedEntropy(src)
    requires CreateUser.AcceptableInput(cmd.name, cmd.email) && NoUserHasEmail(s, cmd.email)
    ensures var o := CreateUser.Handle(s, order, cmd, src, ids, now);
            o.result.Success? &&
            GetUser.Handle(o.store, o.result.value.id)
              == Success(GetUser.GetUserResult(o.result.value.id, cmd.name, cmd.email, now, now))
  {
  }

  /** Once a user with some email is stored, a second create with that email
      fails and leaves the store alone, so the first user is still there; when
      the second name passes validation the failure is the already-exists
      sentinel. */
  lemma SecondCreateWithSameEmailFails(
    s: Store, order: seq<ID>, cmd: CreateUser.CreateUserCommand, src: Entropy, ids: IdGen, now: Time,
    order2: seq<ID>, cmd2: CreateUser.CreateUserCommand, src2: Entropy, now2: Time)
    requires IsEnumeration(order, s)
    requires WellFormedEntropy(src) && WellFormedEntropy(src2)
    requires CreateUser.AcceptableInput(cmd.name, cmd.email) && NoUserHasEmail(s, cmd.email)
    requires IsEnumeration(order2, Create(s, NewUser(cmd.name, cmd.email, src, ids, now).0))
    requires cmd2.email == cmd.email
    ensures var o := CreateUser.Handle(s, order, cmd, src, ids, now);
            var o2 := CreateUser.Handle(o.store, order2, cmd2, src2, o.ids, now2);
            && o.result.Success? && o2.result.Failure?
            && (!AllSpace(cmd2.name) ==> o2.result == Failure(Plain(UserAlreadyExists)))
            && o2.store == o.store
            && GetUser.Handle(o2.store, o.result.value.id).Success?
  {
    var o := CreateUser.Handle(s, order, cmd, src, ids, now);
    var id := o.result.value.id;
    assert o.store[id].email == cmd.email;
    assert !NoUserHasEmail(o.store, cmd2.email);
    var o2 := CreateUser.Handle(o.store, order2, cmd2, src2, o.ids, now2);
    assert o2.result.Failure?;
  }

  /** The update path the service is built for: an update whose email the
      uniqueness check accepts, with the user itself excluded, keeps emails
      unique across the store. */
  lemma GuardedUpdateKeepsEmailsUnique(s: Store, order: seq<ID>, u: User)
    requires IsEnumeration(order, s)
    requires WellKeyed(s) && EmailsUnique(s)
    requires !IsEmpty(u.id)
    requires IsEmailUnique(s, order, u.email, u.id).0
    ensures Update(s, u).err.None? ==> EmailsUnique(Update(s, u).store)
    ensures WellKeyed(Update(s, u).store)
  {
  }

  /** Two creates with distinct emails both succeed from a store that has
      neither email, and both users can be got afterwards, unless the random
      source repeats itself. */
  lemma DistinctEmailsBothRetrievable(
    s: Store, order: seq<ID>, cmd1: CreateUser.CreateUserCommand, src1: Entropy, ids: IdGen, now1: Time,
    order2: seq<ID>, cmd2: CreateUser.CreateUserCommand, src2: Entropy, now2: Time)
    requires IsEnumeration(order, s)
    requires WellFormedEntropy(src1) && WellFormedEntropy(src2)
    requires !(src1.Random? && src2.Random? && src1.bytes == src2.bytes)
    requires CreateUser.AcceptableInput(cmd1.name, cmd1.email) && CreateUser.AcceptableInput(cmd2.name, cmd2.email)
    requires cmd1.email != cmd2.email
    requires NoUserHasEmail(s, cmd1.email) && NoUserHasEmail(s, cmd2.email)
    requires IsEnumeration(order2, Create(s, NewUser(cmd1.name, cmd1.email, src1, ids, now1).0))
    ensures var o1 := CreateUser.Handle(s, order, cmd1, src1, ids, now1);
            var o2 := CreateUser.Handle(o1.store, order2, cmd2, src2, o1.ids, now2);
            && o1.result.Success? && o2.result.Success?
            && GetUser.Handle(o2.store, o1.result.value.id)
                 == Success(GetUser.GetUserResult(o1.result.value.id, cmd1.name, cmd1.email, now1, now1))
            && GetUser.Handle(o2.store, o2.result.value.id)
                 == Success(GetUser.GetUserResult(o2.result.value.id, cmd2.name, cmd2.email, now2, now2))
  {
    var o1 := CreateUser.Handle(s, order, cmd1, src1, ids, now1);
    SuccessiveIDsDistinct(src1, src2, ids);
    var id1 := o1.result.value.id;
    forall k | k in o1.store ensures o1.store[k].email != cmd2.email {
      if k != id1 {
        assert o1.store[k] == s[k];
      }
    }
    var o2 := CreateUser.Handle(o1.store, order2, cmd2, src2, o1.ids, now2);
    assert o2.result.value.id != id1;
  }
}
