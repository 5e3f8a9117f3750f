/**
 * The User entity of the domain package. The wall clock is a parameter: every
 * constructor and mutator takes the time value `time.Now` would have given.
 */
module Entities {
  import opened Wrappers
  import opened Errors
  import opened Ids

  /** A clock reading, at the precision the result formatting keeps. */
  type Time = int

  datatype User = User(id: ID, name: string, email: string, createdAt: Time, updatedAt: Time)

  /** NewUser: a fresh identifier, name and email kept verbatim, both timestamps `now`. */
  function NewUser(name: string, email: string, src: Entropy, ids: IdGen, now: Time): (r: (User, IdGen))
    requires WellFormedEntropy(src)
    ensures r.0.name == name && r.0.email == email
    ensures r.0.createdAt == now && r.0.updatedAt == now
    ensures (r.0.id, r.1) == NewID(src, ids)
  {
    var (id, ids') := NewID(src, ids);
    (User(id, name, email, now, now), ids')
  }

  /** UpdateName: only the name and the update time change. */
  function UpdateName(u: User, name: string, now: Time): (r: User)
    ensures r.name == name && r.updatedAt == now
    ensures r.id == u.id && r.email == u.email && r.createdAt == u.createdAt
  {
    u.(name := name, updatedAt := now)
  }

  /** UpdateEmail: only the email and the update time change. */
  function UpdateEmail(u: User, email: string, now: Time): (r: User)
    ensures r.email == email && r.updatedAt == now
    ensures r.id == u.id && r.name == u.name && r.createdAt == u.createdAt
  {
    u.(email := email, updatedAt := now)
  }

  /** Validate: structural validation, the name checked before the email. */
  function Validate(u: User): (r: Option<Error>)
    ensures r.None? <==> u.name != "" && u.email != ""
    ensures u.name == "" ==> r == Some(Plain(InvalidUserName))
    ensures u.name != "" && u.email == "" ==> r == Some(Plain(InvalidUserEmail))
  {
    if u.name == "" then Some(Plain(InvalidUserName))
    else if u.email == "" then Some(Plain(InvalidUserEmail))
    else None
  }

  /** Updates commute with each other up to the last update time, and neither
      can make a structurally valid user invalid unless it empties its field. */
  lemma UpdatesCommute(u: User, name: string, email: string, t1: Time, t2: Time)
    ensures UpdateEmail(UpdateName(u, name, t1), email, t2)
         == UpdateName(UpdateEmail(u, email, t1), name, t2)
    ensures Validate(u).None? && name != "" ==> Validate(UpdateName(u, name, t1)).None?
  {
  }
}
