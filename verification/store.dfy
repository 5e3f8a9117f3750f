/**
 * The in-memory user repository: a map from identifier to user. The lock
 * that guards it makes every operation atomic, so each operation is a pure
 * function from the map before to its reply and the map after. Go's map
 * iteration order is unspecified; the operations that iterate take the order
 * the runtime happened to choose as a parameter, and their contracts hold for
 * every such order.
 */
module MemoryStore {
  import opened Wrappers
  import opened Errors
  import opened Ids
  import opened Entities

  type Store = map<ID, User>

  /** NewUserRepository: the empty store. */
  const Empty: Store := map[]

  /** `order` lists every key of `s` exactly once: one possible iteration order. */
  predicate IsEnumeration(order: seq<ID>, s: Store)
  {
    && (forall i, j :: 0 <= i < j < |order| ==> order[i] != order[j])
    && (forall k :: k in order ==> k in s)
    && (forall k :: k in s ==> k in order)
  }

  /** Every user is stored under its own identifier. */
  predicate WellKeyed(s: Store)
  {
    forall k :: k in s ==> s[k].id == k
  }

  /** No two stored users share an email. */
  predicate EmailsUnique(s: Store)
  {
    forall a, b :: a in s && b in s && s[a].email == s[b].email ==> a == b
  }

  predicate NoUserHasEmail(s: Store, email: string)
  {
    forall k :: k in s ==> s[k].email != email
  }

  lemma {:induction false} DistinctSeqSize(order: seq<ID>, keys: set<ID>)
    requires forall i, j :: 0 <= i < j < |order| ==> order[i] != order[j]
    requires forall k :: k in order <==> k in keys
    ensures |order| == |keys|
  {
    if |order| > 0 {
      var rest := order[1..];
      forall i, j | 0 <= i < j < |rest| ensures rest[i] != rest[j] {
        assert rest[i] == order[i + 1] && rest[j] == order[j + 1];
      }
      forall k ensures k in rest <==> k in keys - {order[0]} {
        if k in rest {
          var j :| 0 <= j < |rest| && rest[j] == k;
          assert order[j + 1] == k;
        }
        if k in keys - {order[0]} {
          assert k in order;
          var j :| 0 <= j < |order| && order[j] == k;
          assert j != 0;
          assert rest[j - 1] == k;
        }
      }
      DistinctSeqSize(rest, keys - {order[0]});
    }
  }

  /** An enumeration is exactly as long as the store is large. */
  lemma EnumerationSize(order: seq<ID>, s: Store)
    requires IsEnumeration(order, s)
    ensures |order| == |s|
  {
    DistinctSeqSize(order, s.Keys);
  }

  /** Count: the number of stored users, which is the number of users any
      iteration over the store visits. */
  function Count(s: Store): (r: nat)
    ensures forall order :: IsEnumeration(order, s) ==> r == |order|
  {
    forall order | IsEnumeration(order, s) ensures |s| == |order| {
      EnumerationSize(order, s);
    }
    |s|
  }

  /** Create: inserts the user under its identifier, silently replacing any
      user already stored there; it never fails. */
  function Create(s: Store, u: User): (r: Store)
    ensures r.Keys == s.Keys + {u.id} && r[u.id] == u
    ensures forall k :: k in s && k != u.id ==> r[k] == s[k]
    ensures Count(r) == if u.id in s then Count(s) else Count(s) + 1
    ensures WellKeyed(s) ==> WellKeyed(r)
  {
    s[u.id := u]
  }

  /** GetByID: the stored user, or none when the identifier is absent (never an error). */
  function GetByID(s: Store, id: ID): (r: Option<User>)
    ensures r.Some? <==> id in s
    ensures r.Some? ==> r.value == s[id]
  {
    if id in s then Some(s[id]) else None
  }

  function FirstWithEmail(s: Store, order: seq<ID>, email: string): (r: Option<User>)
    requires forall k :: k in order ==> k in s
    ensures r.Some? ==> r.value.email == email && exists k :: k in order && s[k] == r.value
    ensures r.None? <==> forall i :: 0 <= i < |order| ==> s[order[i]].email != email
  {
    if |order| == 0 then None
    else if s[order[0]].email == email then Some(s[order[0]])
    else
      var r := FirstWithEmail(s, order[1..], email);
      assert forall i :: 1 <= i < |order| ==> order[i] == order[1..][i - 1];
      r
  }

  /** GetByEmail: the first user in iteration order with that email, or none
      when there is no such user (never an error). */
  function GetByEmail(s: Store, order: seq<ID>, email: string): (r: Option<User>)
    requires IsEnumeration(order, s)
    ensures r.Some? ==> r.value.email == email && r.value in s.Values
    ensures r.None? <==> NoUserHasEmail(s, email)
    ensures r.Some? && WellKeyed(s) ==> r.value.id in s && s[r.value.id] == r.value
  {
    var r := FirstWithEmail(s, order, email);
    EnumerationCovers(s, order, email);
    r
  }

  lemma EnumerationCovers(s: Store, order: seq<ID>, email: string)
    requires IsEnumeration(order, s)
    ensures NoUserHasEmail(s, email) <==> forall i :: 0 <= i < |order| ==> s[order[i]].email != email
  {
  }

  /** A store reply for the mutating operations: the map after, and the error if any. */
  datatype Written = Written(store: Store, err: Option<Error>)

  /** Update: replaces the user stored under the same identifier; an absent
      identifier is refused with the not-found sentinel and nothing changes. */
  function Update(s: Store, u: User): (r: Written)
    ensures u.id !in s ==> r == Written(s, Some(Plain(UserNotFound)))
    ensures u.id in s ==> r.err.None? && r.store.Keys == s.Keys && r.store[u.id] == u
    ensures u.id in s ==> forall k :: k in s && k != u.id ==> r.store[k] == s[k]
    ensures Count(r.store) == Count(s)
    ensures WellKeyed(s) ==> WellKeyed(r.store)
  {
    if u.id !in s then Written(s, Some(Plain(UserNotFound)))
    else Written(s[u.id := u], None)
  }

  /** Delete: removes exactly the given key; an absent identifier is refused
      with the not-found sentinel and nothing changes. */
  function Delete(s: Store, id: ID): (r: Written)
    ensures id !in s ==> r == Written(s, Some(Plain(UserNotFound)))
    ensures id in s ==> r.err.None? && r.store.Keys == s.Keys - {id}
    ensures id in s ==> forall k :: k in r.store ==> r.store[k] == s[k]
    ensures id in s ==> Count(r.store) == Count(s) - 1
    ensures WellKeyed(s) ==> WellKeyed(r.store)
    ensures EmailsUnique(s) ==> EmailsUnique(r.store)
  {
    if id !in s then Written(s, Some(Plain(UserNotFound)))
    else
      var r := s - {id};
      assert r.Keys == s.Keys - {id};
      Written(r, None)
  }

  /** The stored users in the given iteration order. */
  function UsersIn(s: Store, order: seq<ID>): (us: seq<User>)
    requires forall k :: k in order ==> k in s
    ensures |us| == |order|
    ensures forall i :: 0 <= i < |order| ==> us[i] == s[order[i]]
  {
    seq(|order|, i requires 0 <= i < |order| => s[order[i]])
  }

  function Min(a: int, b: int): int
  {
    if a <= b then a else b
  }

  /** List: the users from position `offset` on, at most `limit` of them, in
      iteration order. The end bound is computed without overflow. Only
      non-negative arguments are admitted: with an offset at most the count,
      Go panics on a negative offset or limit; past the count it returns the
      empty page whatever the limit. ListAsWritten covers every int64 pair. */
  function List(s: Store, order: seq<ID>, limit: int, offset: int): (r: seq<User>)
    requires IsEnumeration(order, s)
    requires limit >= 0 && offset >= 0
    ensures offset >= |s| ==> r == []
    ensures offset < |s| ==> |r| == Min(limit, |s| - offset)
    ensures forall i :: 0 <= i < |r| ==> offset + i < |order| && r[i] == s[order[offset + i]]
    ensures forall u :: u in r ==> u in s.Values
  {
    EnumerationSize(order, s);
    var all := UsersIn(s, order);
    if offset > |all| then []
    else
      var end := if limit > |all| - offset then |all| else offset + limit;
      all[offset..end]
  }

  /** Listing everything from the start yields Count users, each stored user once. */
  lemma ListAllIsCount(s: Store, order: seq<ID>)
    requires IsEnumeration(order, s)
    ensures |List(s, order, Count(s), 0)| == Count(s)
    ensures forall k :: k in s ==> s[k] in List(s, order, Count(s), 0)
  {
    EnumerationSize(order, s);
    var r := List(s, order, Count(s), 0);
    forall k | k in s ensures s[k] in r {
      var i :| 0 <= i < |order| && order[i] == k;
      assert r[i] == s[k];
    }
  }

  // ----- The end bound as the source computes it, in 64-bit arithmetic -----

  const MaxInt64: int := 0x7fff_ffff_ffff_ffff

  /** Go's `int` addition on a 64-bit platform: wraps modulo 2^64. */
  function AddInt64(a: int, b: int): (r: int)
    requires -MaxInt64 - 1 <= a <= MaxInt64 && -MaxInt64 - 1 <= b <= MaxInt64
    ensures -MaxInt64 - 1 <= r <= MaxInt64
    ensures -MaxInt64 - 1 <= a + b <= MaxInt64 ==> r == a + b
    ensures a + b > MaxInt64 ==> r == a + b - 0x1_0000_0000_0000_0000
  {
    var t := a + b;
    if t > MaxInt64 then t - 0x1_0000_0000_0000_0000
    else if t < -MaxInt64 - 1 then t + 0x1_0000_0000_0000_0000
    else t
  }

  /** List as written, for every int64 offset and limit (None: the call
      panics). Past the count the page is empty. Otherwise `end := start +
      limit` may wrap, and whenever the start is negative or the end bound
      falls below it, `make` with length `end-start` or the slice
      `users[start:end]` panics. */
  function ListAsWritten(s: Store, order: seq<ID>, limit: int, offset: int): (r: Option<seq<User>>)
    requires IsEnumeration(order, s)
    requires -MaxInt64 - 1 <= limit <= MaxInt64 && -MaxInt64 - 1 <= offset <= MaxInt64
    ensures offset > |s| ==> r == Some([])
    ensures 0 <= offset <= |s| && offset + limit > MaxInt64 ==> r.None?
    ensures offset < 0 ==> r.None?
    ensures offset <= |s| && limit < 0 ==> r.None?
    ensures 0 <= offset && 0 <= limit && offset + limit <= MaxInt64 ==> r == Some(List(s, order, limit, offset))
  {
    EnumerationSize(order, s);
    var all := UsersIn(s, order);
    if offset > |all| then Some([])
    else
      var end0 := AddInt64(offset, limit);
      var end := if end0 > |all| then |all| else end0;
      if offset < 0 || end < offset then None else Some(all[offset..end])
  }

  /** A store with one user, offset 1 and the largest limit: the source
      panics where the intended result is the empty page. */
  lemma ListOverflowWitness(u: User)
    ensures ListAsWritten(map[u.id := u], [u.id], MaxInt64, 1).None?
    ensures List(map[u.id := u], [u.id], MaxInt64, 1) == []
  {
  }
}
