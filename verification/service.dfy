/**
 * The user service: business validation of a user's name and email, and the
 * email-uniqueness lookup against the store.
 */
module UserService {
  import opened Wrappers
  import opened Errors
  import opened Ids
  import opened Entities
  import opened MemoryStore

  /** Go's unicode.IsSpace: tab, newline, vertical tab, form feed, carriage
      return, space, U+0085 and U+00A0 in Latin-1, and beyond it the other
      characters with the Unicode White_Space property. */
  predicate IsSpace(c: char)
  {
    var n := c as int;
    || (0x09 <= n <= 0x0D) || n == 0x20 || n == 0x85 || n == 0xA0
    || n == 0x1680 || (0x2000 <= n <= 0x200A) || n == 0x2028 || n == 0x2029
    || n == 0x202F || n == 0x205F || n == 0x3000
  }

  predicate AllSpace(s: string)
  {
    forall i :: 0 <= i < |s| ==> IsSpace(s[i])
  }

  function TrimLeft(s: string): (r: string)
    ensures |r| <= |s| && r == s[|s| - |r|..]
    ensures forall i :: 0 <= i < |s| - |r| ==> IsSpace(s[i])
    ensures |r| > 0 ==> !IsSpace(r[0])
  {
    if |s| > 0 && IsSpace(s[0]) then
      var r := TrimLeft(s[1..]);
      assert forall i :: 1 <= i < |s| ==> s[i] == s[1..][i - 1];
      r
    else s
  }

  function TrimRight(s: string): (r: string)
    ensures |r| <= |s| && r == s[..|r|]
    ensures forall i :: |r| <= i < |s| ==> IsSpace(s[i])
    ensures |r| > 0 ==> !IsSpace(r[|r| - 1])
  {
    if |s| > 0 && IsSpace(s[|s| - 1]) then
      var r := TrimRight(s[..|s| - 1]);
      assert forall i :: 0 <= i < |s| - 1 ==> s[i] == s[..|s| - 1][i];
      r
    else s
  }

  /** `r` is `s` with a run of spaces cut off each end. */
  predicate IsTrimmedInfix(s: string, r: string)
  {
    exists i, j :: 0 <= i <= j <= |s| && r == s[i..j] && AllSpace(s[..i]) && AllSpace(s[j..])
  }

  /** Neither the first nor the last character is a space. */
  predicate NoSpaceAtEnds(r: string)
  {
    |r| > 0 ==> !IsSpace(r[0]) && !IsSpace(r[|r| - 1])
  }

  /** strings.TrimSpace: the string without its leading and trailing spaces.
      It is empty exactly when the string is all spaces. */
  function TrimSpace(s: string): (r: string)
    ensures IsTrimmedInfix(s, r)
    ensures r == "" <==> AllSpace(s)
    ensures NoSpaceAtEnds(r)
  {
    var l := TrimLeft(s);
    var r := TrimRight(l);
    CutPoints(s, l, r);
    CutEmptyIffAllSpace(s, l, r);
    CutEnds(l, r);
    r
  }

  /** A left cut `l` of `s` followed by a right cut `r` of `l` is the middle
      of `s`, with only spaces around it. */
  lemma CutPoints(s: string, l: string, r: string)
    requires |l| <= |s| && l == s[|s| - |l|..]
    requires forall k :: 0 <= k < |s| - |l| ==> IsSpace(s[k])
    requires |r| <= |l| && r == l[..|r|]
    requires forall k :: |r| <= k < |l| ==> IsSpace(l[k])
    ensures IsTrimmedInfix(s, r)
  {
    var i := |s| - |l|;
    SuffixOfSuffix(s, i, |r|);
    SpacesBefore(s, i);
    SpacesAfter(s, l, i, |r|);
    InfixWitness(s, r, i, i + |r|);
  }

  lemma InfixWitness(s: string, r: string, i: nat, j: nat)
    requires i <= j <= |s| && r == s[i..j] && AllSpace(s[..i]) && AllSpace(s[j..])
    ensures IsTrimmedInfix(s, r)
  {
  }

  lemma SuffixOfSuffix(s: string, i: nat, n: nat)
    requires i + n <= |s|
    ensures s[i..][..n] == s[i..i + n]
  {
  }

  lemma SpacesBefore(s: string, i: nat)
    requires i <= |s|
    requires forall k :: 0 <= k < i ==> IsSpace(s[k])
    ensures AllSpace(s[..i])
  {
    forall k | 0 <= k < i ensures IsSpace(s[..i][k]) {
      assert s[..i][k] == s[k];
    }
  }

  lemma SpacesAfter(s: string, l: string, i: nat, n: nat)
    requires i + n <= |s| && l == s[i..]
    requires forall k :: n <= k < |l| ==> IsSpace(l[k])
    ensures AllSpace(s[i + n..])
  {
    var tail := s[i + n..];
    forall k | 0 <= k < |tail| ensures IsSpace(tail[k]) {
      assert tail[k] == l[n + k];
    }
  }

  /** The middle is empty exactly when `s` is all spaces. */
  lemma CutEmptyIffAllSpace(s: string, l: string, r: string)
    requires |l| <= |s| && l == s[|s| - |l|..]
    requires forall k :: 0 <= k < |s| - |l| ==> IsSpace(s[k])
    requires |l| > 0 ==> !IsSpace(l[0])
    requires |r| <= |l| && r == l[..|r|]
    requires forall k :: |r| <= k < |l| ==> IsSpace(l[k])
    ensures r == "" <==> AllSpace(s)
  {
    if r != "" {
      assert s[|s| - |l|] == l[0];
    }
  }

  /** The middle starts and ends with a non-space. */
  lemma CutEnds(l: string, r: string)
    requires |l| > 0 ==> !IsSpace(l[0])
    requires |r| <= |l| && r == l[..|r|]
    requires |r| > 0 ==> !IsSpace(r[|r| - 1])
    ensures NoSpaceAtEnds(r)
  {
  }

  /** ValidateUserCreation: a name of spaces only is refused first; then an
      email without an "@" or without a "." is refused. */
  function ValidateUserCreation(u: User): (r: Option<Error>)
    ensures r == Some(Plain(InvalidUserName)) <==> AllSpace(u.name)
    ensures !AllSpace(u.name) ==> (r == Some(Plain(InvalidUserEmail)) <==> !('@' in u.email && '.' in u.email))
    ensures r.None? <==> !AllSpace(u.name) && '@' in u.email && '.' in u.email
  {
    if TrimSpace(u.name) == "" then Some(Plain(InvalidUserName))
    else if !('@' in u.email) || !('.' in u.email) then Some(Plain(InvalidUserEmail))
    else None
  }

  /** ValidateUserUpdate: the same rules as for creation. */
  function ValidateUserUpdate(u: User): (r: Option<Error>)
    ensures r == ValidateUserCreation(u)
    ensures r.None? <==> !AllSpace(u.name) && '@' in u.email && '.' in u.email
  {
    ValidateUserCreation(u)
  }

  /** The uniqueness decision on the reply of a repository's email lookup:
      a lookup error is passed on; no user means unique; so does the excluded
      user, when an exclusion is given. */
  function DecideUnique(found: Option<User>, lookupErr: Option<Error>, excludeID: ID): (r: (bool, Option<Error>))
    ensures r.1 == lookupErr
    ensures lookupErr.Some? ==> !r.0
    ensures lookupErr.None? && found.None? ==> r.0
    ensures lookupErr.None? && found.Some? && IsEmpty(excludeID) ==> !r.0
    ensures lookupErr.None? && found.Some? && !IsEmpty(excludeID) ==> (r.0 <==> found.value.id == excludeID)
  {
    if lookupErr.Some? then (false, lookupErr)
    else if found.None? then (true, None)
    else if !IsEmpty(excludeID) && found.value.id == excludeID then (true, None)
    else (false, None)
  }

  /** IsEmailUnique over the in-memory store, which never reports an error.
      With an exclusion, holders of the email that are the excluded user do
      not count against it; other holders do. */
  function IsEmailUnique(s: Store, order: seq<ID>, email: string, excludeID: ID): (r: (bool, Option<Error>))
    requires IsEnumeration(order, s)
    ensures r.1.None?
    ensures NoUserHasEmail(s, email) ==> r.0
    ensures IsEmpty(excludeID) ==> (r.0 <==> NoUserHasEmail(s, email))
    ensures !IsEmpty(excludeID) && OnlyExcludedHold(s, email, excludeID) ==> r.0
    ensures !IsEmpty(excludeID) && !NoUserHasEmail(s, email) && NoExcludedHolds(s, email, excludeID) ==> !r.0
    ensures EmailsUnique(s) && !IsEmpty(excludeID) ==> (r.0 <==> OnlyExcludedHold(s, email, excludeID))
  {
    var found := GetByEmail(s, order, email);
    HolderOf(s, found, email);
    DecideUnique(found, None, excludeID)
  }

  /** Every stored user with the email is the excluded user. */
  predicate OnlyExcludedHold(s: Store, email: string, excludeID: ID)
  {
    forall k :: k in s && s[k].email == email ==> s[k].id == excludeID
  }

  /** No stored user with the email is the excluded user. */
  predicate NoExcludedHolds(s: Store, email: string, excludeID: ID)
  {
    forall k :: k in s && s[k].email == email ==> s[k].id != excludeID
  }

  /** A user found by email is stored under some key, and with unique emails
      it is the only holder of that email. */
  lemma HolderOf(s: Store, found: Option<User>, email: string)
    requires found.Some? ==> found.value.email == email && found.value in s.Values
    ensures found.Some? ==> exists k :: k in s && s[k] == found.value
    ensures found.Some? && EmailsUnique(s) ==> forall k :: k in s && s[k].email == email ==> s[k] == found.value
  {
    if found.Some? {
      var k0 :| k0 in s && s[k0] == found.value;
      if EmailsUnique(s) {
        forall k | k in s && s[k].email == email ensures s[k] == found.value {
          assert s[k].email == s[k0].email;
        }
      }
    }
  }
}
