/**
 * The record store the model delegates to: a list of contacts and a list of
 * policies, each free of duplicates in the weak sense (`isSamePerson`,
 * `isSamePolicy`). The store's own source is not part of this model; its
 * operations are given the meaning the model's callers rely on.
 */
module Store {
  import opened Wrappers
  import opened Sorting
  import opened Contacts
  import opened Policies

  datatype Siasa = Siasa(persons: seq<Contact>, policies: seq<Policy>)

  /** No two elements of `s` are related by `same`. */
  ghost predicate Distinct<T>(s: seq<T>, same: (T, T) -> bool)
  {
    forall i, j :: 0 <= i < j < |s| ==> !same(s[i], s[j])
  }

  predicate SamePolicy(a: Policy, b: Policy)
  {
    IsSamePolicy(a, Some(b))
  }

  /** No two contacts are the same person and no two policies are the same policy. */
  ghost predicate Valid(s: Siasa)
  {
    Distinct(s.persons, SameContact) && Distinct(s.policies, SamePolicy)
  }

  const Empty: Siasa := Siasa([], [])

  // ------------------------------------------------------------------ lookups

  /** Index of the first contact that is the same person as `p`, if any. */
  function FindPerson(ps: seq<Contact>, p: Contact): (r: Option<nat>)
    ensures r.Some? ==> r.value < |ps| && SameContact(ps[r.value], p)
                        && forall k :: 0 <= k < r.value ==> !SameContact(ps[k], p)
    ensures r.None? ==> forall k :: 0 <= k < |ps| ==> !SameContact(ps[k], p)
  {
    if ps == [] then None
    else if SameContact(ps[0], p) then Some(0)
    else match FindPerson(ps[1..], p)
      case None => None
      case Some(k) => Some(k + 1)
  }

  /** Index of the first policy that is the same policy as `p`, if any. */
  function FindPolicy(ps: seq<Policy>, p: Policy): (r: Option<nat>)
    ensures r.Some? ==> r.value < |ps| && IsSamePolicy(ps[r.value], Some(p))
                        && forall k :: 0 <= k < r.value ==> !IsSamePolicy(ps[k], Some(p))
    ensures r.None? ==> forall k :: 0 <= k < |ps| ==> !IsSamePolicy(ps[k], Some(p))
  {
    if ps == [] then None
    else if IsSamePolicy(ps[0], Some(p)) then Some(0)
    else match FindPolicy(ps[1..], p)
      case None => None
      case Some(k) => Some(k + 1)
  }

  predicate HasPerson(s: Siasa, p: Contact)
  {
    FindPerson(s.persons, p).Some?
  }

  /** The stored contact that is the same person as `p`, if there is one. */
  function GetSimilarPerson(s: Siasa, p: Contact): (r: Option<Contact>)
    ensures r.Some? <==> HasPerson(s, p)
    ensures r.Some? ==> r.value in s.persons && SameContact(r.value, p)
  {
    match FindPerson(s.persons, p)
    case None => None
    case Some(k) => Some(s.persons[k])
  }

  predicate HasPolicy(s: Siasa, p: Policy)
  {
    FindPolicy(s.policies, p).Some?
  }

  /** The stored policy that is the same policy as `p`, if there is one. */
  function GetSimilarPolicy(s: Siasa, p: Policy): (r: Option<Policy>)
    ensures r.Some? <==> HasPolicy(s, p)
    ensures r.Some? ==> r.value in s.policies && IsSamePolicy(r.value, Some(p))
  {
    match FindPolicy(s.policies, p)
    case None => None
    case Some(k) => Some(s.policies[k])
  }

  /** Any stored contact that is the same person makes `HasPerson` true. */
  lemma HasPersonMeaning(s: Siasa, p: Contact)
    ensures HasPerson(s, p) <==> exists k :: 0 <= k < |s.persons| && SameContact(s.persons[k], p)
  {
  }

  /** Any stored policy that is the same policy makes `HasPolicy` true. */
  lemma HasPolicyMeaning(s: Siasa, p: Policy)
    ensures HasPolicy(s, p) <==> exists k :: 0 <= k < |s.policies| && IsSamePolicy(s.policies[k], Some(p))
  {
  }

  // ---------------------------------------------------------------- updates

  /** Position of the first occurrence of `x`. */
  function IndexOf<T(==)>(s: seq<T>, x: T): (k: nat)
    requires x in s
    ensures k < |s| && s[k] == x && x !in s[..k]
  {
    if s[0] == x then 0
    else
      var k := IndexOf(s[1..], x);
      assert s[..k + 1] == [s[0]] + s[1..][..k];
      k + 1
  }

  /** Removes the first occurrence of `x`. */
  function RemoveFirst<T(==)>(s: seq<T>, x: T): (r: seq<T>)
    requires x in s
    ensures multiset(r) == multiset(s) - multiset{x}
    ensures |r| + 1 == |s|
  {
    var k := IndexOf(s, x);
    assert s == s[..k] + [x] + s[k + 1..];
    s[..k] + s[k + 1..]
  }

  /** Replaces the first occurrence of `target` by `edited`. */
  function ReplaceFirst<T(==)>(s: seq<T>, target: T, edited: T): (r: seq<T>)
    requires target in s
    ensures |r| == |s| && edited in r
    ensures multiset(r) == multiset(s) - multiset{target} + multiset{edited}
  {
    var k := IndexOf(s, target);
    assert s == s[..k] + [target] + s[k + 1..];
    assert s[k := edited] == s[..k] + [edited] + s[k + 1..];
    s[k := edited]
  }

  /** Adds a contact that is not yet stored. */
  function AddPerson(s: Siasa, p: Contact): (r: Siasa)
    requires !HasPerson(s, p)
    ensures r.persons == s.persons + [p] && r.policies == s.policies
  {
    s.(persons := s.persons + [p])
  }

  /** Replaces a stored contact; the edited one must not be another stored person. */
  function SetPerson(s: Siasa, target: Contact, edited: Contact): (r: Siasa)
    requires target in s.persons
    requires SameContact(target, edited) || !HasPerson(s, edited)
    ensures r.persons == s.persons[IndexOf(s.persons, target) := edited]
    ensures r.policies == s.policies
  {
    s.(persons := ReplaceFirst(s.persons, target, edited))
  }

  /** The policies that do not belong to `owner`. */
  function OthersPolicies(ps: seq<Policy>, owner: Contact): (r: seq<Policy>)
  {
    Filter(ps, (q: Policy) => !SameContact(q.owner, owner))
  }

  /** Removes a contact together with every policy it owns. */
  function RemovePersonAndAssociatedPolicies(s: Siasa, target: Contact): (r: Siasa)
    requires target in s.persons
    ensures r.persons == RemoveFirst(s.persons, target)
    ensures r.policies == OthersPolicies(s.policies, target)
  {
    Siasa(RemoveFirst(s.persons, target), OthersPolicies(s.policies, target))
  }

  /** Removes the policies that a contact owns. */
  function RemovePoliciesBelongingTo(s: Siasa, target: Contact): (r: Siasa)
    ensures r.persons == s.persons
    ensures r.policies == OthersPolicies(s.policies, target)
  {
    s.(policies := OthersPolicies(s.policies, target))
  }

  function AddPolicy(s: Siasa, p: Policy): (r: Siasa)
    requires !HasPolicy(s, p)
    ensures r.policies == s.policies + [p] && r.persons == s.persons
  {
    s.(policies := s.policies + [p])
  }

  function SetPolicy(s: Siasa, target: Policy, edited: Policy): (r: Siasa)
    requires target in s.policies
    requires IsSamePolicy(target, Some(edited)) || !HasPolicy(s, edited)
    ensures r.policies == s.policies[IndexOf(s.policies, target) := edited]
    ensures r.persons == s.persons
  {
    s.(policies := ReplaceFirst(s.policies, target, edited))
  }

  function RemovePolicy(s: Siasa, target: Policy): (r: Siasa)
    requires target in s.policies
    ensures r.persons == s.persons
    ensures r.policies == RemoveFirst(s.policies, target)
  {
    s.(policies := RemoveFirst(s.policies, target))
  }

  // -------------------------------------------------------------- invariants

  /** After the cascade no remaining policy belongs to the removed person; all others stay, in order. */
  lemma CascadeMeaning(s: Siasa, target: Contact)
    requires target in s.persons
    ensures forall q :: q in RemovePersonAndAssociatedPolicies(s, target).policies
                        <==> q in s.policies && !SameContact(q.owner, target)
  {
    FilterMembers(s.policies, (q: Policy) => !SameContact(q.owner, target));
  }

  lemma DistinctAppend<T>(s: seq<T>, x: T, same: (T, T) -> bool)
    requires Distinct(s, same)
    requires forall k :: 0 <= k < |s| ==> !same(s[k], x)
    ensures Distinct(s + [x], same)
  {
    var r := s + [x];
    forall i, j | 0 <= i < j < |r| ensures !same(r[i], r[j]) {
      assert r[i] == s[i];
    }
  }

  lemma {:induction false} DistinctFilter<T(!new)>(s: seq<T>, p: T -> bool, same: (T, T) -> bool)
    requires Distinct(s, same)
    ensures Distinct(Filter(s, p), same)
  {
    if s != [] {
      var t := Filter(s[1..], p);
      assert Distinct(s[1..], same) by {
        forall i, j | 0 <= i < j < |s[1..]| ensures !same(s[1..][i], s[1..][j]) {
          assert s[1..][i] == s[i + 1] && s[1..][j] == s[j + 1];
        }
      }
      DistinctFilter(s[1..], p, same);
      if p(s[0]) {
        var r := [s[0]] + t;
        assert Filter(s, p) == r;
        FilterMembers(s[1..], p);
        forall i, j | 0 <= i < j < |r| ensures !same(r[i], r[j]) {
          if i == 0 {
            assert r[j] == t[j - 1] && t[j - 1] in s[1..];
            var k :| 0 <= k < |s[1..]| && s[1..][k] == t[j - 1];
            assert s[k + 1] == r[j];
          } else {
            assert r[i] == t[i - 1] && r[j] == t[j - 1];
          }
        }
      } else {
        assert Filter(s, p) == t;
      }
    }
  }

  lemma DistinctRemoveFirst<T(!new)>(s: seq<T>, x: T, same: (T, T) -> bool)
    requires x in s && Distinct(s, same)
    ensures Distinct(RemoveFirst(s, x), same)
  {
    var k := IndexOf(s, x);
    var r := s[..k] + s[k + 1..];
    forall i, j | 0 <= i < j < |r| ensures !same(r[i], r[j]) {
      var i', j' := if i < k then i else i + 1, if j < k then j else j + 1;
      assert r[i] == s[i'] && r[j] == s[j'];
    }
  }

  lemma DistinctUpdate<T>(s: seq<T>, k: nat, e: T, same: (T, T) -> bool)
    requires k < |s| && Distinct(s, same)
    requires forall j :: 0 <= j < |s| && j != k ==> !same(s[j], e) && !same(e, s[j])
    ensures Distinct(s[k := e], same)
  {
  }

  // ------------------------------------------------ the store keeps its invariant

  /** `isSamePolicy` between two policies is title equality plus same owner. */
  lemma SamePolicyMeaning(a: Policy, b: Policy)
    ensures SamePolicy(a, b) <==> a.title == b.title && SameContact(a.owner, b.owner)
  {
  }

  lemma AddPersonValid(s: Siasa, p: Contact)
    requires Valid(s) && !HasPerson(s, p)
    ensures Valid(AddPerson(s, p))
  {
    DistinctAppend(s.persons, p, SameContact);
  }

  lemma SetPersonValid(s: Siasa, target: Contact, edited: Contact)
    requires Valid(s) && target in s.persons
    requires SameContact(target, edited) || !HasPerson(s, edited)
    ensures Valid(SetPerson(s, target, edited))
  {
    var k := IndexOf(s.persons, target);
    forall j | 0 <= j < |s.persons| && j != k
      ensures !SameContact(s.persons[j], edited) && !SameContact(edited, s.persons[j])
    {
      if SameContact(target, edited) {
        if j < k {
          assert !SameContact(s.persons[j], s.persons[k]);
        } else {
          assert !SameContact(s.persons[k], s.persons[j]);
        }
      }
    }
    DistinctUpdate(s.persons, k, edited, SameContact);
  }

  lemma RemovePersonValid(s: Siasa, target: Contact)
    requires Valid(s) && target in s.persons
    ensures Valid(RemovePersonAndAssociatedPolicies(s, target))
  {
    DistinctRemoveFirst(s.persons, target, SameContact);
    DistinctFilter(s.policies, (q: Policy) => !SameContact(q.owner, target), SamePolicy);
  }

  lemma RemovePoliciesBelongingToValid(s: Siasa, target: Contact)
    requires Valid(s)
    ensures Valid(RemovePoliciesBelongingTo(s, target))
  {
    DistinctFilter(s.policies, (q: Policy) => !SameContact(q.owner, target), SamePolicy);
  }

  lemma AddPolicyValid(s: Siasa, p: Policy)
    requires Valid(s) && !HasPolicy(s, p)
    ensures Valid(AddPolicy(s, p))
  {
    DistinctAppend(s.policies, p, SamePolicy);
  }

  lemma SetPolicyValid(s: Siasa, target: Policy, edited: Policy)
    requires Valid(s) && target in s.policies
    requires IsSamePolicy(target, Some(edited)) || !HasPolicy(s, edited)
    ensures Valid(SetPolicy(s, target, edited))
  {
    var k := IndexOf(s.policies, target);
    forall j | 0 <= j < |s.policies| && j != k
      ensures !SamePolicy(s.policies[j], edited) && !SamePolicy(edited, s.policies[j])
    {
      SamePolicyMeaning(s.policies[j], edited);
      SamePolicyMeaning(edited, s.policies[j]);
      SamePolicyMeaning(target, edited);
      if j < k {
        SamePolicyMeaning(s.policies[j], s.policies[k]);
      } else {
        SamePolicyMeaning(s.policies[k], s.policies[j]);
      }
    }
    DistinctUpdate(s.policies, k, edited, SamePolicy);
  }

  lemma RemovePolicyValid(s: Siasa, target: Policy)
    requires Valid(s) && target in s.policies
    ensures Valid(RemovePolicy(s, target))
  {
    DistinctRemoveFirst(s.policies, target, SamePolicy);
  }
}
