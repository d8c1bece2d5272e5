/**
 * The insurance policy value: its fields, the weak identity `isSamePolicy`, full
 * equality, a hash code consistent with equality and the one-line summary.
 */
module Policies {
  import opened Wrappers
  import opened Text
  import opened Contacts

  datatype Title = Title(value: string)
  datatype Price = Price(priceInCents: int)
  /** A calendar date; which dates it may hold is decided by the date library, not modelled here. */
  datatype Date = Date(year: int, month: int, day: int)
  datatype ExpiryDate = ExpiryDate(date: Date)
  datatype Commission = Commission(commissionPercentage: int)

  /** A policy is immutable: its tag set is its own copy and cannot change after construction. */
  datatype Policy = Policy(
    title: Title,
    price: Price,
    expiryDate: ExpiryDate,
    commission: Commission,
    owner: Contact,
    tags: set<Tag>)

  /**
   * `isSamePolicy`: the same object, or a policy (not null, written `None`) with the same
   * title whose owner is the same person.
   */
  predicate IsSamePolicy(p: Policy, other: Option<Policy>)
  {
    other == Some(p)
    || (other.Some? && other.value.title == p.title && SameContact(other.value.owner, p.owner))
  }

  /**
   * `equals`: the same object, or a policy (`None` stands for null and for every object that is
   * not a policy) agreeing on title, price, commission, expiry date and tags whose owner is the
   * same person.
   */
  predicate Equals(p: Policy, other: Option<Policy>)
  {
    other == Some(p)
    || (other.Some?
        && other.value.title == p.title
        && other.value.price == p.price
        && other.value.commission == p.commission
        && other.value.expiryDate == p.expiryDate
        && SameContact(other.value.owner, p.owner)
        && other.value.tags == p.tags)
  }

  lemma IsSamePolicyReflexive(p: Policy)
    ensures IsSamePolicy(p, Some(p))
  {
  }

  /** Null is never the same policy; otherwise sameness is title plus same owner. */
  lemma IsSamePolicyMeaning(p: Policy, other: Option<Policy>)
    ensures other.None? ==> !IsSamePolicy(p, other)
    ensures other.Some? ==>
      (IsSamePolicy(p, other) <==> other.value.title == p.title && SameContact(other.value.owner, p.owner))
  {
  }

  lemma IsSamePolicySymmetric(p: Policy, q: Policy)
    ensures IsSamePolicy(p, Some(q)) <==> IsSamePolicy(q, Some(p))
  {
  }

  /** Full equality is the stronger notion. */
  lemma EqualsImpliesSame(p: Policy, other: Option<Policy>)
    ensures Equals(p, other) ==> IsSamePolicy(p, other)
  {
  }

  /** `equals` is an equivalence relation on policies. */
  lemma EqualsEquivalence(p: Policy, q: Policy, s: Policy)
    ensures Equals(p, Some(p))
    ensures Equals(p, Some(q)) <==> Equals(q, Some(p))
    ensures Equals(p, Some(q)) && Equals(q, Some(s)) ==> Equals(p, Some(s))
  {
  }

  /** Two policies differing only in their owners' contact details other than the name are equal. */
  lemma EqualsIgnoresOwnerDetails(p: Policy, owner: Contact)
    requires SameContact(owner, p.owner)
    ensures Equals(p, Some(p.(owner := owner)))
  {
  }

  /** `List.equals` on policy lists: the same length and `equals` at every position. */
  predicate SamePolicies(ps: seq<Policy>, qs: seq<Policy>)
  {
    |ps| == |qs| && forall i :: 0 <= i < |ps| ==> Equals(ps[i], Some(qs[i]))
  }

  /** `List.equals` over `equals` is an equivalence relation on policy lists. */
  lemma SamePoliciesEquivalence(ps: seq<Policy>, qs: seq<Policy>, rs: seq<Policy>)
    ensures SamePolicies(ps, ps)
    ensures SamePolicies(ps, qs) <==> SamePolicies(qs, ps)
    ensures SamePolicies(ps, qs) && SamePolicies(qs, rs) ==> SamePolicies(ps, rs)
  {
    if SamePolicies(ps, qs) && SamePolicies(qs, rs) {
      forall i | 0 <= i < |ps| ensures Equals(ps[i], Some(rs[i])) {
        EqualsEquivalence(ps[i], qs[i], rs[i]);
      }
    }
  }

  /** A list whose policy has an owner with other details but the same name still compares equal. */
  lemma SamePoliciesIgnoresOwnerDetails(ps: seq<Policy>, k: nat, owner: Contact)
    requires k < |ps| && SameContact(owner, ps[k].owner)
    ensures SamePolicies(ps, ps[k := ps[k].(owner := owner)])
  {
    var qs := ps[k := ps[k].(owner := owner)];
    forall i | 0 <= i < |ps| ensures Equals(ps[i], Some(qs[i])) {
      if i == k {
        EqualsIgnoresOwnerDetails(ps[k], owner);
      }
    }
  }

  // ------------------------------------------------------------------- hashing

  /** Hash codes of the field types, as their own `hashCode` methods compute them. */
  datatype Hashers = Hashers(
    title: Title -> int,
    price: Price -> int,
    commission: Commission -> int,
    expiryDate: ExpiryDate -> int,
    tags: set<Tag> -> int)

  /** The fold of `Arrays.hashCode`: `acc = 31 * acc + h` for each element, in `int` arithmetic. */
  function HashFold(acc: int, hs: seq<int>): (r: int)
    requires IsInt32(acc)
    ensures IsInt32(r)
    decreases |hs|
  {
    if hs == [] then acc else HashFold(Wrap32(31 * acc + hs[0]), hs[1..])
  }

  /** `Objects.hash` of the given element hashes. */
  function ObjectsHash(hs: seq<int>): (r: int)
    ensures IsInt32(r)
  {
    HashFold(1, hs)
  }

  /** The same fold over unbounded integers. */
  function PolyFold(acc: int, hs: seq<int>): int
    decreases |hs|
  {
    if hs == [] then acc else PolyFold(31 * acc + hs[0], hs[1..])
  }

  /** Wrap-around only at the end gives the same hash as wrap-around at every step. */
  lemma {:induction false} HashFoldIsPoly(acc: int, hs: seq<int>)
    requires IsInt32(acc)
    ensures HashFold(acc, hs) == Wrap32(PolyFold(acc, hs))
    decreases |hs|
  {
    if hs == [] {
    } else {
      var w := Wrap32(31 * acc + hs[0]);
      HashFoldIsPoly(w, hs[1..]);
      PolyFoldCongruent(w, 31 * acc + hs[0], hs[1..]);
    }
  }

  /** Starting values that agree modulo 2^32 fold to values that agree modulo 2^32. */
  lemma {:induction false} PolyFoldCongruent(a: int, b: int, hs: seq<int>)
    requires (a - b) % 0x1_0000_0000 == 0
    ensures Wrap32(PolyFold(a, hs)) == Wrap32(PolyFold(b, hs))
    decreases |hs|
  {
    if hs == [] {
      WrapCongruent(a, b);
    } else {
      var k := (a - b) / 0x1_0000_0000;
      assert a - b == k * 0x1_0000_0000;
      assert (31 * a + hs[0]) - (31 * b + hs[0]) == (31 * k) * 0x1_0000_0000;
      PolyFoldCongruent(31 * a + hs[0], 31 * b + hs[0], hs[1..]);
    }
  }

  lemma WrapCongruent(a: int, b: int)
    requires (a - b) % 0x1_0000_0000 == 0
    ensures Wrap32(a) == Wrap32(b)
  {
    var k := (a - b) / 0x1_0000_0000;
    assert a - b == k * 0x1_0000_0000;
    var x := b - INT32_MIN;
    var q, r := x / 0x1_0000_0000, x % 0x1_0000_0000;
    assert a - INT32_MIN == (q + k) * 0x1_0000_0000 + r;
  }

  /** `hashCode`: `Objects.hash(title, price, commission, expiryDate, tags)`; the owner is not hashed. */
  function HashCode(p: Policy, h: Hashers): (r: int)
    ensures IsInt32(r)
  {
    ObjectsHash([h.title(p.title), h.price(p.price), h.commission(p.commission),
                 h.expiryDate(p.expiryDate), h.tags(p.tags)])
  }

  /** Equal policies have equal hash codes, whatever the field hash functions are. */
  lemma HashCodeConsistent(p: Policy, q: Policy, h: Hashers)
    requires Equals(p, Some(q))
    ensures HashCode(p, h) == HashCode(q, h)
  {
  }

  /** The hash is the polynomial `31^5 + 31^4 h1 + ... + h5` reduced to 32 bits. */
  lemma HashCodeFormula(p: Policy, h: Hashers)
    ensures HashCode(p, h) ==
      Wrap32(28629151 + 923521 * h.title(p.title) + 29791 * h.price(p.price)
             + 961 * h.commission(p.commission) + 31 * h.expiryDate(p.expiryDate) + h.tags(p.tags))
  {
    var hs := [h.title(p.title), h.price(p.price), h.commission(p.commission),
               h.expiryDate(p.expiryDate), h.tags(p.tags)];
    HashFoldIsPoly(1, hs);
    var h1, h2, h3, h4, h5 := hs[0], hs[1], hs[2], hs[3], hs[4];
    assert hs[1..] == [h2, h3, h4, h5];
    assert [h2, h3, h4, h5][1..] == [h3, h4, h5];
    assert [h3, h4, h5][1..] == [h4, h5];
    assert [h4, h5][1..] == [h5];
    assert [h5][1..] == [];
    calc {
      PolyFold(1, hs);
      PolyFold(31 + h1, [h2, h3, h4, h5]);
      PolyFold(31 * (31 + h1) + h2, [h3, h4, h5]);
      PolyFold(31 * (31 * (31 + h1) + h2) + h3, [h4, h5]);
      PolyFold(31 * (31 * (31 * (31 + h1) + h2) + h3) + h4, [h5]);
      31 * (31 * (31 * (31 * (31 + h1) + h2) + h3) + h4) + h5;
    }
  }

  // ----------------------------------------------------------------- rendering

  /** The `toString` of the field types and of a tag. */
  datatype Renderers = Renderers(
    title: Title -> string,
    price: Price -> string,
    commission: Commission -> string,
    expiryDate: ExpiryDate -> string,
    tag: Tag -> string)

  /** The part of the summary that every policy has. */
  function Summary(p: Policy, rd: Renderers): string
  {
    rd.title(p.title) + "; Price: " + rd.price(p.price) + "; Commission: " + rd.commission(p.commission)
    + "; Expiry Date: " + rd.expiryDate(p.expiryDate)
  }

  function Concat(parts: seq<string>): string
  {
    if parts == [] then [] else parts[0] + Concat(parts[1..])
  }

  function MapTags(ts: seq<Tag>, render: Tag -> string): (r: seq<string>)
    ensures |r| == |ts| && forall k :: 0 <= k < |ts| ==> r[k] == render(ts[k])
  {
    if ts == [] then [] else [render(ts[0])] + MapTags(ts[1..], render)
  }

  /** `order` lists the tag set once each, in the order the set iterates. */
  ghost predicate Enumerates(order: seq<Tag>, tags: set<Tag>)
  {
    (forall t :: t in order <==> t in tags)
    && (forall i, j :: 0 <= i < j < |order| ==> order[i] != order[j])
  }

  /**
   * `toString`: the summary, then `"; Tags: "` and every tag in iteration order, the tag part
   * present exactly when the policy has tags.
   */
  function ToString(p: Policy, rd: Renderers, order: seq<Tag>): (r: string)
    requires Enumerates(order, p.tags)
    ensures |Summary(p, rd)| <= |r| && r[..|Summary(p, rd)|] == Summary(p, rd)
    ensures r == Summary(p, rd) <==> p.tags == {}
    ensures p.tags != {} ==> r[|Summary(p, rd)|..] == "; Tags: " + Concat(MapTags(order, rd.tag))
  {
    var base := Summary(p, rd);
    if p.tags == {} then base
    else base + "; Tags: " + Concat(MapTags(order, rd.tag))
  }
}
