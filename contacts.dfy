/**
 * Contacts (the clients of the insurance agent) as values, the weak identity
 * `isSamePerson` and the alphabetical ordering the contact view starts with.
 */
module Contacts {
  import opened Sorting

  type Tag = string

  datatype Contact = Contact(name: string, phone: string, email: string, address: string, tags: set<Tag>)

  /**
   * `NameContainsKeywordsPredicate`: its keyword list. Two such predicates are equal when their
   * lists are; which names a list matches is decided by the predicate's `test`, not modelled here.
   */
  datatype NameContainsKeywordsPredicate = NameContainsKeywordsPredicate(keywords: seq<string>)

  /** `isSamePerson`: two contacts are the same person when their names agree. */
  predicate SameContact(a: Contact, b: Contact)
  {
    a.name == b.name
  }

  /**
   * Java's `String.compareTo`: the difference of the first differing characters,
   * or else the difference of the lengths.
   */
  function CompareText(a: string, b: string): (r: int)
    ensures r == 0 <==> a == b
  {
    if a == [] || b == [] then |a| - |b|
    else if a[0] != b[0] then a[0] as int - b[0] as int
    else
      assert a == [a[0]] + a[1..] && b == [b[0]] + b[1..];
      CompareText(a[1..], b[1..])
  }

  lemma {:induction false} CompareTextFlips(a: string, b: string)
    ensures Sign(CompareText(a, b)) == -Sign(CompareText(b, a))
    decreases |a|
  {
    if a != [] && b != [] && a[0] == b[0] {
      CompareTextFlips(a[1..], b[1..]);
    }
  }

  lemma {:induction false} CompareTextChains(a: string, b: string, c: string)
    requires CompareText(a, b) <= 0 && CompareText(b, c) <= 0
    ensures CompareText(a, c) <= 0
    decreases |a|
  {
    if a != [] && b != [] && c != [] && a[0] == b[0] && b[0] == c[0] {
      CompareTextChains(a[1..], b[1..], c[1..]);
    }
  }

  /** The comparator `SORT_BY_ALPHA_ASC`: ascending by name. */
  function ByName(a: Contact, b: Contact): int
  {
    CompareText(a.name, b.name)
  }

  /** Ordering contacts by name is a valid comparator: antisymmetric in sign and transitive. */
  lemma ByNameValid()
    ensures ValidComparator(ByName)
  {
    forall a: Contact, b: Contact
      ensures FlipsAt(ByName, a, b)
    {
      CompareTextFlips(a.name, b.name);
    }
    forall a: Contact, b: Contact, c: Contact
      ensures ChainsAt(ByName, a, b, c)
    {
      if NotAbove(ByName, a, b) && NotAbove(ByName, b, c) {
        CompareTextChains(a.name, b.name, c.name);
      }
    }
  }

  /** Contacts tied under `ByName` are exactly the ones with the same name. */
  lemma ByNameTies(a: Contact, b: Contact)
    ensures ByName(a, b) == 0 <==> SameContact(a, b)
  {
  }
}
