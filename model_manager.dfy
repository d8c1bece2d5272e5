/**
 * The in-memory model: the record store, the user preferences, and for each
 * kind of record a view that is the store's list filtered by a replaceable
 * predicate and then ordered by a replaceable comparator.
 */
module ModelManagers {
  import opened Wrappers
  import opened Sorting
  import opened Contacts
  import opened Policies
  import opened Store

  /** User preferences; the GUI settings are kept as an uninterpreted value. */
  datatype UserPrefs = UserPrefs(guiSettings: string, siasaFilePath: string)

  /** The predicates `PREDICATE_SHOW_ALL_PERSONS` and `PREDICATE_SHOW_ALL_POLICIES`. */
  function ShowAllPersons(c: Contact): bool { true }
  function ShowAllPolicies(p: Policy): bool { true }

  /**
   * A view of `base`: the elements that satisfy `pred`, in the order `cmp` gives them, or in
   * store order when there is no comparator.
   */
  function View<T(!new)>(base: seq<T>, pred: T -> bool, cmp: Option<(T, T) -> int>): (r: seq<T>)
    ensures multiset(r) == multiset(Filter(base, pred))
    ensures forall x :: x in r <==> x in base && pred(x)
  {
    FilterMembers(base, pred);
    var f := Filter(base, pred);
    var r := match cmp case None => f case Some(c) => SortBy(f, c);
    assert forall x :: x in r <==> x in f by {
      forall x ensures x in r <==> x in f {
        assert x in r <==> multiset(r)[x] > 0;
        assert x in f <==> multiset(f)[x] > 0;
      }
    }
    r
  }

  /** Without a comparator the view keeps the store order. */
  lemma ViewUnsorted<T(!new)>(base: seq<T>, pred: T -> bool)
    ensures View(base, pred, None) == Filter(base, pred)
  {
  }

  /**
   * With a valid comparator the view is in comparator order, elements that compare equal keep
   * their store order, and it is also what filtering the sorted store gives.
   */
  lemma ViewSorted<T(!new)>(base: seq<T>, pred: T -> bool, cmp: (T, T) -> int)
    requires ValidComparator(cmp)
    ensures Sorted(View(base, pred, Some(cmp)), cmp)
    ensures forall y :: Filter(View(base, pred, Some(cmp)), TiedWith(cmp, y))
                        == Filter(Filter(base, pred), TiedWith(cmp, y))
    ensures View(base, pred, Some(cmp)) == Filter(SortBy(base, cmp), pred)
  {
    var f := Filter(base, pred);
    SortSorted(f, cmp);
    forall y ensures Filter(SortBy(f, cmp), TiedWith(cmp, y)) == Filter(f, TiedWith(cmp, y)) {
      SortStable(f, cmp, y);
    }
    FilterSortCommute(base, cmp, pred);
  }

  class ModelManager {
    var siasa: Siasa
    var userPrefs: UserPrefs
    var personPredicate: Contact -> bool
    var policyPredicate: Policy -> bool
    var personComparator: (Contact, Contact) -> int
    var policyComparator: Option<(Policy, Policy) -> int>

    /** The store holds no duplicates. */
    ghost predicate Valid()
      reads this
    {
      Store.Valid(siasa)
    }

    /** `getFilteredPersonList`: the contact view. */
    function PersonView(): (r: seq<Contact>)
      reads this
      ensures forall x :: x in r <==> x in siasa.persons && personPredicate(x)
    {
      View(siasa.persons, personPredicate, Some(personComparator))
    }

    /** `getFilteredPolicyList`: the policy view. */
    function PolicyView(): (r: seq<Policy>)
      reads this
      ensures forall x :: x in r <==> x in siasa.policies && policyPredicate(x)
    {
      View(siasa.policies, policyPredicate, policyComparator)
    }

    /**
     * A new model holds a copy of the given store and preferences, shows every record, orders
     * contacts by name and leaves policies in store order.
     */
    constructor (s: Siasa, prefs: UserPrefs)
      requires Store.Valid(s)
      ensures siasa == s && userPrefs == prefs
      ensures personPredicate == ShowAllPersons && policyPredicate == ShowAllPolicies
      ensures personComparator == ByName && policyComparator == None
      ensures Valid()
    {
      siasa := s;
      userPrefs := prefs;
      personPredicate := ShowAllPersons;
      policyPredicate := ShowAllPolicies;
      personComparator := ByName;
      policyComparator := None;
    }

    /** `setSiasa`: replaces the store's data. */
    method SetSiasa(s: Siasa)
      requires Store.Valid(s)
      modifies this
      ensures siasa == s && userPrefs == old(userPrefs)
      ensures personPredicate == old(personPredicate) && policyPredicate == old(policyPredicate)
      ensures personComparator == old(personComparator) && policyComparator == old(policyComparator)
      ensures Valid()
    {
      siasa := s;
    }

    // ------------------------------------------------------------- lookups

    method HasPerson(p: Contact) returns (b: bool)
      ensures b <==> exists k :: 0 <= k < |siasa.persons| && SameContact(siasa.persons[k], p)
    {
      HasPersonMeaning(siasa, p);
      b := Store.HasPerson(siasa, p);
    }

    method GetSimilarPerson(p: Contact) returns (r: Option<Contact>)
      ensures r.Some? <==> Store.HasPerson(siasa, p)
      ensures r.Some? ==> r.value in siasa.persons && SameContact(r.value, p)
    {
      r := Store.GetSimilarPerson(siasa, p);
    }

    method HasPolicy(p: Policy) returns (b: bool)
      ensures b <==> exists k :: 0 <= k < |siasa.policies| && IsSamePolicy(siasa.policies[k], Some(p))
    {
      HasPolicyMeaning(siasa, p);
      b := Store.HasPolicy(siasa, p);
    }

    method GetSimilarPolicy(p: Policy) returns (r: Option<Policy>)
      ensures r.Some? <==> Store.HasPolicy(siasa, p)
      ensures r.Some? ==> r.value in siasa.policies && IsSamePolicy(r.value, Some(p))
    {
      r := Store.GetSimilarPolicy(siasa, p);
    }

    // ----------------------------------------------------------- contacts

    /** Removes a contact and, in the same store call, every policy it owns. */
    method DeletePerson(target: Contact)
      requires Valid() && target in siasa.persons
      modifies this
      ensures siasa == RemovePersonAndAssociatedPolicies(old(siasa), target)
      ensures userPrefs == old(userPrefs)
      ensures personPredicate == old(personPredicate) && policyPredicate == old(policyPredicate)
      ensures personComparator == old(personComparator) && policyComparator == old(policyComparator)
      ensures Valid()
    {
      RemovePersonValid(siasa, target);
      siasa := RemovePersonAndAssociatedPolicies(siasa, target);
    }

    /** Adds a contact and shows every record again, so the new contact is in the view. */
    method AddPerson(p: Contact)
      requires Valid() && !Store.HasPerson(siasa, p)
      modifies this
      ensures siasa == Store.AddPerson(old(siasa), p)
      ensures userPrefs == old(userPrefs)
      ensures personPredicate == ShowAllPersons && policyPredicate == ShowAllPolicies
      ensures personComparator == old(personComparator) && policyComparator == old(policyComparator)
      ensures p in PersonView()
      ensures Valid()
    {
      AddPersonValid(siasa, p);
      siasa := Store.AddPerson(siasa, p);
      RemoveAllFilters();
    }

    method SetPerson(target: Contact, edited: Contact)
      requires Valid() && target in siasa.persons
      requires SameContact(target, edited) || !Store.HasPerson(siasa, edited)
      modifies this
      ensures siasa == Store.SetPerson(old(siasa), target, edited)
      ensures userPrefs == old(userPrefs)
      ensures personPredicate == old(personPredicate) && policyPredicate == old(policyPredicate)
      ensures personComparator == old(personComparator) && policyComparator == old(policyComparator)
      ensures Valid()
    {
      SetPersonValid(siasa, target, edited);
      siasa := Store.SetPerson(siasa, target, edited);
    }

    // ----------------------------------------------------------- policies

    method DeletePolicy(target: Policy)
      requires Valid() && target in siasa.policies
      modifies this
      ensures siasa == RemovePolicy(old(siasa), target)
      ensures userPrefs == old(userPrefs)
      ensures personPredicate == old(personPredicate) && policyPredicate == old(policyPredicate)
      ensures personComparator == old(personComparator) && policyComparator == old(policyComparator)
      ensures Valid()
    {
      RemovePolicyValid(siasa, target);
      siasa := RemovePolicy(siasa, target);
    }

    /** Adds a policy and shows every record again, so the new policy is in the view. */
    method AddPolicy(p: Policy)
      requires Valid() && !Store.HasPolicy(siasa, p)
      modifies this
      ensures siasa == Store.AddPolicy(old(siasa), p)
      ensures userPrefs == old(userPrefs)
      ensures personPredicate == ShowAllPersons && policyPredicate == ShowAllPolicies
      ensures personComparator == old(personComparator) && policyComparator == old(policyComparator)
      ensures p in PolicyView()
      ensures Valid()
    {
      AddPolicyValid(siasa, p);
      siasa := Store.AddPolicy(siasa, p);
      RemoveAllFilters();
    }

    method SetPolicy(target: Policy, edited: Policy)
      requires Valid() && target in siasa.policies
      requires IsSamePolicy(target, Some(edited)) || !Store.HasPolicy(siasa, edited)
      modifies this
      ensures siasa == Store.SetPolicy(old(siasa), target, edited)
      ensures userPrefs == old(userPrefs)
      ensures personPredicate == old(personPredicate) && policyPredicate == old(policyPredicate)
      ensures personComparator == old(personComparator) && policyComparator == old(policyComparator)
      ensures Valid()
    {
      SetPolicyValid(siasa, target, edited);
      siasa := Store.SetPolicy(siasa, target, edited);
    }

    method RemovePoliciesBelongingTo(target: Contact)
      requires Valid()
      modifies this
      ensures siasa == Store.RemovePoliciesBelongingTo(old(siasa), target)
      ensures userPrefs == old(userPrefs)
      ensures personPredicate == old(personPredicate) && policyPredicate == old(policyPredicate)
      ensures personComparator == old(personComparator) && policyComparator == old(policyComparator)
      ensures Valid()
    {
      RemovePoliciesBelongingToValid(siasa, target);
      siasa := Store.RemovePoliciesBelongingTo(siasa, target);
    }

    // --------------------------------------------------------------- views

    /** `updateFilteredPersonList(Predicate)`: replaces the predicate and keeps the comparator. */
    method UpdatePersonPredicate(pred: Contact -> bool)
      modifies this
      ensures personPredicate == pred
      ensures siasa == old(siasa) && userPrefs == old(userPrefs) && policyPredicate == old(policyPredicate)
      ensures personComparator == old(personComparator) && policyComparator == old(policyComparator)
    {
      personPredicate := pred;
    }

    /** `updateFilteredPersonList(Comparator)`: replaces the comparator and keeps the predicate. */
    method UpdatePersonComparator(cmp: (Contact, Contact) -> int)
      modifies this
      ensures personComparator == cmp
      ensures siasa == old(siasa) && userPrefs == old(userPrefs)
      ensures personPredicate == old(personPredicate) && policyPredicate == old(policyPredicate)
      ensures policyComparator == old(policyComparator)
    {
      personComparator := cmp;
    }

    /** `updateFilteredPolicyList(Predicate)`: replaces the predicate and keeps the comparator. */
    method UpdatePolicyPredicate(pred: Policy -> bool)
      modifies this
      ensures policyPredicate == pred
      ensures siasa == old(siasa) && userPrefs == old(userPrefs) && personPredicate == old(personPredicate)
      ensures personComparator == old(personComparator) && policyComparator == old(policyComparator)
    {
      policyPredicate := pred;
    }

    /** `updateFilteredPolicyList(Comparator)`: replaces the comparator and keeps the predicate. */
    method UpdatePolicyComparator(cmp: (Policy, Policy) -> int)
      modifies this
      ensures policyComparator == Some(cmp)
      ensures siasa == old(siasa) && userPrefs == old(userPrefs)
      ensures personPredicate == old(personPredicate) && policyPredicate == old(policyPredicate)
      ensures personComparator == old(personComparator)
    {
      policyComparator := Some(cmp);
    }

    /** Shows every contact and every policy; comparators stay. */
    method RemoveAllFilters()
      modifies this
      ensures personPredicate == ShowAllPersons && policyPredicate == ShowAllPolicies
      ensures siasa == old(siasa) && userPrefs == old(userPrefs)
      ensures personComparator == old(personComparator) && policyComparator == old(policyComparator)
    {
      UpdatePersonPredicate(ShowAllPersons);
      UpdatePolicyPredicate(ShowAllPolicies);
    }

    /** The contacts the predicate keeps, in store order, before sorting. */
    function FilteredPersons(): seq<Contact>
      reads this
    {
      Filter(siasa.persons, personPredicate)
    }

    /** The policies the predicate keeps, in store order, before sorting. */
    function FilteredPolicies(): seq<Policy>
      reads this
    {
      Filter(siasa.policies, policyPredicate)
    }

    /**
     * What `equals` compares: the stores, the preferences and the filtered lists. Contact lists are
     * compared element by element with the contacts' structural equality, policy lists with
     * `Policy.equals`, which matches owners by name only.
     */
    predicate Matches(other: ModelManager)
      reads this, other
    {
      && siasa.persons == other.siasa.persons
      && SamePolicies(siasa.policies, other.siasa.policies)
      && userPrefs == other.userPrefs
      && FilteredPersons() == other.FilteredPersons()
      && SamePolicies(FilteredPolicies(), other.FilteredPolicies())
    }

    /** `equals`: the same object, or a model with matching store, preferences and filtered lists. */
    method Equals(other: ModelManager?) returns (b: bool)
      ensures b <==> other == this || (other != null && Matches(other))
    {
      if other == this {
        return true;
      }
      if other == null {
        return false;
      }
      b := Matches(other);
    }
  }

  /** Models that differ only in their comparators are equal, and then show the same records. */
  lemma EqualsIgnoresComparators(m: ModelManager, n: ModelManager)
    requires m.siasa == n.siasa && m.userPrefs == n.userPrefs
    requires m.personPredicate == n.personPredicate && m.policyPredicate == n.policyPredicate
    ensures m.Matches(n)
    ensures multiset(m.PersonView()) == multiset(n.PersonView())
    ensures multiset(m.PolicyView()) == multiset(n.PolicyView())
  {
    SamePoliciesEquivalence(m.siasa.policies, n.siasa.policies, n.siasa.policies);
    SamePoliciesEquivalence(m.FilteredPolicies(), n.FilteredPolicies(), n.FilteredPolicies());
  }

  /**
   * Equal models show the same contacts, possibly in different orders, and as many policies;
   * while neither orders its policies, their policy views are equal element by element.
   */
  lemma EqualModelsShowSameRecords(m: ModelManager, n: ModelManager)
    requires m.Matches(n)
    ensures multiset(m.PersonView()) == multiset(n.PersonView())
    ensures |m.PolicyView()| == |n.PolicyView()|
    ensures m.policyComparator.None? && n.policyComparator.None? ==> SamePolicies(m.PolicyView(), n.PolicyView())
  {
    var mp, np := m.PolicyView(), n.PolicyView();
    assert |multiset(mp)| == |multiset(m.FilteredPolicies())|;
    assert |multiset(np)| == |multiset(n.FilteredPolicies())|;
    if m.policyComparator.None? && n.policyComparator.None? {
      ViewUnsorted(m.siasa.policies, m.policyPredicate);
      ViewUnsorted(n.siasa.policies, n.policyPredicate);
    }
  }
}
