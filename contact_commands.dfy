/**
 * The find and sort commands on contacts: each replaces one half of the contact view (its
 * predicate or its comparator) and reports on the result.
 */
module ContactCommands {
  import opened Wrappers
  import opened Sorting
  import opened Contacts
  import opened Policies
  import opened ModelManagers

  // -------------------------------------------------------------------- find

  /** `FindContactCommand`: the name predicate the contact view is to show. */
  datatype FindContactCommand = FindContactCommand(namePredicate: NameContainsKeywordsPredicate)

  /** The predicate as a filter, given its `test` (whether a contact's name matches the keywords). */
  function AsFilter(p: NameContainsKeywordsPredicate, test: (seq<string>, Contact) -> bool): Contact -> bool
  {
    c => test(p.keywords, c)
  }

  /**
   * `FindContactCommand.execute`: the contact view shows exactly the stored contacts that
   * match, and the message reports how many it shows (`listedOverview` is the formatting of
   * `MESSAGE_CONTACTS_LISTED_OVERVIEW`). The store, the comparators and the policy view stay.
   */
  method ExecuteFind(cmd: FindContactCommand, model: ModelManager, test: (seq<string>, Contact) -> bool,
                     listedOverview: nat -> string) returns (message: string)
    modifies model
    ensures model.personPredicate == AsFilter(cmd.namePredicate, test)
    ensures forall c :: c in model.PersonView() <==> c in model.siasa.persons && test(cmd.namePredicate.keywords, c)
    ensures message == listedOverview(|model.PersonView()|)
    ensures model.siasa == old(model.siasa) && model.userPrefs == old(model.userPrefs)
    ensures model.policyPredicate == old(model.policyPredicate)
    ensures model.personComparator == old(model.personComparator)
    ensures model.policyComparator == old(model.policyComparator)
    ensures model.PolicyView() == old(model.PolicyView())
  {
    model.UpdatePersonPredicate(AsFilter(cmd.namePredicate, test));
    message := listedOverview(|model.PersonView()|);
  }

  /** `FindContactCommand.equals`: the same command, or a find command with an equal predicate. */
  predicate FindEquals(a: FindContactCommand, other: Option<FindContactCommand>)
  {
    other == Some(a) || (other.Some? && other.value.namePredicate == a.namePredicate)
  }

  /**
   * Two find commands are equal exactly when their keyword lists are, and equal commands
   * install the same filter, so they have the same effect on any model.
   */
  lemma FindEqualsMeaning(a: FindContactCommand, b: FindContactCommand, test: (seq<string>, Contact) -> bool)
    ensures !FindEquals(a, None)
    ensures FindEquals(a, Some(b)) <==> a.namePredicate.keywords == b.namePredicate.keywords
    ensures FindEquals(a, Some(b)) ==> AsFilter(a.namePredicate, test) == AsFilter(b.namePredicate, test)
  {
  }

  // -------------------------------------------------------------------- sort

  const MESSAGE_SUCCESS := "Sorted contacts"
  const MESSAGE_NO_SUCH_COMPARATOR := "No such sorting order"
  const MESSAGE_NO_POLICIES := "There are no policies to sort."

  /** `SortContactCommand`: `None` is the command built without a comparator. */
  datatype SortContactCommand = SortContactCommand(comparator: Option<(Contact, Contact) -> int>)

  /**
   * `SortContactCommand.execute`. Without a comparator nothing changes and the message says
   * there is no such order. With one, the contact view takes it (and shows the same contacts,
   * now in its order), and the message says whether the policy view is empty.
   */
  method ExecuteSort(cmd: SortContactCommand, model: ModelManager) returns (message: string)
    modifies model
    ensures cmd.comparator.None? ==>
      && message == MESSAGE_NO_SUCH_COMPARATOR
      && model.personComparator == old(model.personComparator)
    ensures cmd.comparator.Some? ==>
      && model.personComparator == cmd.comparator.value
      && (message == MESSAGE_NO_POLICIES <==> model.PolicyView() == [])
      && (message == MESSAGE_SUCCESS <==> model.PolicyView() != [])
    ensures cmd.comparator.Some? && ValidComparator(cmd.comparator.value) ==>
      Sorted(model.PersonView(), cmd.comparator.value)
    ensures multiset(model.PersonView()) == multiset(old(model.PersonView()))
    ensures model.siasa == old(model.siasa) && model.userPrefs == old(model.userPrefs)
    ensures model.personPredicate == old(model.personPredicate)
    ensures model.policyPredicate == old(model.policyPredicate)
    ensures model.policyComparator == old(model.policyComparator)
  {
    if cmd.comparator.Some? {
      model.UpdatePersonComparator(cmd.comparator.value);
      if ValidComparator(cmd.comparator.value) {
        ViewSorted(model.siasa.persons, model.personPredicate, cmd.comparator.value);
      }
      if model.PolicyView() == [] {
        message := MESSAGE_NO_POLICIES;
      } else {
        message := MESSAGE_SUCCESS;
      }
    } else {
      message := MESSAGE_NO_SUCH_COMPARATOR;
    }
  }
}
