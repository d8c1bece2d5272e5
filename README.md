# SIASA, modelled in Dafny

SIASA is a desktop assistant for insurance agents. It keeps a store of contacts (clients) and of the
insurance policies each contact owns. The model covers the parts of it that hold the logic:

- **The model manager** (`ModelManagers`, over the store in `Store`). It owns the store, and it shows
  the contacts and the policies through filtered, optionally sorted views. Every add, edit and
  delete operation passes through it. Deleting a contact also deletes that contact's policies.
- **Policies** (`Policies`). A policy has a title, a price in cents, an expiry date, a commission
  percentage, an owner and tags. Its weak identity (`isSamePolicy`) compares the title and the
  owner's name. Its full equality goes with a 32-bit `Objects.hash`. The module also covers the
  policy's one-line summary.
- **The download report** (`Download`). The report ranks the contacts by the commission their
  policies earn, largest first. It formats amounts in cents as dollar text, and each line of the
  report goes where the layout puts it.
- **The storage form of a policy** (`JsonPolicy`). Reading a policy back makes an ordered chain of
  checks, and the first failing check gives the error message. The module proves a round trip
  through this form.
- **Parsers and contact commands** (`Parsing`, `FindParser`, `AddContactParser`,
  `EditContactParser`, `ContactCommands`). These are the `find`, `add` and `edit` argument parsers,
  and the filtering and sorting commands over the contact view.
- **The user guide window** (`Guide`). It is a nine-page state machine driven by next and back
  buttons.

Shared definitions live in a few modules:

- `Sorting` holds stable insertion sorting, filtering and comparator laws.
- `Text` holds Java's `trim`, splitting on whitespace, decimal text and Java's integer division.
- `Contacts` holds the contact record and its alphabetical order.
- `Wrappers` holds `Option` and `Result`.

The model stands in for code it cannot see with parameters:

- The field types' own hash, string and JSON conversions are parameters (records of functions).
  So are the token parsers (`ParserUtil`), the keyword predicate's test and the report's renderer.
- The current date, the text of the average, the total commission and the write outcome are
  inputs. The per-contact policy counts are an input too, in the order the hash map iterates.

Two behaviours of the code are worth spelling out:

- `JsonAdaptedPolicy` has no tag field, so a policy read back from storage has no tags. It equals
  the original exactly when the original had none (`JsonPolicy.RoundTrip`). The storage test's
  round trip of a builder-made policy agrees with this, since `PolicyBuilder` builds no tags. The
  same test also calls a constructor with a tags argument, which this adapter does not have; that
  call belongs to another revision of the adapter.
- `centsToDollars` applies Java's truncating `%` and `/` to negative amounts as well, so it writes
  -105 cents as `$-1.0-5` (`Download.CentsToDollarsNegative`).

## Model

Source paths are relative to the repository root.

| member | source | states |
|---|---|---|
| Sorting.Filter | src/main/java/seedu/siasa/model/ModelManager.java:48-49 | the filtered list keeps exactly the elements satisfying the predicate, in order (with `FilterMembers`, `FilterMultiset`) |
| Sorting.SortBy | src/main/java/seedu/siasa/model/ModelManager.java:50-51 | the sorted list is a permutation of its input |
| Sorting.SortSorted | src/main/java/seedu/siasa/model/ModelManager.java:50-51 | with a valid comparator the sorted list is in comparator order |
| Sorting.SortStable | src/main/java/seedu/siasa/logic/commands/DownloadCommand.java:40-55 | the sort is stable: the elements comparing equal to any `y` keep their relative order |
| Sorting.FilterSortCommute | src/main/java/seedu/siasa/model/ModelManager.java:50-51 | filtering then sorting gives the same list as sorting then filtering |
| Sorting.InsertSorted | src/main/java/seedu/siasa/model/ModelManager.java:50-51 | inserting into a sorted list keeps it sorted |
| Contacts.CompareText | src/main/java/seedu/siasa/model/ModelManager.java:47 | `String.compareTo` on names is zero exactly on equal names (with `ByNameValid`: a valid comparator) |
| Contacts.ByNameValid | src/main/java/seedu/siasa/model/ModelManager.java:47 | the initial alphabetical contact order is antisymmetric and transitive |
| Contacts.ByNameTies | src/main/java/seedu/siasa/model/ModelManager.java:47 | two contacts tie in alphabetical order exactly when their names are equal |
| ModelManagers.View | src/main/java/seedu/siasa/model/ModelManager.java:48-52 | a view holds, with multiplicity, exactly the stored records satisfying the predicate |
| ModelManagers.ViewUnsorted | src/main/java/seedu/siasa/model/ModelManager.java:52 | a view without a comparator (the policy view at first) keeps store order |
| ModelManagers.ViewSorted | src/main/java/seedu/siasa/model/ModelManager.java:50-51 | a view with a valid comparator is in its order, stable, and equals the filter of the sorted store |
| ModelManagers.ModelManager.PersonView | src/main/java/seedu/siasa/model/ModelManager.java:181-184 | the contact view lists exactly the stored contacts satisfying the current predicate |
| ModelManagers.ModelManager.PolicyView | src/main/java/seedu/siasa/model/ModelManager.java:207-210 | the policy view lists exactly the stored policies satisfying the current predicate |
| ModelManagers.ModelManager.constructor | src/main/java/seedu/siasa/model/ModelManager.java:39-53 | a new model copies store and preferences, shows everything, sorts contacts by name and leaves policies unsorted |
| ModelManagers.ModelManager.SetSiasa | src/main/java/seedu/siasa/model/ModelManager.java:96-99 | replaces the store and nothing else |
| ModelManagers.ModelManager.HasPerson | src/main/java/seedu/siasa/model/ModelManager.java:108-112 | true exactly when some stored contact is the same person; changes nothing |
| ModelManagers.ModelManager.GetSimilarPerson | src/main/java/seedu/siasa/model/ModelManager.java:114-118 | a stored contact that is the same person, present exactly when there is one; changes nothing |
| ModelManagers.ModelManager.HasPolicy | src/main/java/seedu/siasa/model/ModelManager.java:140-144 | true exactly when some stored policy is the same policy; changes nothing |
| ModelManagers.ModelManager.GetSimilarPolicy | src/main/java/seedu/siasa/model/ModelManager.java:146-150 | a stored policy that is the same policy, present exactly when there is one; changes nothing |
| ModelManagers.ModelManager.DeletePerson | src/main/java/seedu/siasa/model/ModelManager.java:120-123 | removes the contact and its policies in one store call; filters and comparators stay; the store stays free of duplicates |
| ModelManagers.ModelManager.AddPerson | src/main/java/seedu/siasa/model/ModelManager.java:125-129 | appends the contact, resets both predicates to show-all and the new contact is in the view |
| ModelManagers.ModelManager.SetPerson | src/main/java/seedu/siasa/model/ModelManager.java:131-136 | replaces the contact in place; filters and comparators stay; no duplicates |
| ModelManagers.ModelManager.DeletePolicy | src/main/java/seedu/siasa/model/ModelManager.java:152-155 | removes the policy; filters and comparators stay |
| ModelManagers.ModelManager.AddPolicy | src/main/java/seedu/siasa/model/ModelManager.java:157-161 | appends the policy, resets both predicates and the new policy is in the view |
| ModelManagers.ModelManager.SetPolicy | src/main/java/seedu/siasa/model/ModelManager.java:163-168 | replaces the policy in place; filters and comparators stay; no duplicates |
| ModelManagers.ModelManager.RemovePoliciesBelongingTo | src/main/java/seedu/siasa/model/ModelManager.java:170-173 | drops the contact's policies and keeps the contacts; filters and comparators stay |
| ModelManagers.ModelManager.UpdatePersonPredicate | src/main/java/seedu/siasa/model/ModelManager.java:186-192 | replaces the contact predicate, keeps the comparator and everything else |
| ModelManagers.ModelManager.UpdatePersonComparator | src/main/java/seedu/siasa/model/ModelManager.java:194-199 | replaces the contact comparator, keeps the predicate and everything else |
| ModelManagers.ModelManager.UpdatePolicyPredicate | src/main/java/seedu/siasa/model/ModelManager.java:212-218 | replaces the policy predicate, keeps the comparator and everything else |
| ModelManagers.ModelManager.UpdatePolicyComparator | src/main/java/seedu/siasa/model/ModelManager.java:220-225 | replaces the policy comparator, keeps the predicate and everything else |
| ModelManagers.ModelManager.RemoveAllFilters | src/main/java/seedu/siasa/model/ModelManager.java:230-233 | both predicates become show-all; comparators and store stay |
| ModelManagers.ModelManager.Equals | src/main/java/seedu/siasa/model/ModelManager.java:235-253 | true exactly for the same model, or one with the same contacts, equal preferences and the same filtered contacts, whose stored and filtered policy lists are equal element by element under `Policy.equals` |
| ModelManagers.EqualsIgnoresComparators | src/main/java/seedu/siasa/model/ModelManager.java:249-252 | models differing only in comparators are equal and show the same records |
| ModelManagers.EqualModelsShowSameRecords | src/main/java/seedu/siasa/model/ModelManager.java:249-252 | equal models show the same contacts, possibly in different orders, and as many policies; without policy comparators their policy views are equal element by element |
| Store.GetSimilarPerson | src/main/java/seedu/siasa/model/ModelManager.java:117 | the stored same-person contact, present exactly when `hasPerson` holds |
| Store.GetSimilarPolicy | src/main/java/seedu/siasa/model/ModelManager.java:149 | the stored same policy, present exactly when `hasPolicy` holds |
| Store.HasPersonMeaning | src/main/java/seedu/siasa/model/ModelManager.java:111 | `hasPerson` holds exactly when some stored contact is the same person |
| Store.HasPolicyMeaning | src/main/java/seedu/siasa/model/ModelManager.java:143 | `hasPolicy` holds exactly when some stored policy is the same policy |
| Store.AddPerson | src/main/java/seedu/siasa/model/ModelManager.java:127 | appends the contact and leaves the policies |
| Store.SetPerson | src/main/java/seedu/siasa/model/ModelManager.java:135 | replaces the first occurrence of the target and leaves the policies |
| Store.RemovePersonAndAssociatedPolicies | src/main/java/seedu/siasa/model/ModelManager.java:122 | removes the contact once and keeps exactly the policies of other people |
| Store.CascadeMeaning | src/main/java/seedu/siasa/model/ModelManager.java:122 | after the cascade no remaining policy belongs to the removed person, and every other policy remains |
| Store.RemovePoliciesBelongingTo | src/main/java/seedu/siasa/model/ModelManager.java:172 | keeps the contacts and exactly the policies of other people |
| Store.AddPolicy | src/main/java/seedu/siasa/model/ModelManager.java:159 | appends the policy and leaves the contacts |
| Store.SetPolicy | src/main/java/seedu/siasa/model/ModelManager.java:167 | replaces the first occurrence of the target and leaves the contacts |
| Store.RemovePolicy | src/main/java/seedu/siasa/model/ModelManager.java:154 | removes the first occurrence of the policy and leaves the contacts |
| Store.SamePolicyMeaning | src/main/java/seedu/siasa/model/policy/Policy.java:73-82 | two distinct policies are the same policy exactly when titles match and owners are the same person |
| Store.AddPersonValid | src/main/java/seedu/siasa/model/ModelManager.java:127 | adding a new person keeps the store free of duplicates |
| Store.SetPersonValid | src/main/java/seedu/siasa/model/ModelManager.java:135 | replacing a person by one that is not another stored person keeps the store free of duplicates |
| Store.RemovePersonValid | src/main/java/seedu/siasa/model/ModelManager.java:122 | the cascading removal keeps the store free of duplicates |
| Store.RemovePoliciesBelongingToValid | src/main/java/seedu/siasa/model/ModelManager.java:172 | removing a person's policies keeps the store free of duplicates |
| Store.AddPolicyValid | src/main/java/seedu/siasa/model/ModelManager.java:159 | adding a new policy keeps the store free of duplicates |
| Store.SetPolicyValid | src/main/java/seedu/siasa/model/ModelManager.java:167 | replacing a policy by one that is not another stored policy keeps the store free of duplicates |
| Store.RemovePolicyValid | src/main/java/seedu/siasa/model/ModelManager.java:154 | removing a policy keeps the store free of duplicates |
| Policies.IsSamePolicyReflexive | src/main/java/seedu/siasa/model/policy/Policy.java:73-76 | every policy is the same policy as itself |
| Policies.IsSamePolicyMeaning | src/main/java/seedu/siasa/model/policy/Policy.java:73-82 | null is never the same policy; otherwise sameness is equal titles and same-person owners |
| Policies.IsSamePolicySymmetric | src/main/java/seedu/siasa/model/policy/Policy.java:79-81 | sameness of policies is symmetric |
| Policies.EqualsImpliesSame | src/main/java/seedu/siasa/model/policy/Policy.java:84-102 | equal policies are the same policy |
| Policies.EqualsEquivalence | src/main/java/seedu/siasa/model/policy/Policy.java:84-102 | `equals` is reflexive, symmetric and transitive |
| Policies.EqualsIgnoresOwnerDetails | src/main/java/seedu/siasa/model/policy/Policy.java:100 | owners are compared as the same person, so other owner details do not matter |
| Policies.SamePoliciesEquivalence | src/main/java/seedu/siasa/model/ModelManager.java:249-252 | `List.equals` over `Policy.equals` is reflexive, symmetric and transitive |
| Policies.SamePoliciesIgnoresOwnerDetails | src/main/java/seedu/siasa/model/policy/Policy.java:100 | a policy list still compares equal when one policy's owner is replaced by a contact with the same name |
| Policies.ObjectsHash | src/main/java/seedu/siasa/model/policy/Policy.java:107 | `Objects.hash` is a 32-bit value |
| Policies.HashFoldIsPoly | src/main/java/seedu/siasa/model/policy/Policy.java:107 | folding with 32-bit wrap-around at every step equals wrapping the exact polynomial once |
| Policies.HashCode | src/main/java/seedu/siasa/model/policy/Policy.java:104-108 | the hash is a 32-bit value computed from title, price, commission, expiry date and tags only |
| Policies.HashCodeConsistent | src/main/java/seedu/siasa/model/policy/Policy.java:104-108 | equal policies have equal hash codes |
| Policies.HashCodeFormula | src/main/java/seedu/siasa/model/policy/Policy.java:107 | the hash is `31^5 + 31^4 h1 + ... + h5` reduced to 32 bits |
| Policies.ToString | src/main/java/seedu/siasa/model/policy/Policy.java:110-127 | the summary line, followed by `"; Tags: "` and the tags exactly when there are tags |
| Download.GetCommissionFromPolicyList | src/main/java/seedu/siasa/logic/commands/DownloadCommand.java:68-75 | the loop computes the sum of percentage times price over the list, divided by 100 and truncated once |
| Download.CommissionOfEmpty | src/main/java/seedu/siasa/logic/commands/DownloadCommand.java:68-75 | an empty list earns nothing |
| Download.RawCommissionAppend | src/main/java/seedu/siasa/logic/commands/DownloadCommand.java:70-73 | the sum over two lists is the sum of their sums |
| Download.CommissionPermutation | src/main/java/seedu/siasa/logic/commands/DownloadCommand.java:70-74 | the commission does not depend on the order of the policies |
| Download.CommissionNonNegative | src/main/java/seedu/siasa/logic/commands/DownloadCommand.java:68-75 | non-negative percentages and prices give a non-negative commission |
| Download.TruncatedOnceOnTheTotal | src/main/java/seedu/siasa/logic/commands/DownloadCommand.java:69-74 | two half-cent policies earn one cent together though each alone earns none |
| Download.DescendingValid | src/main/java/seedu/siasa/logic/commands/DownloadCommand.java:53 | ordering by commission, largest first, is a valid comparator |
| Download.CompareByCommission | src/main/java/seedu/siasa/logic/commands/DownloadCommand.java:42-54 | answers B's commission minus A's and leaves the policy view showing every policy |
| Download.InsertionPoint | src/main/java/seedu/siasa/logic/commands/DownloadCommand.java:40-55 | finds the first ranked contact that the new one precedes; the policy view shows every policy once the ranked list is non-empty |
| Download.InsertRanked | src/main/java/seedu/siasa/logic/commands/DownloadCommand.java:40-55 | inserts the contact where the comparator says, as `Insert` does |
| Download.SortByCommission | src/main/java/seedu/siasa/logic/commands/DownloadCommand.java:37-55 | sorting the copy gives `SortBy` of it by commission; the policy predicate is show-all when at least two contacts are ranked |
| Download.RankByCommission | src/main/java/seedu/siasa/logic/commands/DownloadCommand.java:37-55 | the ranking is `SortBy` of the contact view by commission, largest first; nothing else changes |
| Download.RankingMeaning | src/main/java/seedu/siasa/logic/commands/DownloadCommand.java:37-55 | the ranking is a permutation of the view, ordered by commission descending, ties in view order |
| Download.RankingTies | src/main/java/seedu/siasa/logic/commands/DownloadCommand.java:53 | two contacts tie exactly when they earn the same commission |
| Download.TwoDigits | src/main/java/seedu/siasa/logic/commands/DownloadCommand.java:121-126 | a remainder below 100 is written as exactly two digits that read back as it |
| Download.CentsToDollarsShape | src/main/java/seedu/siasa/logic/commands/DownloadCommand.java:117-129 | for a non-negative amount: `$`, the quotient by 100, a point and the two-digit remainder |
| Download.CentsToDollarsRoundTrip | src/main/java/seedu/siasa/logic/commands/DownloadCommand.java:117-129 | for a non-negative amount the cents text has two digits and reading the text back gives the amount |
| Download.CentsToDollarsSmall | src/main/java/seedu/siasa/logic/commands/DownloadCommand.java:122-123 | 5 cents is `$0.05` |
| Download.CentsToDollarsWhole | src/main/java/seedu/siasa/logic/commands/DownloadCommand.java:122-123 | 100 cents is `$1.00` |
| Download.CentsToDollarsExample | src/main/java/seedu/siasa/logic/commands/DownloadCommand.java:124-125 | 1234 cents is `$12.34` |
| Download.CentsToDollarsNegative | src/main/java/seedu/siasa/logic/commands/DownloadCommand.java:118-128 | a negative amount keeps the sign in both parts: -105 cents is `$-1.0-5` |
| Download.Rendered | src/main/java/seedu/siasa/logic/commands/DownloadCommand.java:89-97 | one line per item in order: a rendered line per ranked contact, a `name: N policies` line per count entry |
| Download.ReportLayout | src/main/java/seedu/siasa/logic/commands/DownloadCommand.java:84-105 | the report has 7 + contacts + entries lines and each line is where the layout puts it |
| Download.StringListBuilderForTxt | src/main/java/seedu/siasa/logic/commands/DownloadCommand.java:84-105 | the two loops build exactly the report |
| Download.Execute | src/main/java/seedu/siasa/logic/commands/DownloadCommand.java:29-66 | the report written is that of the ranked view; the result is the write error or the success message; the policy predicate is show-all when at least two contacts are ranked |
| JsonPolicy.FromPolicy | src/main/java/seedu/siasa/storage/JsonAdaptedPolicy.java:51-57 | the stored form has every field, the policy's title and its owner |
| JsonPolicy.ToModelType | src/main/java/seedu/siasa/storage/JsonAdaptedPolicy.java:68-114 | on success: the owner is the argument, the title is the stored one, no tags, and price and commission are the converted fields, the commission converted with the price |
| JsonPolicy.FirstFailureMeaning | src/main/java/seedu/siasa/storage/JsonAdaptedPolicy.java:68-113 | the first failing check is found in order, with no failing check before it, and none is found exactly when none fails |
| JsonPolicy.ToModelTypeChecksInOrder | src/main/java/seedu/siasa/storage/JsonAdaptedPolicy.java:68-113 | the conversion fails with the message of the first failing check, and succeeds exactly when no check fails |
| JsonPolicy.RoundTrip | src/test/java/seedu/siasa/storage/JsonAdaptedPolicyTest.java:38-41 | storing a valid policy and reading it back with its owner gives the policy without tags, equal to it exactly when it had none |
| JsonPolicy.OwnerIsTheArgument | src/main/java/seedu/siasa/storage/JsonAdaptedPolicy.java:109-113 | the owner of the result is the argument, whatever owner was stored |
| Text.TrimSpec | src/main/java/seedu/siasa/logic/parser/FindCommandParser.java:22 | `trim` keeps the slice between the trimmable ends and is empty exactly when every character is trimmable |
| Text.TrimAround | src/main/java/seedu/siasa/logic/parser/FindCommandParser.java:22 | trimming strips exactly the surrounding trimmable characters |
| Text.Words | src/main/java/seedu/siasa/logic/parser/FindCommandParser.java:28 | every piece of the split is a non-empty run without whitespace |
| Text.WordsOfLayout | src/main/java/seedu/siasa/logic/parser/FindCommandParser.java:28 | words laid out between whitespace separators split back into the same words |
| Text.WordsLayout | src/main/java/seedu/siasa/logic/parser/FindCommandParser.java:28 | every string is its words laid out between whitespace separators |
| Text.NatToStringValue | src/main/java/seedu/siasa/logic/commands/DownloadCommand.java:128 | the decimal text of a natural number reads back as it |
| Text.IntToString | src/main/java/seedu/siasa/logic/commands/DownloadCommand.java:128 | the decimal text of an integer, with a minus sign exactly for negatives |
| Text.JavaDiv | src/main/java/seedu/siasa/logic/commands/DownloadCommand.java:119 | Java division truncates toward zero |
| Text.JavaRem | src/main/java/seedu/siasa/logic/commands/DownloadCommand.java:118 | the Java remainder has the sign of the dividend and is below the divisor in size |
| Text.JavaMatchesEuclidean | src/main/java/seedu/siasa/logic/commands/DownloadCommand.java:118-119 | for non-negative operands Java's division and remainder are the Euclidean ones |
| Text.Wrap32 | src/main/java/seedu/siasa/model/policy/Policy.java:107 | wrap-around keeps a value in 32 bits and changes it by a multiple of 2^32 |
| FindParser.Parse | src/main/java/seedu/siasa/logic/parser/FindCommandParser.java:21-31 | every failure is the invalid-format error with the find usage |
| FindParser.ParseMeaning | src/main/java/seedu/siasa/logic/parser/FindCommandParser.java:22-30 | fails exactly when the argument is blank after trimming; otherwise at least one keyword, each non-empty and without whitespace |
| FindParser.KeywordsAreTheRuns | src/main/java/seedu/siasa/logic/parser/FindCommandParser.java:28-30 | the trimmed argument is exactly the keywords with whitespace between them |
| FindParser.ParseOfLayout | src/main/java/seedu/siasa/logic/parser/FindCommandParser.java:28-30 | keywords with whitespace between them, once trimmed, parse to those keywords |
| FindParser.ParseSurrounded | src/test/java/seedu/siasa/logic/parser/FindClientCommandParserTest.java:23-32 | surrounding and repeated whitespace of any kind does not change the keywords |
| FindParser.ParseSingleSpace | src/test/java/seedu/siasa/logic/parser/FindClientCommandParserTest.java:25-28 | `"Alice Bob"` gives the keywords Alice and Bob |
| FindParser.ParseMixedWhitespace | src/test/java/seedu/siasa/logic/parser/FindClientCommandParserTest.java:30-31 | the same input spread with newlines and tabs gives the same keywords |
| FindParser.ParseBlank | src/test/java/seedu/siasa/logic/parser/FindClientCommandParserTest.java:18-21 | an argument of spaces is the invalid-format error |
| AddContactParser.ArePrefixesPresent | src/main/java/seedu/siasa/logic/parser/contact/AddContactCommandParser.java:61-63 | true exactly when every listed prefix has a value |
| AddContactParser.WellFormed | src/main/java/seedu/siasa/logic/parser/contact/AddContactCommandParser.java:41-44 | the arguments are accepted exactly when name, address, phone and email have values and the preamble is empty |
| AddContactParser.Parse | src/main/java/seedu/siasa/logic/parser/contact/AddContactCommandParser.java:37-55 | on success the arguments are well formed and each field is its parser's result on the prefix's last value, tags from all tag values |
| AddContactParser.FormatErrorExactly | src/main/java/seedu/siasa/logic/parser/contact/AddContactCommandParser.java:41-44 | the invalid-format error arises exactly for malformed arguments; other errors are the field parsers' messages |
| AddContactParser.OnlyTheLastValueCounts | src/main/java/seedu/siasa/logic/parser/contact/AddContactCommandParser.java:46-49 | values given earlier for a repeated field prefix do not change the result |
| AddContactParser.ParseSucceeds | src/main/java/seedu/siasa/logic/parser/contact/AddContactCommandParser.java:46-54 | the parse succeeds exactly when the arguments are well formed and every field parses |
| EditContactParser.ParseTagsForEdit | src/main/java/seedu/siasa/logic/parser/contact/EditContactCommandParser.java:78-86 | no tag values leave the tags unedited, and only then; every error is the tag parser's |
| EditContactParser.FirstFieldError | src/main/java/seedu/siasa/logic/parser/contact/EditContactCommandParser.java:51-65 | names the error of the first given value that fails to parse, in the order name, phone, email, address, tags, and none exactly when all parse |
| EditContactParser.LoneEmptyTagClears | src/main/java/seedu/siasa/logic/parser/contact/EditContactCommandParser.java:84-85 | a single empty tag value sets the tags to the empty set |
| EditContactParser.OtherTagsParsed | src/main/java/seedu/siasa/logic/parser/contact/EditContactCommandParser.java:84-85 | any other tag values are parsed as they are, their error passed on |
| EditContactParser.Parse | src/main/java/seedu/siasa/logic/parser/contact/EditContactCommandParser.java:36-71 | a bad index is the invalid-format error; otherwise a bad value gives the error of the first failing field; no field given the not-edited error; otherwise exactly the given fields, parsed |
| ContactCommands.ExecuteFind | src/main/java/seedu/siasa/logic/commands/contact/FindContactCommand.java:30-36 | the contact view shows exactly the matching stored contacts, the message reports their number, nothing else changes |
| ContactCommands.FindEqualsMeaning | src/main/java/seedu/siasa/logic/commands/contact/FindContactCommand.java:38-43 | two find commands are equal exactly when their keywords are, and then install the same filter |
| ContactCommands.ExecuteSort | src/main/java/seedu/siasa/logic/commands/contact/SortContactCommand.java:40-53 | no comparator: no-such-order message and nothing changes; else the contact view takes the comparator, keeps the same contacts, is sorted when the comparator is valid, and the message says whether the policy view is empty |
| Guide.NextPage | src/main/java/seedu/siasa/ui/GuideWindow.java:160-193 | next moves one page forward from ONE to SEVEN and stays on EIGHT and NINE |
| Guide.BackPage | src/main/java/seedu/siasa/ui/GuideWindow.java:199-234 | back moves one page backward from TWO to EIGHT and stays on ONE and NINE |
| Guide.BackUndoesNext | src/main/java/seedu/siasa/ui/GuideWindow.java:160-234 | back after next returns to the page, from ONE to SEVEN |
| Guide.NextUndoesBack | src/main/java/seedu/siasa/ui/GuideWindow.java:160-234 | next after back returns to the page, from TWO to EIGHT |
| Guide.StepAvoidsNine | src/main/java/seedu/siasa/ui/GuideWindow.java:160-234 | no button leads to NINE from another page |
| Guide.NineUnreachable | src/main/java/seedu/siasa/ui/GuideWindow.java:111-234 | no sequence of presses from a page other than NINE reaches NINE |
| Guide.GuideWindow.constructor | src/main/java/seedu/siasa/ui/GuideWindow.java:111-115 | the window opens on page ONE |
| Guide.GuideWindow.HandleNext | src/main/java/seedu/siasa/ui/GuideWindow.java:160-193 | the current page becomes the next page |
| Guide.GuideWindow.HandleBack | src/main/java/seedu/siasa/ui/GuideWindow.java:199-234 | the current page becomes the previous page |

## Left out

- JavaFX observable lists are not modelled. A view is recomputed from the store, its predicate and its comparator. The `SortedList` that `updateFilteredPersonList` and `updateFilteredPolicyList` build again (`model/ModelManager.java:190`, `:216`) is modelled by that recomputation.
- The user-preference accessors and `getSiasa` (`model/ModelManager.java:61-92`) are left out because they only get and set fields, and `UserPrefs` is opaque.
- `Siasa`, `UniquePersonList` and `UniquePolicyList` are not part of this model. Their operations are modelled with their documented meaning in `Store` (append, first-occurrence replace and remove, cascade). `Siasa.equals` is taken to compare the two contact lists and the two policy lists element by element, with `Person.equals` (structural here) and `Policy.equals`.
- `Store.AddPerson`, `Store.SetPerson`, `Store.RemovePersonAndAssociatedPolicies`, `Store.AddPolicy`, `Store.SetPolicy`, `Store.RemovePolicy` and the `ModelManagers.ModelManager` methods that call them (`AddPerson`, `SetPerson`, `DeletePerson`, `AddPolicy`, `SetPolicy`, `DeletePolicy`) take as a precondition what the model manager's interface asks of its callers. The record is new for an add, stored for an edit or delete, and not clashing with another stored record for an edit. The duplicate and not-found exceptions that `UniquePersonList` and `UniquePolicyList` throw when a caller breaks this are not modelled.
- `Contacts.CompareText`: `PersonComparator.SORT_BY_ALPHA_ASC` is not part of this model; it is taken to be `String.compareTo` on full names. The comparison is also on Dafny characters (Unicode scalar values), not on UTF-16 code units as in Java. The two orders differ on names holding characters beyond U+FFFF: Java puts U+10000 before U+FFFF, and the model puts it after.
- `Download.Execute`: the total commission the report prints is an input. The source takes it from `model.getTotalCommission()`, whose body is not part of this model, so the `ensures` do not say which total is printed.
- `Person` and `Contact` are one record. `isSamePerson` is taken as name equality, as `PersonComparator` and the field classes are not part of this model.
- `List.sort` and a freshly built `SortedList` are modelled by a stable insertion sort. Any stable sort gives the same result, so the model's result is theirs. The incremental updates a live `SortedList` makes when its source list changes, which do not keep tied elements in store order, are not modelled; the view is recomputed instead.
- `Download.GetCommissionFromPolicyList`: the commission is summed exactly in integers, not as a `float`, so it does not model rounding error in the accumulation.
- `Download.CompareByCommission`: answers the exact difference of the two commissions, not its 32-bit wrap-around.
- Java's `HashMap` iteration order for the policy counts and the tag set's iteration order for `toString` are inputs (`counts`, `order`).
- `getAvgPoliciesPerClient` and its `%.2f` formatting (`logic/commands/DownloadCommand.java:77-82`) are left out because they use floating point. The average text is an input.
- `writeToTxt` (`logic/commands/DownloadCommand.java:107-115`) is file I/O. Its failure is an input, and the text it would write is the report.
- The current date is an input.
- `ArgumentTokenizer`, `ArgumentMultimap`, `ParserUtil`, `NameContainsKeywordsPredicate.test`, `LocalDate.parse` and the field validators are not part of this model. Their results are parameters.
- The usage and error texts of `Messages`, the command classes and `MESSAGE_NOT_EDITED` are named by constructors of `ParseError` rather than spelled out.
- `JsonAdaptedPolicy` parses the date a second time after validating it, with the same result. The model parses it once.
- The `JsonAdaptedPerson` adapter is not part of this model. The owner is whatever contact the caller passes.
- `Title.toString` is taken as the title's value.
- Null arguments and `requireNonNull` are not modelled. A null that the code tests for becomes `None`.
- UI rendering (`ContactListPanel`, `WarningWindow`, the JavaFX scene of `GuideWindow`), `LogicManager`, and the delete parsers and commands are left out because they are not part of the modelled core.
