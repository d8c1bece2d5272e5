/**
 * The statistics report: contacts ranked by the commission their policies earn,
 * the number of policies per contact, the average and the total commission,
 * written as a fixed sequence of lines.
 */
module Download {
  import opened Wrappers
  import opened Sorting
  import opened Text
  import opened Contacts
  import opened Policies
  import opened Store
  import opened ModelManagers

  const TXT_FILEPATH: string := "data\\stats.txt"
  const MESSAGE_DOWNLOAD_SUCCESS: string := "File has been downloaded, you can view it at " + TXT_FILEPATH
  const MESSAGE_ERROR_WRITING_FILE: string := "There was an error saving the file."
  const TITLE_UNDERLINE: string := "-----------------------"

  // -------------------------------------------------------------- commission

  /** What one policy contributes before the division by 100: percentage times price in cents. */
  function Term(p: Policy): int
  {
    p.commission.commissionPercentage * p.price.priceInCents
  }

  /** The sum of the terms of a list of policies. */
  function RawCommission(ps: seq<Policy>): int
  {
    if ps == [] then 0 else RawCommission(ps[..|ps| - 1]) + Term(ps[|ps| - 1])
  }

  /** The commission a list of policies earns, in cents: the sum divided by 100, truncated once. */
  function CommissionOf(ps: seq<Policy>): int
  {
    JavaDiv(RawCommission(ps), 100)
  }

  /** `getCommissionFromPolicyList`: accumulates the policies' terms and truncates the total. */
  method GetCommissionFromPolicyList(ps: seq<Policy>) returns (c: int)
    ensures c == CommissionOf(ps)
  {
    var total := 0;
    var i := 0;
    while i < |ps|
      invariant 0 <= i <= |ps|
      invariant total == RawCommission(ps[..i])
    {
      assert ps[..i + 1][..i] == ps[..i];
      total := total + Term(ps[i]);
      i := i + 1;
    }
    assert ps[..i] == ps;
    c := JavaDiv(total, 100);
  }

  lemma CommissionOfEmpty()
    ensures CommissionOf([]) == 0
  {
  }

  lemma {:induction false} RawCommissionAppend(a: seq<Policy>, b: seq<Policy>)
    ensures RawCommission(a + b) == RawCommission(a) + RawCommission(b)
    decreases |b|
  {
    if b == [] {
      assert a + b == a;
    } else {
      var b' := b[..|b| - 1];
      assert (a + b)[..|a + b| - 1] == a + b';
      RawCommissionAppend(a, b');
    }
  }

  lemma {:induction false} RawCommissionRemove(ps: seq<Policy>, k: nat)
    requires k < |ps|
    ensures RawCommission(ps) == RawCommission(ps[..k] + ps[k + 1..]) + Term(ps[k])
  {
    assert ps == ps[..k] + [ps[k]] + ps[k + 1..];
    RawCommissionAppend(ps[..k] + [ps[k]], ps[k + 1..]);
    RawCommissionAppend(ps[..k], [ps[k]]);
    RawCommissionAppend(ps[..k], ps[k + 1..]);
    assert [ps[k]][..0] == [];
  }

  /** The commission does not depend on the order of the policies. */
  lemma {:induction false} CommissionPermutation(a: seq<Policy>, b: seq<Policy>)
    requires multiset(a) == multiset(b)
    ensures RawCommission(a) == RawCommission(b)
    ensures CommissionOf(a) == CommissionOf(b)
    decreases |a|
  {
    if a != [] {
      var x := a[|a| - 1];
      var a' := a[..|a| - 1];
      assert a == a' + [x];
      assert x in multiset(b);
      var k := IndexOf(b, x);
      var b' := RemoveFirst(b, x);
      assert b' == b[..k] + b[k + 1..];
      assert multiset(a) == multiset(a') + multiset{x};
      CommissionPermutation(a', b');
      RawCommissionRemove(b, k);
    } else {
      assert b == [];
    }
  }

  /** With non-negative percentages and prices the commission is not negative. */
  lemma {:induction false} CommissionNonNegative(ps: seq<Policy>)
    requires forall p :: p in ps ==> p.commission.commissionPercentage >= 0 && p.price.priceInCents >= 0
    ensures RawCommission(ps) >= 0 && CommissionOf(ps) >= 0
    decreases |ps|
  {
    if ps != [] {
      var init := ps[..|ps| - 1];
      assert forall p :: p in init ==> p in ps;
      CommissionNonNegative(init);
      assert ps[|ps| - 1] in ps;
    }
  }

  /**
   * The division happens once, on the total: two policies that each earn half a cent earn one
   * cent together, though each alone earns nothing.
   */
  lemma TruncatedOnceOnTheTotal(owner: Contact)
    ensures var p := Policy(Title("Life"), Price(1), ExpiryDate(Date(2030, 1, 1)), Commission(50), owner, {});
      CommissionOf([p]) == 0 && CommissionOf([p, p]) == 1
  {
    var p := Policy(Title("Life"), Price(1), ExpiryDate(Date(2030, 1, 1)), Commission(50), owner, {});
    assert Term(p) == 50;
    assert [p][..0] == [];
    assert RawCommission([p]) == 50;
    assert [p, p][..1] == [p];
    assert RawCommission([p, p]) == 100;
    assert JavaDiv(50, 100) == 0 && JavaDiv(100, 100) == 1;
  }

  // ----------------------------------------------------------------- ranking

  /** `ownedBy(c, q)` holds when policy `q` belongs to contact `c` (`PolicyIsOwnedByPredicate`). */
  type Ownership = (Contact, Policy) -> bool

  function OwnedBy(ownedBy: Ownership, c: Contact): Policy -> bool
  {
    (q: Policy) => ownedBy(c, q)
  }

  /** The commission contact `c` earns from the stored policies. */
  function Earned(ps: seq<Policy>, ownedBy: Ownership, c: Contact): int
  {
    CommissionOf(Filter(ps, OwnedBy(ownedBy, c)))
  }

  /** Orders by a key, largest first; equal keys compare equal. */
  function Descending(key: Contact -> int): (Contact, Contact) -> int
  {
    (a: Contact, b: Contact) => key(b) - key(a)
  }

  function EarnedKey(ps: seq<Policy>, ownedBy: Ownership): Contact -> int
  {
    (c: Contact) => Earned(ps, ownedBy, c)
  }

  lemma DescendingValid(key: Contact -> int)
    ensures ValidComparator(Descending(key))
  {
    var cmp := Descending(key);
    forall a: Contact, b: Contact ensures FlipsAt(cmp, a, b) {
      assert cmp(a, b) == key(b) - key(a) && cmp(b, a) == key(a) - key(b);
    }
    forall a: Contact, b: Contact, c: Contact ensures ChainsAt(cmp, a, b, c) {
      assert cmp(a, b) == key(b) - key(a) && cmp(b, c) == key(c) - key(b) && cmp(a, c) == key(c) - key(a);
    }
  }

  /**
   * The comparator of the ranking. It shows only `a`'s policies and sums the view, then does
   * the same for `b`, then shows every policy again; the answer is `b`'s commission minus `a`'s.
   */
  method CompareByCommission(model: ModelManager, ownedBy: Ownership, a: Contact, b: Contact) returns (r: int)
    modifies model
    ensures r == Descending(EarnedKey(model.siasa.policies, ownedBy))(a, b)
    ensures model.policyPredicate == ShowAllPolicies
    ensures model.siasa == old(model.siasa) && model.userPrefs == old(model.userPrefs)
    ensures model.personPredicate == old(model.personPredicate)
    ensures model.personComparator == old(model.personComparator)
    ensures model.policyComparator == old(model.policyComparator)
  {
    model.UpdatePolicyPredicate(OwnedBy(ownedBy, a));
    var policiesOfA := model.PolicyView();
    CommissionPermutation(policiesOfA, Filter(model.siasa.policies, OwnedBy(ownedBy, a)));
    var commissionOfA := GetCommissionFromPolicyList(policiesOfA);

    model.UpdatePolicyPredicate(OwnedBy(ownedBy, b));
    var policiesOfB := model.PolicyView();
    CommissionPermutation(policiesOfB, Filter(model.siasa.policies, OwnedBy(ownedBy, b)));
    var commissionOfB := GetCommissionFromPolicyList(policiesOfB);

    model.UpdatePolicyPredicate(ShowAllPolicies);
    r := commissionOfB - commissionOfA;
  }

  /**
   * Finds where the ranking inserts `x`: the first contact already ranked that `x` compares
   * below, asking the comparator once per contact passed.
   */
  method InsertionPoint(model: ModelManager, ownedBy: Ownership, x: Contact, ranked: seq<Contact>)
    returns (j: nat)
    modifies model
    ensures j <= |ranked|
    ensures forall k :: 0 <= k < j ==> Descending(EarnedKey(model.siasa.policies, ownedBy))(x, ranked[k]) >= 0
    ensures j < |ranked| ==> Descending(EarnedKey(model.siasa.policies, ownedBy))(x, ranked[j]) < 0
    ensures model.policyPredicate == if ranked == [] then old(model.policyPredicate) else ShowAllPolicies
    ensures model.siasa == old(model.siasa) && model.userPrefs == old(model.userPrefs)
    ensures model.personPredicate == old(model.personPredicate)
    ensures model.personComparator == old(model.personComparator)
    ensures model.policyComparator == old(model.policyComparator)
  {
    ghost var cmp := Descending(EarnedKey(model.siasa.policies, ownedBy));
    j := 0;
    var found := false;
    while !found && j < |ranked|
      invariant 0 <= j <= |ranked|
      invariant forall k :: 0 <= k < j ==> cmp(x, ranked[k]) >= 0
      invariant found ==> j < |ranked| && cmp(x, ranked[j]) < 0
      invariant model.policyPredicate == if found || j > 0 then ShowAllPolicies else old(model.policyPredicate)
      invariant model.siasa == old(model.siasa) && model.userPrefs == old(model.userPrefs)
      invariant model.personPredicate == old(model.personPredicate)
      invariant model.personComparator == old(model.personComparator)
      invariant model.policyComparator == old(model.policyComparator)
      decreases |ranked| - j, !found
    {
      var c := CompareByCommission(model, ownedBy, x, ranked[j]);
      if c < 0 {
        found := true;
      } else {
        j := j + 1;
      }
    }
  }

  /** Inserts `x` into the contacts ranked so far, where the comparator says it belongs. */
  method InsertRanked(model: ModelManager, ownedBy: Ownership, x: Contact, ranked: seq<Contact>)
    returns (r: seq<Contact>)
    modifies model
    ensures r == Insert(x, ranked, Descending(EarnedKey(old(model.siasa.policies), ownedBy)))
    ensures model.policyPredicate == if ranked == [] then old(model.policyPredicate) else ShowAllPolicies
    ensures model.siasa == old(model.siasa) && model.userPrefs == old(model.userPrefs)
    ensures model.personPredicate == old(model.personPredicate)
    ensures model.personComparator == old(model.personComparator)
    ensures model.policyComparator == old(model.policyComparator)
  {
    var j := InsertionPoint(model, ownedBy, x, ranked);
    InsertAt(x, ranked, Descending(EarnedKey(model.siasa.policies, ownedBy)), j);
    r := ranked[..j] + [x] + ranked[j..];
  }

  /**
   * `List.sort` of a copy of the contact view with the comparator above, as the insertion sort
   * that gives the same result as every stable sort: once two or more contacts have been
   * compared the policy view shows every policy.
   */
  method SortByCommission(model: ModelManager, ownedBy: Ownership, view: seq<Contact>) returns (ranked: seq<Contact>)
    modifies model
    ensures ranked == SortBy(view, Descending(EarnedKey(old(model.siasa.policies), ownedBy)))
    ensures model.policyPredicate == if |view| >= 2 then ShowAllPolicies else old(model.policyPredicate)
    ensures model.siasa == old(model.siasa) && model.userPrefs == old(model.userPrefs)
    ensures model.personPredicate == old(model.personPredicate)
    ensures model.personComparator == old(model.personComparator)
    ensures model.policyComparator == old(model.policyComparator)
  {
    ghost var cmp := Descending(EarnedKey(model.siasa.policies, ownedBy));
    ranked := [];
    var i := 0;
    while i < |view|
      invariant 0 <= i <= |view|
      invariant ranked == SortBy(view[..i], cmp)
      invariant model.policyPredicate == if i >= 2 then ShowAllPolicies else old(model.policyPredicate)
      invariant model.siasa == old(model.siasa) && model.userPrefs == old(model.userPrefs)
      invariant model.personPredicate == old(model.personPredicate)
      invariant model.personComparator == old(model.personComparator)
      invariant model.policyComparator == old(model.policyComparator)
    {
      SortByPrefix(view, i, cmp);
      ranked := InsertRanked(model, ownedBy, view[i], ranked);
      i := i + 1;
    }
    assert view[..i] == view;
  }

  /** Ranks the contact view by commission, largest first. */
  method RankByCommission(model: ModelManager, ownedBy: Ownership) returns (ranked: seq<Contact>)
    modifies model
    ensures ranked == SortBy(old(model.PersonView()), Descending(EarnedKey(old(model.siasa.policies), ownedBy)))
    ensures model.policyPredicate == if |old(model.PersonView())| >= 2 then ShowAllPolicies else old(model.policyPredicate)
    ensures model.siasa == old(model.siasa) && model.userPrefs == old(model.userPrefs)
    ensures model.personPredicate == old(model.personPredicate)
    ensures model.personComparator == old(model.personComparator)
    ensures model.policyComparator == old(model.policyComparator)
  {
    var view := model.PersonView();
    ranked := SortByCommission(model, ownedBy, view);
  }

  /**
   * The ranking is a permutation of the contact view, ordered from the largest commission down;
   * contacts with equal commission keep their order in the view.
   */
  lemma RankingMeaning(view: seq<Contact>, ps: seq<Policy>, ownedBy: Ownership)
    ensures var ranked := SortBy(view, Descending(EarnedKey(ps, ownedBy)));
      multiset(ranked) == multiset(view)
      && (forall i, j :: 0 <= i < j < |ranked| ==> Earned(ps, ownedBy, ranked[i]) >= Earned(ps, ownedBy, ranked[j]))
      && (forall y :: Filter(ranked, TiedWith(Descending(EarnedKey(ps, ownedBy)), y))
                      == Filter(view, TiedWith(Descending(EarnedKey(ps, ownedBy)), y)))
  {
    var key := EarnedKey(ps, ownedBy);
    var cmp := Descending(key);
    DescendingValid(key);
    var ranked := SortBy(view, cmp);
    SortSorted(view, cmp);
    forall i, j | 0 <= i < j < |ranked|
      ensures Earned(ps, ownedBy, ranked[i]) >= Earned(ps, ownedBy, ranked[j])
    {
      assert NotAbove(cmp, ranked[i], ranked[j]);
      assert cmp(ranked[i], ranked[j]) == key(ranked[j]) - key(ranked[i]);
    }
    forall y ensures Filter(ranked, TiedWith(cmp, y)) == Filter(view, TiedWith(cmp, y)) {
      SortStable(view, cmp, y);
    }
  }

  /** Two contacts tie in the ranking exactly when they earn the same commission. */
  lemma RankingTies(ps: seq<Policy>, ownedBy: Ownership, a: Contact, b: Contact)
    ensures TiedWith(Descending(EarnedKey(ps, ownedBy)), b)(a) <==> Earned(ps, ownedBy, a) == Earned(ps, ownedBy, b)
  {
  }

  // ----------------------------------------------------------------- report

  /** The cents part: a remainder below ten gets a leading `0`. */
  function CentsText(cents: int): string
  {
    if cents <= 9 then "0" + IntToString(cents) else IntToString(cents)
  }

  /** `centsToDollars`: an amount in cents as `$D.CC`. */
  function CentsToDollars(priceInCents: int): string
  {
    var cents := JavaRem(priceInCents, 100);
    var dollars := JavaDiv(priceInCents - cents, 100);
    "$" + IntToString(dollars) + "." + CentsText(cents)
  }

  /** Reads `$D.CC` back as cents. */
  function ParseDollars(s: string): Option<int>
  {
    if |s| >= 5 && s[0] == '$' && s[|s| - 3] == '.' && AllDigits(s[1..|s| - 3]) && AllDigits(s[|s| - 2..])
    then Some(DigitsValue(s[1..|s| - 3]) * 100 + DigitsValue(s[|s| - 2..]))
    else None
  }

  /** A remainder in 0..99 is written as exactly two digits that read back as it. */
  lemma TwoDigits(c: int)
    requires 0 <= c < 100
    ensures |CentsText(c)| == 2 && AllDigits(CentsText(c)) && DigitsValue(CentsText(c)) == c
  {
    NatToStringValue(c);
    var t := CentsText(c);
    if c <= 9 {
      assert t == ['0', Digit(c)];
      assert t[..1] == "0";
      assert DigitsValue(t[..1]) == 0 by {
        assert t[..1][..0] == [];
      }
    } else {
      assert t == NatToString(c / 10) + [Digit(c % 10)];
      assert |NatToString(c / 10)| == 1;
    }
  }

  /** For a non-negative amount the dollars are the quotient and the cents the remainder. */
  lemma CentsToDollarsShape(n: int)
    requires n >= 0
    ensures CentsToDollars(n) == "$" + NatToString(n / 100) + "." + CentsText(n % 100)
  {
    CentsToDollarsUnfold(n);
    CentsSplit(n);
    DollarsText(n);
    DollarTextCongruent(IntToString(JavaDiv(n - JavaRem(n, 100), 100)), CentsText(JavaRem(n, 100)),
                        NatToString(n / 100), CentsText(n % 100));
  }

  lemma CentsToDollarsUnfold(n: int)
    ensures CentsToDollars(n) == "$" + IntToString(JavaDiv(n - JavaRem(n, 100), 100)) + "." + CentsText(JavaRem(n, 100))
  {
  }

  lemma DollarsText(n: int)
    requires n >= 0
    ensures IntToString(n / 100) == NatToString(n / 100)
  {
  }

  lemma DollarTextCongruent(a: string, b: string, c: string, d: string)
    requires a == c && b == d
    ensures "$" + a + "." + b == "$" + c + "." + d
  {
  }

  lemma CentsSplit(n: int)
    requires n >= 0
    ensures JavaRem(n, 100) == n % 100
    ensures JavaDiv(n - JavaRem(n, 100), 100) == n / 100
  {
    JavaMatchesEuclidean(n, 100);
    var q, r := n / 100, n % 100;
    assert n - r == 100 * q;
    JavaMatchesEuclidean(100 * q, 100);
    assert (100 * q) / 100 == q;
  }

  lemma DollarTextPieces(d: string, t: string)
    requires |t| == 2
    ensures var s := "$" + d + "." + t;
      |s| == |d| + 4 && s[0] == '$' && s[|s| - 3] == '.' && s[1..|s| - 3] == d && s[|s| - 2..] == t
  {
    var s := "$" + d + "." + t;
    assert s == ("$" + d + ".") + t;
    assert s[1..|s| - 3] == ("$" + d + ".")[1..|d| + 1];
    assert ("$" + d + ".")[1..|d| + 1] == ("$" + d)[1..];
  }
  /** `ParseDollars` reads the digits around the point. */
  lemma ParseDollarsOf(d: string, t: string)
    requires d != [] && AllDigits(d) && |t| == 2 && AllDigits(t)
    ensures ParseDollars("$" + d + "." + t) == Some(DigitsValue(d) * 100 + DigitsValue(t))
  {
    var s := "$" + d + "." + t;
    DollarTextPieces(d, t);
    var dollars, cents := s[1..|s| - 3], s[|s| - 2..];
    assert dollars == d && cents == t;
    assert ParseDollars(s) == Some(DigitsValue(dollars) * 100 + DigitsValue(cents));
  }

  /**
   * For a non-negative amount, the text is `$`, the dollars, a point and exactly two cent
   * digits, and reading it back gives the amount.
   */
  lemma CentsToDollarsRoundTrip(n: int)
    requires n >= 0
    ensures CentsToDollars(n) == "$" + NatToString(n / 100) + "." + CentsText(n % 100)
    ensures |CentsText(n % 100)| == 2
    ensures ParseDollars(CentsToDollars(n)) == Some(n)
  {
    CentsToDollarsShape(n);
    TwoDigits(n % 100);
    NatToStringValue(n / 100);
    DivMod100(n);
    ParseDollarsValue(CentsToDollars(n), NatToString(n / 100), CentsText(n % 100), n);
  }

  lemma ParseDollarsValue(s: string, d: string, t: string, n: int)
    requires s == "$" + d + "." + t
    requires d != [] && AllDigits(d) && |t| == 2 && AllDigits(t)
    requires DigitsValue(d) * 100 + DigitsValue(t) == n
    ensures ParseDollars(s) == Some(n)
  {
    ParseDollarsOf(d, t);
  }

  lemma DivMod100(n: int)
    requires n >= 0
    ensures (n / 100) * 100 + n % 100 == n
  {
  }

  /** Small amounts get a leading zero in the cents. */
  lemma CentsToDollarsSmall()
    ensures CentsToDollars(5) == "$0.05"
  {
  }

  /** Whole amounts get two zero cents. */
  lemma CentsToDollarsWhole()
    ensures CentsToDollars(100) == "$1.00"
  {
  }

  lemma CentsToDollarsExample()
    ensures CentsToDollars(1234) == "$12.34"
  {
    assert NatToString(12) == "12" by {
      assert NatToString(12) == NatToString(1) + [Digit(2)];
    }
    assert NatToString(34) == "34" by {
      assert NatToString(34) == NatToString(3) + [Digit(4)];
    }
  }

  /** A negative amount keeps the sign in both parts: -105 cents is written `$-1.0-5`. */
  lemma CentsToDollarsNegative()
    ensures CentsToDollars(-105) == "$-1.0-5"
  {
  }

  const PREMIUM_TITLE: string := "Most premium clients:\n" + TITLE_UNDERLINE
  const COUNTS_TITLE: string := "Number of policies per client:\n" + TITLE_UNDERLINE

  function DateLine(date: string): string
  {
    "Statistics for " + date + "\n"
  }

  /** `String.format("%s: %d policies", name, count)`. */
  function CountLine(entry: (Contact, int)): string
  {
    entry.0.name + ": " + IntToString(entry.1) + " policies"
  }

  function AverageLine(average: string): string
  {
    "Average number of policies per client: " + average
  }

  function TotalLine(totalCommission: int): string
  {
    "Total Commission: " + CentsToDollars(totalCommission)
  }

  /** The rendering of each item, in order. */
  function Rendered<T>(items: seq<T>, render: T -> string): (r: seq<string>)
    ensures |r| == |items| && forall k :: 0 <= k < |items| ==> r[k] == render(items[k])
  {
    if items == [] then [] else Rendered(items[..|items| - 1], render) + [render(items[|items| - 1])]
  }

  /** The report the command writes, one string per line. */
  function Report(date: string, totalCommission: int, sortedPersons: seq<Contact>,
                  counts: seq<(Contact, int)>, render: Contact -> string, average: string): seq<string>
  {
    [DateLine(date), PREMIUM_TITLE] + Rendered(sortedPersons, render) + ["\n", COUNTS_TITLE]
    + Rendered(counts, CountLine) + ["\n", AverageLine(average), TotalLine(totalCommission)]
  }

  /**
   * The layout of the report: the date, the ranking title, one line per ranked contact, a
   * blank line, the counts title, one line per count entry, a blank line, the average and the
   * total commission.
   */
  lemma ReportLayout(date: string, totalCommission: int, sortedPersons: seq<Contact>,
                     counts: seq<(Contact, int)>, render: Contact -> string, average: string)
    ensures var lines := Report(date, totalCommission, sortedPersons, counts, render, average);
      var n, m := |sortedPersons|, |counts|;
      && |lines| == 7 + n + m
      && lines[0] == DateLine(date)
      && lines[1] == PREMIUM_TITLE
      && (forall k :: 0 <= k < n ==> lines[2 + k] == render(sortedPersons[k]))
      && lines[2 + n] == "\n"
      && lines[3 + n] == COUNTS_TITLE
      && (forall k :: 0 <= k < m ==> lines[4 + n + k] == CountLine(counts[k]))
      && lines[4 + n + m] == "\n"
      && lines[5 + n + m] == AverageLine(average)
      && lines[6 + n + m] == TotalLine(totalCommission)
  {
    ReportShape(DateLine(date), PREMIUM_TITLE, Rendered(sortedPersons, render), "\n", COUNTS_TITLE,
                Rendered(counts, CountLine), "\n", AverageLine(average), TotalLine(totalCommission));
  }

  /** Where each part of the report's shape lands, for lines of any type. */
  lemma ReportShape<T>(h0: T, h1: T, r: seq<T>, m0: T, m1: T, c: seq<T>, t0: T, t1: T, t2: T)
    ensures var s := [h0, h1] + r + [m0, m1] + c + [t0, t1, t2];
      var n, m := |r|, |c|;
      && |s| == 7 + n + m
      && s[0] == h0 && s[1] == h1
      && (forall k :: 0 <= k < n ==> s[2 + k] == r[k])
      && s[2 + n] == m0 && s[3 + n] == m1
      && (forall k :: 0 <= k < m ==> s[4 + n + k] == c[k])
      && s[4 + n + m] == t0 && s[5 + n + m] == t1 && s[6 + n + m] == t2
  {
  }

  /**
   * `stringListBuilderForTxt`: the report lines. The date text, the rendering of a contact, the
   * formatted average and the per-contact counts, in the order the count map iterates, are inputs.
   */
  method StringListBuilderForTxt(date: string, totalCommission: int, sortedPersons: seq<Contact>,
                                 counts: seq<(Contact, int)>, render: Contact -> string, average: string)
    returns (lines: seq<string>)
    ensures lines == Report(date, totalCommission, sortedPersons, counts, render, average)
  {
    var head := [DateLine(date), PREMIUM_TITLE];
    lines := head;
    var i := 0;
    while i < |sortedPersons|
      invariant 0 <= i <= |sortedPersons|
      invariant lines == head + Rendered(sortedPersons[..i], render)
    {
      assert sortedPersons[..i + 1][..i] == sortedPersons[..i];
      lines := lines + [render(sortedPersons[i])];
      i := i + 1;
    }
    assert sortedPersons[..i] == sortedPersons;
    lines := lines + ["\n", COUNTS_TITLE];
    ghost var prefix := lines;
    var j := 0;
    while j < |counts|
      invariant 0 <= j <= |counts|
      invariant lines == prefix + Rendered(counts[..j], CountLine)
    {
      assert counts[..j + 1][..j] == counts[..j];
      lines := lines + [CountLine(counts[j])];
      j := j + 1;
    }
    assert counts[..j] == counts;
    lines := lines + ["\n", AverageLine(average), TotalLine(totalCommission)];
  }

  /**
   * `execute`: ranks the contact view, builds the report and writes it. Whether writing fails is
   * an input; so are the total commission and the per-contact counts the model reports.
   */
  method Execute(model: ModelManager, ownedBy: Ownership, date: string, totalCommission: int,
                 counts: seq<(Contact, int)>, render: Contact -> string, average: string, writeFails: bool)
    returns (result: Result<string, string>, lines: seq<string>)
    modifies model
    ensures result == if writeFails then Err(MESSAGE_ERROR_WRITING_FILE) else Ok(MESSAGE_DOWNLOAD_SUCCESS)
    ensures lines == Report(date, totalCommission,
                            SortBy(old(model.PersonView()), Descending(EarnedKey(old(model.siasa.policies), ownedBy))),
                            counts, render, average)
    ensures model.policyPredicate == if |old(model.PersonView())| >= 2 then ShowAllPolicies else old(model.policyPredicate)
    ensures model.siasa == old(model.siasa) && model.userPrefs == old(model.userPrefs)
    ensures model.personPredicate == old(model.personPredicate)
    ensures model.personComparator == old(model.personComparator)
    ensures model.policyComparator == old(model.policyComparator)
  {
    var ranked := RankByCommission(model, ownedBy);
    lines := StringListBuilderForTxt(date, totalCommission, ranked, counts, render, average);
    if writeFails {
      result := Err(MESSAGE_ERROR_WRITING_FILE);
    } else {
      result := Ok(MESSAGE_DOWNLOAD_SUCCESS);
    }
  }
}
