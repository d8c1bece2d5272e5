/**
 * Filtering and stable sorting of sequences by a Java-style comparator, the two
 * list transformations (FilteredList, SortedList and List.sort) that the record
 * model's views and the statistics ranking are built from.
 */
module Sorting {

  /** The elements of s that satisfy p, in their order in s. */
  function Filter<T(!new)>(s: seq<T>, p: T -> bool): (r: seq<T>)
    ensures |r| <= |s|
  {
    if s == [] then []
    else
      assert s == [s[0]] + s[1..];
      (if p(s[0]) then [s[0]] else []) + Filter(s[1..], p)
  }

  lemma {:induction false} FilterAppend<T(!new)>(a: seq<T>, b: seq<T>, p: T -> bool)
    ensures Filter(a + b, p) == Filter(a, p) + Filter(b, p)
  {
    if a == [] {
      assert a + b == b;
    } else {
      var h := if p(a[0]) then [a[0]] else [];
      assert (a + b)[0] == a[0] && (a + b)[1..] == a[1..] + b;
      FilterAppend(a[1..], b, p);
      calc {
        Filter(a + b, p);
        h + Filter(a[1..] + b, p);
        h + (Filter(a[1..], p) + Filter(b, p));
        (h + Filter(a[1..], p)) + Filter(b, p);
      }
    }
  }

  /** Filtering keeps every occurrence of the accepted elements and drops the rest. */
  lemma {:induction false} FilterMultiset<T(!new)>(s: seq<T>, p: T -> bool)
    ensures forall x :: multiset(Filter(s, p))[x] == if p(x) then multiset(s)[x] else 0
  {
    if s != [] {
      FilterMultiset(s[1..], p);
      assert s == [s[0]] + s[1..];
    }
  }

  lemma FilterMembers<T(!new)>(s: seq<T>, p: T -> bool)
    ensures forall x :: x in Filter(s, p) <==> x in s && p(x)
  {
    FilterMultiset(s, p);
    forall x ensures x in Filter(s, p) <==> x in s && p(x) {
      assert x in Filter(s, p) <==> x in multiset(Filter(s, p));
      assert x in s <==> x in multiset(s);
    }
  }

  lemma {:induction false} FilterNone<T(!new)>(s: seq<T>, p: T -> bool)
    requires forall e :: e in s ==> !p(e)
    ensures Filter(s, p) == []
  {
    if s != [] {
      assert s[0] in s;
      FilterNone(s[1..], p);
    }
  }

  /** Filtering a list that ends in `last`. */
  lemma FilterSnoc<T(!new)>(s: seq<T>, p: T -> bool)
    requires s != []
    ensures Filter(s, p) == Filter(s[..|s| - 1], p) + (if p(s[|s| - 1]) then [s[|s| - 1]] else [])
  {
    var init, last := s[..|s| - 1], s[|s| - 1];
    assert s == init + [last];
    FilterAppend(init, [last], p);
    assert Filter([last], p) == (if p(last) then [last] else []) + Filter([last][1..], p);
  }

  /** -1, 0 or 1 according to the sign of x. */
  function Sign(x: int): int {
    if x < 0 then -1 else if x > 0 then 1 else 0
  }

  /** a does not come after b. */
  ghost predicate NotAbove<T>(cmp: (T, T) -> int, a: T, b: T) {
    cmp(a, b) <= 0
  }

  /** compare(a, b) and compare(b, a) have opposite signs. */
  ghost predicate FlipsAt<T>(cmp: (T, T) -> int, a: T, b: T) {
    Sign(cmp(a, b)) == -Sign(cmp(b, a))
  }

  /** "Not above" is transitive through b. */
  ghost predicate ChainsAt<T>(cmp: (T, T) -> int, a: T, b: T, c: T) {
    NotAbove(cmp, a, b) && NotAbove(cmp, b, c) ==> NotAbove(cmp, a, c)
  }

  /**
   * The contract of java.util.Comparator: compare(a, b) and compare(b, a) have
   * opposite signs, and "not above" is transitive.  A comparator that keeps it
   * orders its type as a total preorder.  (The triggers keep the two laws from
   * being applied except where a proof names them.)
   */
  ghost predicate ValidComparator<T(!new)>(cmp: (T, T) -> int) {
    && (forall a, b {:trigger FlipsAt(cmp, a, b)} :: FlipsAt(cmp, a, b))
    && (forall a, b, c {:trigger ChainsAt(cmp, a, b, c)} :: ChainsAt(cmp, a, b, c))
  }

  /** Every element is not above any element after it. */
  ghost predicate Sorted<T>(s: seq<T>, cmp: (T, T) -> int) {
    forall i, j :: 0 <= i < j < |s| ==> NotAbove(cmp, s[i], s[j])
  }

  /** The elements that the comparator ties with x. */
  function TiedWith<T>(cmp: (T, T) -> int, x: T): T -> bool {
    e => cmp(e, x) == 0
  }

  /** Inserts x into s after every element that is not greater than x. */
  function Insert<T>(x: T, s: seq<T>, cmp: (T, T) -> int): (r: seq<T>)
    ensures multiset(r) == multiset(s) + multiset{x}
    ensures |r| == |s| + 1
  {
    if s == [] then [x]
    else if cmp(x, s[0]) < 0 then [x] + s
    else
      assert s == [s[0]] + s[1..];
      [s[0]] + Insert(x, s[1..], cmp)
  }

  /**
   * Stable sort: each element in turn is inserted after the elements before it
   * that it does not precede.  For a valid comparator its result is the one every
   * stable sort (java.util.List.sort, JavaFX's SortedList) produces.
   */
  function SortBy<T>(s: seq<T>, cmp: (T, T) -> int): (r: seq<T>)
    ensures multiset(r) == multiset(s)
    ensures |r| == |s|
  {
    if s == [] then []
    else
      assert s == s[..|s| - 1] + [s[|s| - 1]];
      Insert(s[|s| - 1], SortBy(s[..|s| - 1], cmp), cmp)
  }

  lemma Flip<T(!new)>(cmp: (T, T) -> int, a: T, b: T)
    requires ValidComparator(cmp)
    ensures Sign(cmp(a, b)) == -Sign(cmp(b, a))
  {
    assert FlipsAt(cmp, a, b);
  }

  lemma Chain<T(!new)>(cmp: (T, T) -> int, a: T, b: T, c: T)
    requires ValidComparator(cmp)
    requires cmp(a, b) <= 0 && cmp(b, c) <= 0
    ensures cmp(a, c) <= 0
  {
    assert ChainsAt(cmp, a, b, c);
  }

  lemma LessThenNotGreater<T(!new)>(cmp: (T, T) -> int, a: T, b: T, c: T)
    requires ValidComparator(cmp)
    requires cmp(a, b) < 0 && cmp(b, c) <= 0
    ensures cmp(a, c) < 0
  {
    Flip(cmp, a, c);
    Flip(cmp, a, b);
    assert ChainsAt(cmp, b, c, a);
  }

  lemma SortedTail<T>(s: seq<T>, cmp: (T, T) -> int)
    requires Sorted(s, cmp) && s != []
    ensures Sorted(s[1..], cmp)
  {
    forall i, j | 0 <= i < j < |s| - 1 ensures cmp(s[1..][i], s[1..][j]) <= 0 {
      assert s[1..][i] == s[i + 1] && s[1..][j] == s[j + 1];
    }
  }

  lemma {:induction false} InsertSorted<T(!new)>(x: T, s: seq<T>, cmp: (T, T) -> int)
    requires ValidComparator(cmp) && Sorted(s, cmp)
    ensures Sorted(Insert(x, s, cmp), cmp)
  {
    if s == [] {
    } else if cmp(x, s[0]) < 0 {
      assert Insert(x, s, cmp) == [x] + s;
      forall e | e in s ensures NotAbove(cmp, x, e) {
        var k :| 0 <= k < |s| && s[k] == e;
        if k > 0 {
          assert NotAbove(cmp, s[0], s[k]);
          LessThenNotGreater(cmp, x, s[0], e);
        }
      }
      ConsSorted(x, s, cmp);
    } else {
      var t := Insert(x, s[1..], cmp);
      SortedTail(s, cmp);
      InsertSorted(x, s[1..], cmp);
      Flip(cmp, s[0], x);
      assert Insert(x, s, cmp) == [s[0]] + t;
      forall e | e in t ensures NotAbove(cmp, s[0], e) {
        assert e in multiset(t);
        assert e == x || e in multiset(s[1..]);
        if e != x {
          var k :| 0 <= k < |s[1..]| && s[1..][k] == e;
          assert s[k + 1] == e;
        }
      }
      ConsSorted(s[0], t, cmp);
    }
  }

  /** A sorted list stays sorted behind an element that is not above any of its elements. */
  lemma ConsSorted<T>(h: T, t: seq<T>, cmp: (T, T) -> int)
    requires Sorted(t, cmp)
    requires forall e :: e in t ==> NotAbove(cmp, h, e)
    ensures Sorted([h] + t, cmp)
  {
    var r := [h] + t;
    forall i, j | 0 <= i < j < |r| ensures NotAbove(cmp, r[i], r[j]) {
      assert r[j] == t[j - 1];
      if i > 0 {
        assert r[i] == t[i - 1];
      }
    }
  }

  lemma {:induction false} SortSorted<T(!new)>(s: seq<T>, cmp: (T, T) -> int)
    requires ValidComparator(cmp)
    ensures Sorted(SortBy(s, cmp), cmp)
  {
    if s != [] {
      SortSorted(s[..|s| - 1], cmp);
      InsertSorted(s[|s| - 1], SortBy(s[..|s| - 1], cmp), cmp);
    }
  }

  lemma NotTied<T(!new)>(cmp: (T, T) -> int, x: T, y: T, e: T)
    requires ValidComparator(cmp)
    requires cmp(x, y) == 0 && cmp(x, e) != 0
    ensures cmp(e, y) != 0
  {
    Flip(cmp, x, y);
    Flip(cmp, e, y);
    Flip(cmp, x, e);
    assert ChainsAt(cmp, x, y, e) && ChainsAt(cmp, e, y, x);
  }

  lemma {:induction false} InsertKeepsTies<T(!new)>(x: T, s: seq<T>, cmp: (T, T) -> int, y: T)
    requires ValidComparator(cmp) && Sorted(s, cmp)
    ensures Filter(Insert(x, s, cmp), TiedWith(cmp, y))
         == Filter(s, TiedWith(cmp, y)) + (if cmp(x, y) == 0 then [x] else [])
  {
    var tied := TiedWith(cmp, y);
    var hx := if cmp(x, y) == 0 then [x] else [];
    if s == [] {
      assert Insert(x, s, cmp) == [x];
      assert Filter([x], tied) == hx + Filter([x][1..], tied);
    } else if cmp(x, s[0]) < 0 {
      InsertFrontTies(x, s, cmp, y);
    } else {
      var t := s[1..];
      var ins := Insert(x, t, cmp);
      var h0 := if tied(s[0]) then [s[0]] else [];
      SortedTail(s, cmp);
      InsertKeepsTies(x, t, cmp, y);
      assert Insert(x, s, cmp) == [s[0]] + ins;
      assert ([s[0]] + ins)[0] == s[0] && ([s[0]] + ins)[1..] == ins;
      assert Filter([s[0]] + ins, tied) == h0 + Filter(ins, tied);
      assert Filter(s, tied) == h0 + Filter(t, tied);
      ConcatAssoc(h0, Filter(t, tied), hx, []);
    }
  }

  /** Inserting in front of a sorted list adds x to the front of its ties. */
  lemma InsertFrontTies<T(!new)>(x: T, s: seq<T>, cmp: (T, T) -> int, y: T)
    requires ValidComparator(cmp) && Sorted(s, cmp) && s != [] && cmp(x, s[0]) < 0
    ensures Filter(Insert(x, s, cmp), TiedWith(cmp, y))
         == Filter(s, TiedWith(cmp, y)) + (if cmp(x, y) == 0 then [x] else [])
  {
    var tied := TiedWith(cmp, y);
    var hx := if cmp(x, y) == 0 then [x] else [];
    assert Insert(x, s, cmp) == [x] + s;
    assert ([x] + s)[0] == x && ([x] + s)[1..] == s;
    assert Filter([x] + s, tied) == hx + Filter(s, tied);
    if cmp(x, y) == 0 {
      forall e | e in s ensures !tied(e) {
        var k :| 0 <= k < |s| && s[k] == e;
        if k > 0 { LessThenNotGreater(cmp, x, s[0], e); }
        NotTied(cmp, x, y, e);
      }
      FilterNone(s, tied);
      assert Filter(Insert(x, s, cmp), tied) == [x];
    } else {
      assert Filter(Insert(x, s, cmp), tied) == Filter(s, tied);
    }
  }

  /** Stability: the elements tied with any y keep their relative order. */
  lemma {:induction false} SortStable<T(!new)>(s: seq<T>, cmp: (T, T) -> int, y: T)
    requires ValidComparator(cmp)
    ensures Filter(SortBy(s, cmp), TiedWith(cmp, y)) == Filter(s, TiedWith(cmp, y))
  {
    if s != [] {
      var init, last := s[..|s| - 1], s[|s| - 1];
      var tied := TiedWith(cmp, y);
      var sorted := SortBy(init, cmp);
      assert SortBy(s, cmp) == Insert(last, sorted, cmp);
      SortStable(init, cmp, y);
      SortSorted(init, cmp);
      InsertKeepsTies(last, sorted, cmp, y);
      FilterSnoc(s, tied);
    }
  }

  lemma {:induction false} FilterInsert<T(!new)>(x: T, s: seq<T>, cmp: (T, T) -> int, p: T -> bool)
    requires ValidComparator(cmp) && Sorted(s, cmp)
    ensures Filter(Insert(x, s, cmp), p) == if p(x) then Insert(x, Filter(s, p), cmp) else Filter(s, p)
  {
    if s == [] {
    } else if cmp(x, s[0]) < 0 {
      var f := Filter(s, p);
      assert Insert(x, s, cmp) == [x] + s;
      assert ([x] + s)[0] == x && ([x] + s)[1..] == s;
      assert Filter([x] + s, p) == (if p(x) then [x] else []) + f;
      if p(x) {
        if f == [] {
          assert Insert(x, f, cmp) == [x];
        } else {
          FilterMembers(s, p);
          assert f[0] in s;
          var k :| 0 <= k < |s| && s[k] == f[0];
          if k > 0 { LessThenNotGreater(cmp, x, s[0], f[0]); }
          assert Insert(x, f, cmp) == [x] + f;
        }
      } else {
        assert Filter([x] + s, p) == f;
      }
    } else {
      var t := s[1..];
      SortedTail(s, cmp);
      FilterInsert(x, t, cmp, p);
      var ins := Insert(x, t, cmp);
      assert Insert(x, s, cmp) == [s[0]] + ins;
      assert ([s[0]] + ins)[1..] == ins;
      assert Filter([s[0]] + ins, p) == (if p(s[0]) then [s[0]] else []) + Filter(ins, p);
      assert Filter(s, p) == (if p(s[0]) then [s[0]] else []) + Filter(t, p);
      if p(s[0]) {
        var f := Filter(t, p);
        assert Filter(s, p) == [s[0]] + f;
        assert Filter(Insert(x, s, cmp), p) == [s[0]] + Filter(ins, p);
        if p(x) {
          assert ([s[0]] + f)[0] == s[0] && ([s[0]] + f)[1..] == f;
          assert Insert(x, [s[0]] + f, cmp) == [s[0]] + Insert(x, f, cmp);
        }
      } else {
        assert Filter(s, p) == Filter(t, p);
        assert Filter(Insert(x, s, cmp), p) == Filter(ins, p);
      }
    }
  }

  /** Filtering a sorted list gives the same list as sorting the filtered one. */
  lemma {:induction false} FilterSortCommute<T(!new)>(s: seq<T>, cmp: (T, T) -> int, p: T -> bool)
    requires ValidComparator(cmp)
    ensures Filter(SortBy(s, cmp), p) == SortBy(Filter(s, p), cmp)
  {
    if s != [] {
      var init, last := s[..|s| - 1], s[|s| - 1];
      var sorted := SortBy(init, cmp);
      var fi := Filter(init, p);
      SortBySnoc(s, cmp);
      FilterSortCommute(init, cmp, p);
      SortSorted(init, cmp);
      FilterInsert(last, sorted, cmp, p);
      FilterSnoc(s, p);
      if p(last) {
        var f := fi + [last];
        assert f[..|f| - 1] == fi && f[|f| - 1] == last;
        SortBySnoc(f, cmp);
      } else {
        assert Filter(s, p) == fi;
        assert Filter(SortBy(s, cmp), p) == Filter(sorted, p);
      }
    }
  }

  lemma SortBySnoc<T>(s: seq<T>, cmp: (T, T) -> int)
    requires s != []
    ensures SortBy(s, cmp) == Insert(s[|s| - 1], SortBy(s[..|s| - 1], cmp), cmp)
  {
  }

  /** Sorting one more element of `s` inserts it into the sorted prefix. */
  lemma SortByPrefix<T>(s: seq<T>, i: nat, cmp: (T, T) -> int)
    requires i < |s|
    ensures SortBy(s[..i + 1], cmp) == Insert(s[i], SortBy(s[..i], cmp), cmp)
  {
    assert s[..i + 1][..i] == s[..i] && s[..i + 1][i] == s[i];
    SortBySnoc(s[..i + 1], cmp);
  }

  /** Inserting before the first element that `x` compares below. */
  lemma {:induction false} InsertAt<T>(x: T, s: seq<T>, cmp: (T, T) -> int, j: nat)
    requires j <= |s|
    requires forall k :: 0 <= k < j ==> cmp(x, s[k]) >= 0
    requires j < |s| ==> cmp(x, s[j]) < 0
    ensures Insert(x, s, cmp) == s[..j] + [x] + s[j..]
    decreases j
  {
    if j == 0 {
      InsertFront(x, s, cmp);
    } else {
      var t := s[1..];
      forall k | 0 <= k < j - 1 ensures cmp(x, t[k]) >= 0 {
        assert t[k] == s[k + 1];
      }
      if j - 1 < |t| {
        assert t[j - 1] == s[j];
      }
      InsertAt(x, t, cmp, j - 1);
      assert cmp(x, s[0]) >= 0;
      InsertPast(x, s, cmp, j);
    }
  }

  lemma InsertFront<T>(x: T, s: seq<T>, cmp: (T, T) -> int)
    requires s != [] ==> cmp(x, s[0]) < 0
    ensures Insert(x, s, cmp) == [x] + s
  {
  }

  lemma InsertPast<T>(x: T, s: seq<T>, cmp: (T, T) -> int, j: nat)
    requires 0 < j <= |s| && cmp(x, s[0]) >= 0
    requires Insert(x, s[1..], cmp) == s[1..][..j - 1] + [x] + s[1..][j - 1..]
    ensures Insert(x, s, cmp) == s[..j] + [x] + s[j..]
  {
    var h, a, b := [s[0]], s[1..][..j - 1], s[1..][j - 1..];
    assert Insert(x, s, cmp) == h + (a + [x] + b);
    assert s[..j] == h + a;
    assert s[j..] == b;
    ConcatAssoc(h, a, [x], b);
  }

  lemma ConcatAssoc<T>(h: seq<T>, a: seq<T>, m: seq<T>, b: seq<T>)
    ensures h + (a + m + b) == (h + a) + m + b
  {
  }
}
