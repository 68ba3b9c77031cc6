/** Stable insertion sort by a strict order, as the library sorts of the modelled programs behave. */
module Sorting {
  /** `before` is a strict order in which being incomparable is transitive. */
  ghost predicate Order<T(!new)>(before: (T, T) -> bool) {
    && (forall a: T, b: T :: before(a, b) ==> !before(b, a))
    && (forall a: T, b: T, c: T :: !before(b, a) && !before(c, b) ==> !before(c, a))
  }

  /** `x` behind everything it does not come before. */
  function Insert<T>(before: (T, T) -> bool, s: seq<T>, x: T): seq<T> {
    if s == [] || !before(x, s[|s| - 1]) then s + [x] else Insert(before, s[..|s| - 1], x) + [s[|s| - 1]]
  }

  function Sort<T>(before: (T, T) -> bool, s: seq<T>): seq<T> {
    if s == [] then [] else Insert(before, Sort(before, s[..|s| - 1]), s[|s| - 1])
  }

  ghost predicate Sorted<T>(before: (T, T) -> bool, s: seq<T>) {
    forall i, j :: 0 <= i < j < |s| ==> !before(s[j], s[i])
  }

  lemma {:induction false} InsertKeepsElements<T>(before: (T, T) -> bool, s: seq<T>, x: T)
    ensures multiset(Insert(before, s, x)) == multiset(s) + multiset{x}
    ensures forall y :: y in Insert(before, s, x) <==> y in s || y == x
    decreases |s|
  {
    if s != [] && before(x, s[|s| - 1]) {
      InsertKeepsElements(before, s[..|s| - 1], x);
      assert s == s[..|s| - 1] + [s[|s| - 1]];
    }
  }

  lemma {:induction false} InsertKeepsSorted<T(!new)>(before: (T, T) -> bool, s: seq<T>, x: T)
    requires Order(before) && Sorted(before, s)
    ensures Sorted(before, Insert(before, s, x))
    decreases |s|
  {
    if s != [] {
      var front, last := s[..|s| - 1], s[|s| - 1];
      if before(x, last) {
        InsertKeepsSorted(before, front, x);
        InsertKeepsElements(before, front, x);
        forall y <- Insert(before, front, x) ensures !before(last, y) {
        }
      } else {
        forall y <- s ensures !before(x, y) {
        }
      }
    }
  }

  /** The sort loses and invents nothing. */
  lemma {:induction false} SortKeepsElements<T>(before: (T, T) -> bool, s: seq<T>)
    ensures multiset(Sort(before, s)) == multiset(s)
    ensures forall y :: y in Sort(before, s) <==> y in s
    decreases |s|
  {
    if s != [] {
      SortKeepsElements(before, s[..|s| - 1]);
      InsertKeepsElements(before, Sort(before, s[..|s| - 1]), s[|s| - 1]);
      assert s == s[..|s| - 1] + [s[|s| - 1]];
    }
  }

  /** The sort sorts. */
  lemma {:induction false} SortSorts<T(!new)>(before: (T, T) -> bool, s: seq<T>)
    requires Order(before)
    ensures Sorted(before, Sort(before, s))
    decreases |s|
  {
    if s != [] {
      SortSorts(before, s[..|s| - 1]);
      InsertKeepsSorted(before, Sort(before, s[..|s| - 1]), s[|s| - 1]);
    }
  }

  // One order.

  /** Any two different elements can be told apart by the order. */
  ghost predicate Comparable<T>(before: (T, T) -> bool, m: multiset<T>) {
    forall a, b :: a in m && b in m && a != b ==> before(a, b) || before(b, a)
  }

  lemma NotEmpty<T>(s: seq<T>)
    ensures s != [] ==> multiset(s) != multiset{}
  {
    if s != [] {
      assert s[0] in multiset(s);
    }
  }

  lemma SameFirst<T>(before: (T, T) -> bool, a: seq<T>, b: seq<T>)
    requires Sorted(before, a) && Sorted(before, b) && multiset(a) == multiset(b)
    requires Comparable(before, multiset(a)) && a != [] && b != []
    ensures a[0] == b[0]
  {
    assert a[0] in multiset(b) && b[0] in multiset(a);
    var i :| 0 <= i < |b| && b[i] == a[0];
    var j :| 0 <= j < |a| && a[j] == b[0];
    assert i > 0 ==> !before(a[0], b[0]);
    assert j > 0 ==> !before(b[0], a[0]);
  }

  lemma Tail<T>(before: (T, T) -> bool, s: seq<T>)
    requires s != []
    ensures multiset(s[1..]) == multiset(s) - multiset{s[0]}
    ensures Comparable(before, multiset(s)) ==> Comparable(before, multiset(s[1..]))
    ensures s == [s[0]] + s[1..]
  {
    assert s == [s[0]] + s[1..];
    assert multiset(s) == multiset{s[0]} + multiset(s[1..]);
    forall x <- multiset(s[1..]) ensures x in multiset(s) {
    }
  }

  /** There is one way to sort elements that can be told apart. */
  lemma {:induction false} OneSortedOrder<T>(before: (T, T) -> bool, a: seq<T>, b: seq<T>)
    requires Sorted(before, a) && Sorted(before, b) && multiset(a) == multiset(b) && Comparable(before, multiset(a))
    ensures a == b
    decreases |a|
  {
    NotEmpty(a);
    NotEmpty(b);
    if a != [] {
      SameFirst(before, a, b);
      Tail(before, a);
      Tail(before, b);
      OneSortedOrder(before, a[1..], b[1..]);
    }
  }

  // A sorted beginning.

  lemma {:induction false} InsertBehind<T>(before: (T, T) -> bool, base: seq<T>, s: seq<T>, x: T)
    requires forall y <- base :: !before(x, y)
    ensures Insert(before, base + s, x) == base + Insert(before, s, x)
    decreases |s|
  {
    var all := base + s;
    if s == [] {
      assert all == base;
    } else if !before(x, s[|s| - 1]) {
      assert all + [x] == base + (s + [x]);
    } else {
      InsertBehind(before, base, s[..|s| - 1], x);
      assert all[..|all| - 1] == base + s[..|s| - 1];
      assert (base + Insert(before, s[..|s| - 1], x)) + [s[|s| - 1]] == base + Insert(before, s, x);
    }
  }

  lemma {:induction false} SortedIsFixed<T>(before: (T, T) -> bool, s: seq<T>)
    requires Sorted(before, s)
    ensures Sort(before, s) == s
    decreases |s|
  {
    if s != [] {
      var front, last := s[..|s| - 1], s[|s| - 1];
      SortedIsFixed(before, front);
      assert front != [] ==> front[|front| - 1] == s[|s| - 2] && !before(last, s[|s| - 2]);
      assert Insert(before, front, last) == front + [last];
      assert s == front + [last];
    }
  }

  /** Sorting behind a sorted beginning leaves the beginning alone. */
  lemma {:induction false} SortBehind<T>(before: (T, T) -> bool, base: seq<T>, s: seq<T>)
    requires Sorted(before, base) && forall x, y :: x in s && y in base ==> !before(x, y)
    ensures Sort(before, base + s) == base + Sort(before, s)
    decreases |s|
  {
    if s == [] {
      SortedIsFixed(before, base);
      assert base + s == base && base + [] == base;
    } else {
      var front, last := s[..|s| - 1], s[|s| - 1];
      assert last in s && forall x <- front :: x in s;
      SortBehind(before, base, front);
      assert (base + s)[..|base + s| - 1] == base + front;
      InsertBehind(before, base, Sort(before, front), last);
    }
  }

  // Filtering.

  function Keep<T>(p: T -> bool, s: seq<T>): seq<T> {
    if s == [] then []
    else if p(s[|s| - 1]) then Keep(p, s[..|s| - 1]) + [s[|s| - 1]]
    else Keep(p, s[..|s| - 1])
  }

  lemma {:induction false} KeptAre<T>(p: T -> bool, s: seq<T>)
    ensures forall x :: x in Keep(p, s) <==> x in s && p(x)
    decreases |s|
  {
    if s != [] {
      KeptAre(p, s[..|s| - 1]);
      assert s == s[..|s| - 1] + [s[|s| - 1]];
    }
  }

  lemma KeepOneMore<T>(p: T -> bool, s: seq<T>, x: T)
    ensures p(x) ==> Keep(p, s + [x]) == Keep(p, s) + [x]
    ensures !p(x) ==> Keep(p, s + [x]) == Keep(p, s)
  {
    assert (s + [x])[..|s|] == s && (s + [x])[|s|] == x;
  }

  lemma {:induction false} KeepCounts<T>(p: T -> bool, s: seq<T>, x: T)
    ensures multiset(Keep(p, s))[x] == if p(x) then multiset(s)[x] else 0
    decreases |s|
  {
    if s != [] {
      KeepCounts(p, s[..|s| - 1], x);
      assert s == s[..|s| - 1] + [s[|s| - 1]];
    }
  }

  lemma {:induction false} KeepAppend<T>(p: T -> bool, a: seq<T>, b: seq<T>)
    ensures Keep(p, a + b) == Keep(p, a) + Keep(p, b)
    decreases |b|
  {
    if b == [] {
      assert a + b == a;
    } else {
      var front, last := b[..|b| - 1], b[|b| - 1];
      KeepAppend(p, a, front);
      assert a + b == (a + front) + [last];
      KeepOneMore(p, a + front, last);
    }
  }

  lemma InsertAtEnd<T>(before: (T, T) -> bool, s: seq<T>, x: T)
    requires forall y <- s :: !before(x, y)
    ensures Insert(before, s, x) == s + [x]
  {
  }

  lemma InsertBefore<T>(before: (T, T) -> bool, s: seq<T>, last: T, x: T)
    requires before(x, last)
    ensures Insert(before, s + [last], x) == Insert(before, s, x) + [last]
  {
    assert (s + [last])[..|s|] == s;
  }

  lemma SortOneMore<T>(before: (T, T) -> bool, s: seq<T>, x: T)
    ensures Sort(before, s + [x]) == Insert(before, Sort(before, s), x)
  {
    assert (s + [x])[..|s|] == s && (s + [x])[|s|] == x;
  }

  /** Behind the last of a sorted sequence means behind all of it. */
  lemma BehindAll<T(!new)>(before: (T, T) -> bool, s: seq<T>, x: T)
    requires Order(before) && Sorted(before, s) && (s == [] || !before(x, s[|s| - 1]))
    ensures forall y <- s :: !before(x, y)
  {
    forall y <- s ensures !before(x, y) {
      assert y == s[|s| - 1] || !before(s[|s| - 1], y);
    }
  }

  lemma KeepInsertAtEnd<T(!new)>(p: T -> bool, before: (T, T) -> bool, s: seq<T>, x: T)
    requires forall y <- s :: !before(x, y)
    ensures Keep(p, Insert(before, s, x)) == if p(x) then Insert(before, Keep(p, s), x) else Keep(p, s)
  {
    KeptAre(p, s);
    InsertAtEnd(before, s, x);
    InsertAtEnd(before, Keep(p, s), x);
    KeepOneMore(p, s, x);
  }

  lemma KeepInsertBefore<T>(p: T -> bool, before: (T, T) -> bool, front: seq<T>, last: T, x: T)
    requires before(x, last)
    requires Keep(p, Insert(before, front, x)) == if p(x) then Insert(before, Keep(p, front), x) else Keep(p, front)
    ensures Keep(p, Insert(before, front + [last], x))
      == if p(x) then Insert(before, Keep(p, front + [last]), x) else Keep(p, front + [last])
  {
    InsertBefore(before, front, last, x);
    KeepOneMore(p, Insert(before, front, x), last);
    KeepOneMore(p, front, last);
    InsertBefore(before, Keep(p, front), last, x);
  }

  /** Inserting and filtering commute on a sorted sequence. */
  lemma {:induction false} KeepInsert<T(!new)>(p: T -> bool, before: (T, T) -> bool, s: seq<T>, x: T)
    requires Order(before) && Sorted(before, s)
    ensures Keep(p, Insert(before, s, x)) == if p(x) then Insert(before, Keep(p, s), x) else Keep(p, s)
    decreases |s|
  {
    if s == [] || !before(x, s[|s| - 1]) {
      BehindAll(before, s, x);
      KeepInsertAtEnd(p, before, s, x);
    } else {
      KeepInsert(p, before, s[..|s| - 1], x);
      KeepInsertBefore(p, before, s[..|s| - 1], s[|s| - 1], x);
      assert s[..|s| - 1] + [s[|s| - 1]] == s;
    }
  }

  lemma KeepSortedOneMore<T(!new)>(p: T -> bool, before: (T, T) -> bool, front: seq<T>, last: T)
    requires Order(before) && Keep(p, Sort(before, front)) == Sort(before, Keep(p, front))
    ensures Keep(p, Sort(before, front + [last])) == Sort(before, Keep(p, front + [last]))
  {
    SortSorts(before, front);
    SortOneMore(before, front, last);
    KeepInsert(p, before, Sort(before, front), last);
    KeepOneMore(p, front, last);
    SortOneMore(before, Keep(p, front), last);
  }

  /** A stable sort and a filter commute. */
  lemma {:induction false} KeepSorted<T(!new)>(p: T -> bool, before: (T, T) -> bool, s: seq<T>)
    requires Order(before)
    ensures Keep(p, Sort(before, s)) == Sort(before, Keep(p, s))
    decreases |s|
  {
    if s != [] {
      KeepSorted(p, before, s[..|s| - 1]);
      KeepSortedOneMore(p, before, s[..|s| - 1], s[|s| - 1]);
      assert s[..|s| - 1] + [s[|s| - 1]] == s;
    }
  }

  /** Elements the order cannot tell apart stay in the order they had. */
  lemma SortIsStable<T(!new)>(p: T -> bool, before: (T, T) -> bool, s: seq<T>)
    requires Order(before)
    requires forall x <- s, y <- s :: p(x) && p(y) ==> !before(x, y)
    ensures Keep(p, Sort(before, s)) == Keep(p, s)
  {
    KeepSorted(p, before, s);
    KeptAre(p, s);
    forall i, j | 0 <= i < j < |Keep(p, s)| ensures !before(Keep(p, s)[j], Keep(p, s)[i]) {
      assert Keep(p, s)[i] in Keep(p, s) && Keep(p, s)[j] in Keep(p, s);
    }
    SortedIsFixed(before, Keep(p, s));
  }

  /** Something that comes after nothing is sorted to the front if it stands there. */
  lemma SortFirst<T>(before: (T, T) -> bool, x: T, s: seq<T>)
    requires !before(x, x) && forall y <- s :: !before(y, x)
    ensures Sort(before, [x] + s) == [x] + Sort(before, s)
  {
    SortBehind(before, [x], s);
  }

  lemma NoneBefore<T(!new)>(before: (T, T) -> bool, s: seq<T>, x: T)
    requires forall y <- s :: !before(x, y)
    ensures forall y <- Sort(before, s) :: !before(x, y)
  {
    SortKeepsElements(before, s);
    var sorted := Sort(before, s);
    forall i | 0 <= i < |sorted| ensures sorted[i] in s && !before(x, sorted[i]) {
      assert sorted[i] in sorted;
    }
  }

  /** Something that comes before nothing is sorted to the end if it stands there. */
  lemma SortLast<T(!new)>(before: (T, T) -> bool, s: seq<T>, x: T)
    requires forall y <- s :: !before(x, y)
    ensures Sort(before, s + [x]) == Sort(before, s) + [x]
  {
    SortOneMore(before, s, x);
    NoneBefore(before, s, x);
    InsertAtEnd(before, Sort(before, s), x);
  }
}
