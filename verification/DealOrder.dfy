/**
 * When the order in which the terminal lists its deals shows in a trade of
 * Mt5Terminal.get_history (mt5_terminal.py).
 */
module DealOrder {
  import opened Sorting
  import opened Wrappers
  import opened DealHistory

  /** `d` may be the first entry of position `id`: no entry of it has a smaller key. */
  ghost predicate FirstEntry(deals: seq<Deal>, id: int, d: Deal) {
    && d in deals && d.position == id && IsEntry(d)
    && forall e <- deals :: e.position == id && IsEntry(e) ==> !Before(e, d)
  }

  /** `d` may be the last exit: no exit has a larger key. */
  ghost predicate LastExit(deals: seq<Deal>, id: int, d: Deal) {
    && d in deals && d.position == id && IsExit(d)
    && forall e <- deals :: e.position == id && IsExit(e) ==> !Before(d, e)
  }

  /** Tied first entries agree on what a trade takes from its first entry, tied last exits likewise. */
  ghost predicate TiesAgree(deals: seq<Deal>, id: int) {
    && (forall d, e :: FirstEntry(deals, id, d) && FirstEntry(deals, id, e) ==>
          d.symbol == e.symbol && d.buy == e.buy && d.time == e.time)
    && (forall d, e :: LastExit(deals, id, d) && LastExit(deals, id, e) ==> d.time == e.time && d.reason == e.reason)
  }

  /** Every listing of the same deals gives the same trade. */
  ghost predicate ListingDoesNotShow(deals: seq<Deal>, id: int) {
    forall other: seq<Deal> :: multiset(other) == multiset(deals) ==> TradeIn(other, id) == TradeIn(deals, id)
  }

  // Sums do not depend on the order.

  lemma SumOneMore(c: Column, s: seq<Deal>, d: Deal)
    ensures Sum(c, s + [d]) == Sum(c, s) + Amount(c, d)
  {
    assert (s + [d])[..|s|] == s;
  }

  function Without(s: seq<Deal>, i: nat): seq<Deal>
    requires i < |s|
  {
    s[..i] + s[i + 1..]
  }

  lemma {:induction false} SumWithout(c: Column, s: seq<Deal>, i: nat)
    requires i < |s|
    ensures Sum(c, s) == Sum(c, Without(s, i)) + Amount(c, s[i])
    decreases |s|
  {
    var front, last := s[..|s| - 1], s[|s| - 1];
    if i == |s| - 1 {
      assert Without(s, i) == front;
    } else {
      SumWithout(c, front, i);
      assert Without(s, i) == Without(front, i) + [last];
      SumOneMore(c, Without(front, i), last);
    }
  }

  lemma WithoutKeeps(s: seq<Deal>, i: nat)
    requires i < |s|
    ensures multiset(Without(s, i)) == multiset(s) - multiset{s[i]}
  {
    assert s == s[..i] + [s[i]] + s[i + 1..];
  }

  /** Where the last of one listing stands in another. */
  lemma LastFound(s: seq<Deal>, t: seq<Deal>) returns (i: nat)
    requires s != [] && multiset(s) == multiset(t)
    ensures i < |t| && t[i] == s[|s| - 1] && multiset(Without(t, i)) == multiset(s[..|s| - 1])
  {
    var last := s[|s| - 1];
    assert last in multiset(t);
    i :| 0 <= i < |t| && t[i] == last;
    assert s == s[..|s| - 1] + [last];
    WithoutKeeps(t, i);
  }

  lemma {:induction false} SumOfSame(c: Column, s: seq<Deal>, t: seq<Deal>)
    requires multiset(s) == multiset(t)
    ensures Sum(c, s) == Sum(c, t)
    decreases |s|
  {
    if s == [] {
      NotEmpty(t);
    } else {
      var i := LastFound(s, t);
      SumOfSame(c, s[..|s| - 1], Without(t, i));
      SumWithout(c, t, i);
    }
  }

  // Two listings of the same deals.

  lemma SameMembers(a: seq<Deal>, b: seq<Deal>)
    requires multiset(a) == multiset(b)
    ensures forall d :: d in a <==> d in b
  {
    forall d ensures d in a <==> d in b {
      assert d in a <==> d in multiset(a);
      assert d in b <==> d in multiset(b);
    }
  }

  lemma SameGroups(a: seq<Deal>, b: seq<Deal>, id: int)
    requires multiset(a) == multiset(b)
    ensures multiset(Sort(Before, GroupOf(a, id))) == multiset(Sort(Before, GroupOf(b, id)))
  {
    SortKeepsElements(Before, GroupOf(a, id));
    SortKeepsElements(Before, GroupOf(b, id));
    forall d ensures multiset(GroupOf(a, id))[d] == multiset(GroupOf(b, id))[d] {
      GroupCounts(a, id, d);
      GroupCounts(b, id, d);
    }
  }

  lemma SameParts(s: seq<Deal>, t: seq<Deal>)
    requires multiset(s) == multiset(t)
    ensures multiset(Entries(s)) == multiset(Entries(t)) && multiset(Exits(s)) == multiset(Exits(t))
  {
    forall d
      ensures multiset(Entries(s))[d] == multiset(Entries(t))[d]
      ensures multiset(Exits(s))[d] == multiset(Exits(t))[d]
    {
      KeepCounts(IsEntry, s, d);
      KeepCounts(IsEntry, t, d);
      KeepCounts(IsExit, s, d);
      KeepCounts(IsExit, t, d);
    }
  }

  /** What a trade does not take from its first entry and last exit is the same for every listing. */
  ghost predicate SameTotals(t: Trade, u: Trade) {
    u == t.(symbol := u.symbol, buy := u.buy, openedAt := u.openedAt, closedAt := u.closedAt, reason := u.reason)
  }

  lemma VwapOfSame(s: seq<Deal>, t: seq<Deal>)
    requires multiset(s) == multiset(t)
    ensures Vwap(s) == Vwap(t)
  {
    SumOfSame(Volume, s, t);
    SumOfSame(Turnover, s, t);
  }

  lemma TotalsAreSame(a: seq<Deal>, b: seq<Deal>, id: int)
    requires multiset(a) == multiset(b) && TradeIn(a, id).Some? && TradeIn(b, id).Some?
    ensures SameTotals(TradeIn(a, id).value, TradeIn(b, id).value)
  {
    var s, t := Sort(Before, GroupOf(a, id)), Sort(Before, GroupOf(b, id));
    SameGroups(a, b, id);
    SameParts(s, t);
    VwapOfSame(Entries(s), Entries(t));
    VwapOfSame(Exits(s), Exits(t));
    SumOfSame(Volume, Exits(s), Exits(t));
    SumOfSame(Profit, s, t);
    SumOfSame(Commission, s, t);
    SumOfSame(Swap, s, t);
    TradeIsOf(a, id);
    TradeIsOf(b, id);
  }

  lemma SameTraded(a: seq<Deal>, b: seq<Deal>, id: int)
    requires multiset(a) == multiset(b)
    ensures TradeIn(a, id).Some? <==> TradeIn(b, id).Some?
  {
    SameMembers(a, b);
    TradedIffEnteredAndLeft(a, id);
    TradedIffEnteredAndLeft(b, id);
  }

  lemma SameEnds(a: seq<Deal>, b: seq<Deal>, id: int)
    requires multiset(a) == multiset(b)
    ensures forall d :: FirstEntry(a, id, d) <==> FirstEntry(b, id, d)
    ensures forall d :: LastExit(a, id, d) <==> LastExit(b, id, d)
  {
    SameMembers(a, b);
  }

  /** The first entry a trade is made from has no smaller one, the last exit no larger. */
  lemma EndsAre(deals: seq<Deal>, id: int) returns (first: Deal, last: Deal)
    requires TradeIn(deals, id).Some?
    ensures FirstEntry(deals, id, first) && LastExit(deals, id, last)
    ensures var t := TradeIn(deals, id).value;
      t.symbol == first.symbol && t.buy == first.buy && t.openedAt == first.time
      && t.closedAt == last.time && t.reason == last.reason
  {
    var ordered := Sort(Before, GroupOf(deals, id));
    var entries, exits := Entries(ordered), Exits(ordered);
    first, last := entries[0], exits[|exits| - 1];
    TimesAreOrdered();
    SortSorts(Before, GroupOf(deals, id));
    PartsAreSorted(ordered);
    InOrderedGroup(deals, id, first);
    InOrderedGroup(deals, id, last);
    FirstIsFirst(deals, id, first);
    LastIsLast(deals, id, last);
  }

  lemma FirstIsFirst(deals: seq<Deal>, id: int, first: Deal)
    requires var entries := Entries(Sort(Before, GroupOf(deals, id)));
      entries != [] && first == entries[0] && Sorted(Before, entries)
    ensures forall e <- deals :: e.position == id && IsEntry(e) ==> !Before(e, first)
  {
    var ordered := Sort(Before, GroupOf(deals, id));
    var entries := Entries(ordered);
    forall e <- deals | e.position == id && IsEntry(e) ensures !Before(e, first) {
      InOrderedGroup(deals, id, e);
      EntryKept(ordered, e);
      var i :| 0 <= i < |entries| && entries[i] == e;
    }
  }

  lemma LastIsLast(deals: seq<Deal>, id: int, last: Deal)
    requires var exits := Exits(Sort(Before, GroupOf(deals, id)));
      exits != [] && last == exits[|exits| - 1] && Sorted(Before, exits)
    ensures forall e <- deals :: e.position == id && IsExit(e) ==> !Before(last, e)
  {
    var ordered := Sort(Before, GroupOf(deals, id));
    var exits := Exits(ordered);
    forall e <- deals | e.position == id && IsExit(e) ensures !Before(last, e) {
      InOrderedGroup(deals, id, e);
      EntryKept(ordered, e);
      var i :| 0 <= i < |exits| && exits[i] == e;
    }
  }

  lemma AgreeingTiesDoNotShow(deals: seq<Deal>, id: int, other: seq<Deal>)
    requires multiset(other) == multiset(deals) && TradeIn(deals, id).Some? && TiesAgree(deals, id)
    ensures TradeIn(other, id) == TradeIn(deals, id)
  {
    SameTraded(deals, other, id);
    TotalsAreSame(deals, other, id);
    SameEnds(deals, other, id);
    var d, x := EndsAre(deals, id);
    var e, y := EndsAre(other, id);
  }

  // Listings that bring out a tied deal.

  lemma {:induction false} GroupAppend(a: seq<Deal>, b: seq<Deal>, id: int)
    ensures GroupOf(a + b, id) == GroupOf(a, id) + GroupOf(b, id)
    decreases |b|
  {
    if b == [] {
      assert a + b == a;
    } else {
      var front, last := b[..|b| - 1], b[|b| - 1];
      GroupAppend(a, front, id);
      assert (a + b)[..|a + b| - 1] == a + front;
    }
  }

  lemma GroupOfOne(d: Deal)
    ensures GroupOf([d], d.position) == [d]
  {
    assert [d][..0] == [];
  }

  lemma KeepOne(p: Deal -> bool, d: Deal)
    requires p(d)
    ensures Keep(p, [d]) == [d]
  {
    assert [d][..0] == [];
  }

  lemma EntriesWithFirst(d: Deal, rest: seq<Deal>)
    requires IsEntry(d)
    ensures Entries(Sort(Before, GroupOf([d] + rest, d.position)))
      == Sort(Before, [d] + Keep(IsEntry, GroupOf(rest, d.position)))
  {
    var group := GroupOf(rest, d.position);
    GroupAppend([d], rest, d.position);
    GroupOfOne(d);
    TimesAreOrdered();
    KeepSorted(IsEntry, Before, [d] + group);
    KeepAppend(IsEntry, [d], group);
    KeepOne(IsEntry, d);
  }

  /** Listed first, a possible first entry is the first entry. */
  lemma ListedFirst(d: Deal, rest: seq<Deal>)
    requires IsEntry(d) && forall e <- rest :: e.position == d.position && IsEntry(e) ==> !Before(e, d)
    ensures var entries := Entries(Sort(Before, GroupOf([d] + rest, d.position))); entries != [] && entries[0] == d
  {
    var group := GroupOf(rest, d.position);
    EntriesWithFirst(d, rest);
    GroupIsOf(rest, d.position);
    KeptAre(IsEntry, group);
    SortFirst(Before, d, Keep(IsEntry, group));
  }

  lemma ExitsWithLast(rest: seq<Deal>, d: Deal)
    requires IsExit(d)
    ensures Exits(Sort(Before, GroupOf(rest + [d], d.position)))
      == Sort(Before, Keep(IsExit, GroupOf(rest, d.position)) + [d])
  {
    var group := GroupOf(rest, d.position);
    GroupAppend(rest, [d], d.position);
    GroupOfOne(d);
    TimesAreOrdered();
    KeepSorted(IsExit, Before, group + [d]);
    KeepAppend(IsExit, group, [d]);
    KeepOne(IsExit, d);
  }

  /** Listed last, a possible last exit is the last exit. */
  lemma ListedLast(rest: seq<Deal>, d: Deal)
    requires IsExit(d) && forall e <- rest :: e.position == d.position && IsExit(e) ==> !Before(d, e)
    ensures var exits := Exits(Sort(Before, GroupOf(rest + [d], d.position)));
      exits != [] && exits[|exits| - 1] == d
  {
    var group := GroupOf(rest, d.position);
    ExitsWithLast(rest, d);
    GroupIsOf(rest, d.position);
    KeptAre(IsExit, group);
    SortLast(Before, Keep(IsExit, group), d);
  }

  lemma Picked(deals: seq<Deal>, d: Deal) returns (rest: seq<Deal>)
    requires d in deals
    ensures multiset([d] + rest) == multiset(deals) && multiset(rest + [d]) == multiset(deals)
    ensures forall e <- rest :: e in deals
  {
    var i :| 0 <= i < |deals| && deals[i] == d;
    rest := Without(deals, i);
    WithoutKeeps(deals, i);
  }

  lemma FirstEntryShows(deals: seq<Deal>, id: int, d: Deal) returns (other: seq<Deal>)
    requires TradeIn(deals, id).Some? && FirstEntry(deals, id, d)
    ensures multiset(other) == multiset(deals) && TradeIn(other, id).Some?
    ensures var t := TradeIn(other, id).value; t.symbol == d.symbol && t.buy == d.buy && t.openedAt == d.time
  {
    var rest := Picked(deals, d);
    other := [d] + rest;
    ListedFirst(d, rest);
    SameTraded(deals, other, id);
  }

  lemma LastExitShows(deals: seq<Deal>, id: int, d: Deal) returns (other: seq<Deal>)
    requires TradeIn(deals, id).Some? && LastExit(deals, id, d)
    ensures multiset(other) == multiset(deals) && TradeIn(other, id).Some?
    ensures var t := TradeIn(other, id).value; t.closedAt == d.time && t.reason == d.reason
  {
    var rest := Picked(deals, d);
    other := rest + [d];
    ListedLast(rest, d);
    SameTraded(deals, other, id);
  }

  lemma HiddenTiesAgree(deals: seq<Deal>, id: int)
    requires TradeIn(deals, id).Some? && ListingDoesNotShow(deals, id)
    ensures TiesAgree(deals, id)
  {
    var t := TradeIn(deals, id).value;
    forall d | FirstEntry(deals, id, d) ensures d.symbol == t.symbol && d.buy == t.buy && d.time == t.openedAt {
      var other := FirstEntryShows(deals, id, d);
    }
    forall d | LastExit(deals, id, d) ensures d.time == t.closedAt && d.reason == t.reason {
      var other := LastExitShows(deals, id, d);
    }
  }

  /**
   * Exactly when the order of the list does not show: every listing of the same deals
   * gives the same trade of a position if and only if there is no trade, or the entries
   * tied for the first agree on symbol, direction and time and the exits tied for the
   * last agree on time and reason.
   */
  lemma ListingDoesNotShowIff(deals: seq<Deal>, id: int)
    ensures ListingDoesNotShow(deals, id) <==> TradeIn(deals, id).None? || TiesAgree(deals, id)
  {
    if TradeIn(deals, id).None? {
      forall other: seq<Deal> | multiset(other) == multiset(deals) ensures TradeIn(other, id) == TradeIn(deals, id) {
        SameTraded(deals, other, id);
      }
    } else {
      if TiesAgree(deals, id) {
        forall other: seq<Deal> | multiset(other) == multiset(deals) ensures TradeIn(other, id) == TradeIn(deals, id) {
          AgreeingTiesDoNotShow(deals, id, other);
        }
      }
      if ListingDoesNotShow(deals, id) {
        HiddenTiesAgree(deals, id);
      }
    }
  }
}
