/**
 * Closed trades from the terminal's deals (Mt5Terminal.get_history in
 * mt5_terminal.py).  Decimal amounts are exact; position 0 is the terminal's mark for
 * a deal that belongs to no position.  A deal has its time in milliseconds, which orders
 * it, and in seconds, which is reported.
 */
module DealHistory {
  import opened Sorting
  import opened Wrappers

  datatype Entry = In | Out | InOut | OutBy | OtherEntry

  datatype Deal = Deal(position: int, timeMsc: int, time: int, ticket: int, entry: Entry, buy: bool, symbol: string,
                       reason: int, price: real, volume: real, profit: real, commission: real, swap: real)

  datatype Trade = Trade(position: int, symbol: string, buy: bool, lots: real, openPrice: real, closePrice: real,
                         openedAt: int, closedAt: int, reason: int, profit: real, commission: real, swap: real)

  // Order.

  predicate Before(a: Deal, b: Deal) {
    a.timeMsc < b.timeMsc || (a.timeMsc == b.timeMsc && a.ticket < b.ticket)
  }

  lemma TimesAreOrdered()
    ensures Order(Before)
  {
  }

  // Grouping.

  /** The deals of one position, in input order. */
  function GroupOf(deals: seq<Deal>, id: int): seq<Deal> {
    if deals == [] then []
    else GroupOf(deals[..|deals| - 1], id)
         + if deals[|deals| - 1].position == id then [deals[|deals| - 1]] else []
  }

  predicate IsEntry(d: Deal) { d.entry.In? || d.entry.InOut? }

  predicate IsExit(d: Deal) { d.entry.Out? || d.entry.OutBy? || d.entry.InOut? }

  function Entries(deals: seq<Deal>): (kept: seq<Deal>)
    ensures forall d <- kept :: d in deals && IsEntry(d)
  {
    KeptAre(IsEntry, deals);
    Keep(IsEntry, deals)
  }

  function Exits(deals: seq<Deal>): (kept: seq<Deal>)
    ensures forall d <- kept :: d in deals && IsExit(d)
  {
    KeptAre(IsExit, deals);
    Keep(IsExit, deals)
  }

  datatype Column = Profit | Commission | Swap | Volume | Turnover

  function Amount(c: Column, d: Deal): real {
    match c
    case Profit => d.profit
    case Commission => d.commission
    case Swap => d.swap
    case Volume => d.volume
    case Turnover => d.price * d.volume
  }

  function Sum(c: Column, deals: seq<Deal>): real {
    if deals == [] then 0.0 else Sum(c, deals[..|deals| - 1]) + Amount(c, deals[|deals| - 1])
  }

  /** The volume-weighted price; 0 when there is no volume. */
  function Vwap(deals: seq<Deal>): real {
    if Sum(Volume, deals) > 0.0 then Sum(Turnover, deals) / Sum(Volume, deals) else 0.0
  }

  /** The trade of one position from its deals in order; None unless it was both entered and left. */
  function TradeOf(ordered: seq<Deal>): Option<Trade> {
    var entries, exits := Entries(ordered), Exits(ordered);
    if entries == [] || exits == [] then None
    else
      var first, last := entries[0], exits[|exits| - 1];
      Some(Trade(first.position, first.symbol, first.buy, Sum(Volume, exits), Vwap(entries), Vwap(exits),
                 first.time, last.time, last.reason,
                 Sum(Profit, ordered), Sum(Commission, ordered), Sum(Swap, ordered)))
  }

  /** The trade of position `id` in a history. */
  function TradeIn(deals: seq<Deal>, id: int): Option<Trade> {
    if id == 0 then None else TradeOf(Sort(Before, GroupOf(deals, id)))
  }

  /** A list of trades that reports each entered and left position once, with its own trade, and nothing else. */
  ghost predicate Reports(trades: seq<Trade>, deals: seq<Deal>) {
    && (forall i, j :: 0 <= i < j < |trades| ==> trades[i].position != trades[j].position)
    && (forall t <- trades :: TradeIn(deals, t.position) == Some(t))
    && (forall id :: TradeIn(deals, id).Some? ==> TradeIn(deals, id).value in trades)
  }

  /** The terminal lists a deal of position `p` before any of position `q`. */
  ghost predicate MetBefore(deals: seq<Deal>, p: int, q: int) {
    exists k :: 0 <= k < |deals| && deals[k].position == p && forall m :: 0 <= m <= k ==> deals[m].position != q
  }

  /** The trades are listed as their positions were first met. */
  ghost predicate InOrderMet(trades: seq<Trade>, deals: seq<Deal>) {
    forall i, j :: 0 <= i < j < |trades| ==> MetBefore(deals, trades[i].position, trades[j].position)
  }

  lemma {:induction false} GroupIsOf(deals: seq<Deal>, id: int)
    ensures forall d <- GroupOf(deals, id) :: d.position == id && d in deals
  {
    if deals != [] {
      GroupIsOf(deals[..|deals| - 1], id);
    }
  }

  lemma TradeIsOf(deals: seq<Deal>, id: int)
    requires TradeIn(deals, id).Some?
    ensures TradeIn(deals, id).value.position == id
  {
    var entries := Entries(Sort(Before, GroupOf(deals, id)));
    assert entries[0] in entries;
    InOrderedGroup(deals, id, entries[0]);
  }

  /** A position whose trade is reported has a deal. */
  lemma ReportedIsSeen(deals: seq<Deal>, id: int)
    requires TradeIn(deals, id).Some?
    ensures GroupOf(deals, id) != []
  {
  }

  /** What the trades collected from the positions `ids` are. */
  ghost predicate Collected(trades: seq<Trade>, deals: seq<Deal>, ids: seq<int>) {
    && (forall i, j :: 0 <= i < j < |trades| ==> trades[i].position != trades[j].position)
    && (forall t <- trades :: TradeIn(deals, t.position) == Some(t) && t.position in ids)
    && (forall id <- ids :: TradeIn(deals, id).Some? ==> TradeIn(deals, id).value in trades)
  }

  lemma CollectOne(trades: seq<Trade>, deals: seq<Deal>, ids: seq<int>, id: int)
    requires Collected(trades, deals, ids) && id !in ids
    ensures TradeIn(deals, id).None? ==> Collected(trades, deals, ids + [id])
    ensures TradeIn(deals, id).Some? ==> Collected(trades + [TradeIn(deals, id).value], deals, ids + [id])
  {
    if TradeIn(deals, id).Some? {
      TradeIsOf(deals, id);
      var more := trades + [TradeIn(deals, id).value];
      forall i | 0 <= i < |trades| ensures trades[i].position != id {
        assert trades[i] in trades;
      }
    }
  }

  /** The next trade is of a position met after those of the trades before. */
  lemma NextIsLater(trades: seq<Trade>, deals: seq<Deal>, order: seq<int>, i: nat)
    requires i < |order| && Collected(trades, deals, order[..i]) && InOrderMet(trades, deals)
    requires forall a, b :: 0 <= a < b < |order| ==> MetBefore(deals, order[a], order[b])
    ensures forall trade: Trade :: trade.position == order[i] ==> InOrderMet(trades + [trade], deals)
  {
    forall t <- trades ensures MetBefore(deals, t.position, order[i]) {
      var a :| 0 <= a < i && order[..i][a] == t.position;
      assert order[a] == t.position;
    }
    forall trade: Trade | trade.position == order[i] ensures InOrderMet(trades + [trade], deals) {
      assert forall k :: 0 <= k < |trades| ==> trades[k] in trades;
    }
  }

  /** get_history. */
  method GetHistory(deals: seq<Deal>) returns (trades: seq<Trade>)
    ensures Reports(trades, deals) && InOrderMet(trades, deals)
    ensures forall t <- trades :: IsTrade(deals, t)
  {
    var order, grouped := Group(deals);
    trades := [];
    for i := 0 to |order|
      invariant Collected(trades, deals, order[..i]) && InOrderMet(trades, deals)
    {
      var id := order[i];
      NextIsLater(trades, deals, order, i);
      assert id in order && order[..i + 1] == order[..i] + [id];
      CollectOne(trades, deals, order[..i], id);
      var trade := TradeOf(Sort(Before, grouped[id]));
      if trade.None? {
        continue;
      }
      TradeIsOf(deals, id);
      trades := trades + [trade.value];
    }
    assert order[..|order|] == order;
    forall t <- trades ensures IsTrade(deals, t) {
      TradeIsExactly(deals, t.position);
    }
    forall id | TradeIn(deals, id).Some? ensures id in order {
      ReportedIsSeen(deals, id);
    }
  }

  /** Positions in the order first met, each with its deals in input order. */
  ghost predicate Grouped(order: seq<int>, grouped: map<int, seq<Deal>>, deals: seq<Deal>) {
    && (forall i, j :: 0 <= i < j < |order| ==> order[i] != order[j] && MetBefore(deals, order[i], order[j]))
    && (forall id :: id in order <==> id in grouped)
    && (forall id :: id in grouped <==> id != 0 && GroupOf(deals, id) != [])
    && (forall id <- grouped :: grouped[id] == GroupOf(deals, id))
  }

  lemma StillMetBefore(deals: seq<Deal>, d: Deal, p: int, q: int)
    requires MetBefore(deals, p, q)
    ensures MetBefore(deals + [d], p, q)
  {
    var k :| 0 <= k < |deals| && deals[k].position == p && forall m :: 0 <= m <= k ==> deals[m].position != q;
    assert forall m :: 0 <= m <= k ==> (deals + [d])[m] == deals[m];
  }

  /** A position with a deal is met before one without. */
  lemma FirstOfItsPosition(deals: seq<Deal>, p: int, q: int)
    requires GroupOf(deals, p) != [] && GroupOf(deals, q) == []
    ensures MetBefore(deals, p, q)
  {
    GroupIsOf(deals, p);
    var d := GroupOf(deals, p)[0];
    assert d in GroupOf(deals, p);
    var k :| 0 <= k < |deals| && deals[k] == d;
    forall m | 0 <= m <= k ensures deals[m].position != q {
      GroupKeeps(deals, deals[m]);
    }
  }

  lemma OrderOne(order: seq<int>, grouped: map<int, seq<Deal>>, deals: seq<Deal>, d: Deal)
    requires Grouped(order, grouped, deals) && d.position != 0
    ensures var after := if d.position in grouped then order else order + [d.position];
      forall i, j :: 0 <= i < j < |after| ==> after[i] != after[j] && MetBefore(deals + [d], after[i], after[j])
  {
    var after := if d.position in grouped then order else order + [d.position];
    forall i, j | 0 <= i < j < |after| ensures after[i] != after[j] && MetBefore(deals + [d], after[i], after[j]) {
      assert order[i] in order;
      if j == |order| {
        FirstOfItsPosition(deals, order[i], d.position);
      }
      StillMetBefore(deals, d, after[i], after[j]);
    }
  }

  lemma GroupGrows(deals: seq<Deal>, d: Deal, id: int)
    ensures GroupOf(deals + [d], id) == GroupOf(deals, id) + if d.position == id then [d] else []
  {
    assert (deals + [d])[..|deals|] == deals;
  }

  lemma GroupSkipped(order: seq<int>, grouped: map<int, seq<Deal>>, deals: seq<Deal>, d: Deal)
    requires Grouped(order, grouped, deals) && d.position == 0
    ensures Grouped(order, grouped, deals + [d])
  {
    forall i, j | 0 <= i < j < |order| ensures MetBefore(deals + [d], order[i], order[j]) {
      StillMetBefore(deals, d, order[i], order[j]);
    }
    forall id | id != 0 ensures GroupOf(deals + [d], id) == GroupOf(deals, id) {
      GroupGrows(deals, d, id);
    }
  }

  lemma GroupOne(order: seq<int>, grouped: map<int, seq<Deal>>, deals: seq<Deal>, d: Deal)
    requires Grouped(order, grouped, deals)
    ensures d.position == 0 ==> Grouped(order, grouped, deals + [d])
    ensures d.position != 0 ==>
      var before := if d.position in grouped then grouped[d.position] else [];
      Grouped(if d.position in grouped then order else order + [d.position],
              grouped[d.position := before + [d]], deals + [d])
  {
    if d.position == 0 {
      GroupSkipped(order, grouped, deals, d);
    } else {
      OrderOne(order, grouped, deals, d);
      forall id ensures GroupOf(deals + [d], id) == GroupOf(deals, id) + if d.position == id then [d] else [] {
        GroupGrows(deals, d, id);
      }
    }
  }

  /** The grouping loop. */
  method Group(deals: seq<Deal>) returns (order: seq<int>, grouped: map<int, seq<Deal>>)
    ensures Grouped(order, grouped, deals)
  {
    order, grouped := [], map[];
    for i := 0 to |deals|
      invariant Grouped(order, grouped, deals[..i])
    {
      assert deals[..i + 1] == deals[..i] + [deals[i]];
      GroupOne(order, grouped, deals[..i], deals[i]);
      var id := deals[i].position;
      if id == 0 {
        continue;
      }
      if id !in grouped {
        order := order + [id];
        grouped := grouped[id := []];
      }
      grouped := grouped[id := grouped[id] + [deals[i]]];
    }
    assert deals[..|deals|] == deals;
  }

  // What the totals add up to.

  lemma {:induction false} SumOfInsert(c: Column, deals: seq<Deal>, d: Deal)
    ensures Sum(c, Insert(Before, deals, d)) == Sum(c, deals) + Amount(c, d)
    decreases |deals|
  {
    if deals == [] || !Before(d, deals[|deals| - 1]) {
      assert (deals + [d])[..|deals|] == deals;
    } else {
      var front, last := deals[..|deals| - 1], deals[|deals| - 1];
      SumOfInsert(c, front, d);
      assert (Insert(Before, front, d) + [last])[..|Insert(Before, front, d)|] == Insert(Before, front, d);
    }
  }

  lemma {:induction false} SumOfSorted(c: Column, deals: seq<Deal>)
    ensures Sum(c, Sort(Before, deals)) == Sum(c, deals)
    decreases |deals|
  {
    if deals != [] {
      SumOfSorted(c, deals[..|deals| - 1]);
      SumOfInsert(c, Sort(Before, deals[..|deals| - 1]), deals[|deals| - 1]);
    }
  }

  /** The amounts of the deals whose position is in `ids`. */
  function SumWhere(c: Column, deals: seq<Deal>, ids: set<int>): real {
    if deals == [] then 0.0
    else SumWhere(c, deals[..|deals| - 1], ids)
         + if deals[|deals| - 1].position in ids then Amount(c, deals[|deals| - 1]) else 0.0
  }

  lemma {:induction false} SumSplits(c: Column, deals: seq<Deal>, ids: set<int>, id: int)
    requires id !in ids
    ensures SumWhere(c, deals, ids + {id}) == SumWhere(c, deals, ids) + Sum(c, GroupOf(deals, id))
  {
    if deals != [] {
      var front, last := deals[..|deals| - 1], deals[|deals| - 1];
      SumSplits(c, front, ids, id);
      assert (GroupOf(front, id) + [last])[..|GroupOf(front, id)|] == GroupOf(front, id);
      assert GroupOf(front, id) + [] == GroupOf(front, id);
    }
  }

  function Total(c: Column, t: Trade): real
    requires c.Profit? || c.Commission? || c.Swap?
  {
    if c.Profit? then t.profit else if c.Commission? then t.commission else t.swap
  }

  function SumOfTrades(c: Column, trades: seq<Trade>): real
    requires c.Profit? || c.Commission? || c.Swap?
  {
    if trades == [] then 0.0 else SumOfTrades(c, trades[..|trades| - 1]) + Total(c, trades[|trades| - 1])
  }

  function Positions(trades: seq<Trade>): set<int> {
    if trades == [] then {} else Positions(trades[..|trades| - 1]) + {trades[|trades| - 1].position}
  }

  lemma {:induction false} PositionsAre(trades: seq<Trade>)
    ensures forall id :: id in Positions(trades) <==> exists i :: 0 <= i < |trades| && trades[i].position == id
    decreases |trades|
  {
    if trades != [] {
      PositionsAre(trades[..|trades| - 1]);
    }
  }

  lemma {:induction false} TradesAddUp(c: Column, trades: seq<Trade>, deals: seq<Deal>)
    requires c.Profit? || c.Commission? || c.Swap?
    requires forall i, j :: 0 <= i < j < |trades| ==> trades[i].position != trades[j].position
    requires forall t <- trades :: TradeIn(deals, t.position) == Some(t)
    ensures SumOfTrades(c, trades) == SumWhere(c, deals, Positions(trades))
  {
    if trades == [] {
      NothingWhere(c, deals);
    } else {
      var front, last := trades[..|trades| - 1], trades[|trades| - 1];
      assert last in trades && forall t <- front :: t in trades;
      TradesAddUp(c, front, deals);
      PositionsAre(front);
      SumSplits(c, deals, Positions(front), last.position);
      TotalIsSum(c, deals, last);
    }
  }

  lemma TotalIsSum(c: Column, deals: seq<Deal>, t: Trade)
    requires c.Profit? || c.Commission? || c.Swap?
    requires TradeIn(deals, t.position) == Some(t)
    ensures Total(c, t) == Sum(c, GroupOf(deals, t.position))
  {
    SumOfSorted(c, GroupOf(deals, t.position));
  }

  lemma {:induction false} NothingWhere(c: Column, deals: seq<Deal>)
    ensures SumWhere(c, deals, {}) == 0.0
  {
    if deals != [] {
      NothingWhere(c, deals[..|deals| - 1]);
    }
  }

  ghost predicate EnteredAndLeft(deals: seq<Deal>, id: int) {
    && id != 0
    && (exists d <- deals :: d.position == id && Enters(d))
    && (exists d <- deals :: d.position == id && Leaves(d))
  }

  /**
   * Conservation: profit, commission and swap of the trades add up to those of all
   * deals of the positions that were both entered and left.
   */
  lemma Conservation(c: Column, trades: seq<Trade>, deals: seq<Deal>, both: set<int>)
    requires Reports(trades, deals) && (c.Profit? || c.Commission? || c.Swap?)
    requires forall id :: id in both <==> EnteredAndLeft(deals, id)
    ensures SumOfTrades(c, trades) == SumWhere(c, deals, both)
  {
    TradesAddUp(c, trades, deals);
    PositionsAre(trades);
    forall id ensures id in both <==> id in Positions(trades) {
      TradedIffEnteredAndLeft(deals, id);
      if TradeIn(deals, id).Some? {
        TradeIsOf(deals, id);
        assert TradeIn(deals, id).value in trades;
      }
    }
    assert both == Positions(trades);
  }

  lemma EntryKept(deals: seq<Deal>, d: Deal)
    requires d in deals
    ensures IsEntry(d) ==> d in Entries(deals)
    ensures IsExit(d) ==> d in Exits(deals)
  {
    KeptAre(IsEntry, deals);
    KeptAre(IsExit, deals);
  }

  lemma {:induction false} GroupKeeps(deals: seq<Deal>, d: Deal)
    requires d in deals
    ensures d in GroupOf(deals, d.position)
  {
    if deals[|deals| - 1] != d {
      assert d in deals[..|deals| - 1];
      GroupKeeps(deals[..|deals| - 1], d);
    }
  }

  /** A position has a trade exactly when one of its deals enters and one leaves (one deal may do both). */
  lemma TradedIffEnteredAndLeft(deals: seq<Deal>, id: int)
    ensures TradeIn(deals, id).Some? <==> EnteredAndLeft(deals, id)
  {
    if TradeIn(deals, id).Some? {
      TradedIsEnteredAndLeft(deals, id);
    }
    if EnteredAndLeft(deals, id) {
      EnteredAndLeftIsTraded(deals, id);
    }
  }

  lemma TradedIsEnteredAndLeft(deals: seq<Deal>, id: int)
    requires TradeIn(deals, id).Some?
    ensures EnteredAndLeft(deals, id)
  {
    var entries := Entries(Sort(Before, GroupOf(deals, id)));
    var exits := Exits(Sort(Before, GroupOf(deals, id)));
    assert entries[0] in entries && exits[0] in exits;
    InOrderedGroup(deals, id, entries[0]);
    InOrderedGroup(deals, id, exits[0]);
  }

  lemma EnteredAndLeftIsTraded(deals: seq<Deal>, id: int)
    requires EnteredAndLeft(deals, id)
    ensures TradeIn(deals, id).Some?
  {
    var ordered := Sort(Before, GroupOf(deals, id));
    var d :| d in deals && d.position == id && IsEntry(d);
    var e :| e in deals && e.position == id && IsExit(e);
    InOrderedGroup(deals, id, d);
    InOrderedGroup(deals, id, e);
    EntryKept(ordered, d);
    EntryKept(ordered, e);
  }

  lemma InOrderedGroup(deals: seq<Deal>, id: int, d: Deal)
    ensures d in Sort(Before, GroupOf(deals, id)) <==> d in deals && d.position == id
  {
    var group := GroupOf(deals, id);
    SortKeepsElements(Before, group);
    GroupIsOf(deals, id);
    if d in deals && d.position == id {
      GroupKeeps(deals, d);
    }
    assert d in Sort(Before, group) <==> d in multiset(Sort(Before, group));
    assert d in group <==> d in multiset(group);
  }

  // Prices.

  /** t is v units at prices from low to high. */
  predicate Between(low: real, high: real, t: real, v: real) {
    low * v <= t <= high * v
  }

  lemma {:induction false} WeightedBetween(deals: seq<Deal>, low: real, high: real)
    requires forall d <- deals :: d.volume >= 0.0 && low <= d.price <= high
    ensures Between(low, high, Sum(Turnover, deals), Sum(Volume, deals))
    decreases |deals|
  {
    if deals != [] {
      var front, last := deals[..|deals| - 1], deals[|deals| - 1];
      assert last in deals && forall d <- front :: d in deals;
      WeightedBetween(front, low, high);
      OneMoreDeal(low, high, Sum(Turnover, front), Sum(Volume, front), last);
    }
  }

  lemma OneMoreDeal(low: real, high: real, t: real, v: real, d: Deal)
    requires Between(low, high, t, v) && d.volume >= 0.0 && low <= d.price <= high
    ensures Between(low, high, t + Amount(Turnover, d), v + Amount(Volume, d))
  {
    Scaled(low, d.price, d.volume);
    Scaled(d.price, high, d.volume);
    Distributes(low, v, d.volume);
    Distributes(high, v, d.volume);
  }

  lemma Distributes(a: real, v: real, w: real)
    ensures a * (v + w) == a * v + a * w
  {
  }

  lemma {:induction false} VolumeIsPositive(deals: seq<Deal>)
    requires forall d <- deals :: d.volume > 0.0
    ensures if deals == [] then Sum(Volume, deals) == 0.0 else Sum(Volume, deals) > 0.0
    decreases |deals|
  {
    if deals != [] {
      assert deals[|deals| - 1] in deals;
      VolumeIsPositive(deals[..|deals| - 1]);
    }
  }

  lemma Scaled(a: real, b: real, v: real)
    requires a <= b && v >= 0.0
    ensures a * v <= b * v
  {
    assert (b - a) * v >= 0.0;
  }

  lemma ScaledStrictly(a: real, b: real, v: real)
    requires v > 0.0
    ensures a < b ==> a * v < b * v
  {
    assert a < b ==> (b - a) * v > 0.0;
  }

  lemma Quotient(low: real, high: real, t: real, v: real)
    requires v > 0.0 && Between(low, high, t, v)
    ensures low <= t / v <= high
  {
    var q := t / v;
    assert q * v == t;
    ScaledStrictly(q, low, v);
    ScaledStrictly(high, q, v);
  }

  /** With volumes above zero, the open and close prices lie between the lowest and the highest price of their deals. */
  lemma VwapIsBetween(deals: seq<Deal>, low: real, high: real)
    requires deals != [] && forall d <- deals :: d.volume > 0.0 && low <= d.price <= high
    ensures low <= Vwap(deals) <= high
  {
    WeightedBetween(deals, low, high);
    VolumeIsPositive(deals);
    Quotient(low, high, Sum(Turnover, deals), Sum(Volume, deals));
  }

  /** A trade opens at the time of the first entry of its position and closes at the time of its last exit. */
  lemma TradeTimes(deals: seq<Deal>, id: int, d: Deal)
    requires TradeIn(deals, id).Some? && d in deals && d.position == id
    requires forall o <- deals :: o.time == o.timeMsc / 1000
    ensures IsEntry(d) ==> TradeIn(deals, id).value.openedAt <= d.time
    ensures IsExit(d) ==> d.time <= TradeIn(deals, id).value.closedAt
  {
    var ordered := Sort(Before, GroupOf(deals, id));
    TimesAreOrdered();
    SortSorts(Before, GroupOf(deals, id));
    PartsAreSorted(ordered);
    InOrderedGroup(deals, id, d);
    EntryKept(ordered, d);
    if Entries(ordered) != [] && Exits(ordered) != [] {
      InOrderedGroup(deals, id, Entries(ordered)[0]);
      InOrderedGroup(deals, id, Exits(ordered)[|Exits(ordered)| - 1]);
    }
  }

  /** It opens at a price its entries span and closes at one its exits span. */
  lemma TradePrices(deals: seq<Deal>, id: int, low: real, high: real, lowOut: real, highOut: real)
    requires TradeIn(deals, id).Some?
    requires forall o <- deals :: o.position == id && Enters(o) ==> o.volume > 0.0 && low <= o.price <= high
    requires forall o <- deals :: o.position == id && Leaves(o) ==> o.volume > 0.0 && lowOut <= o.price <= highOut
    ensures var t := TradeIn(deals, id).value; low <= t.openPrice <= high && lowOut <= t.closePrice <= highOut
  {
    var ordered := Sort(Before, GroupOf(deals, id));
    forall o <- ordered ensures o in deals && o.position == id {
      InOrderedGroup(deals, id, o);
    }
    VwapIsBetween(Entries(ordered), low, high);
    VwapIsBetween(Exits(ordered), lowOut, highOut);
  }

  lemma {:induction false} PartsAreSorted(deals: seq<Deal>)
    requires Sorted(Before, deals)
    ensures Sorted(Before, Entries(deals)) && Sorted(Before, Exits(deals))
  {
    if deals != [] {
      var front, last := deals[..|deals| - 1], deals[|deals| - 1];
      PartsAreSorted(front);
      forall d <- front ensures !Before(last, d) {
      }
    }
  }

  // What a trade says, by the deals alone.

  /** The deal opens or adds to its position. */
  predicate Enters(d: Deal) { d.entry in {In, InOut} }

  /** The deal closes its position, or part of it. */
  predicate Leaves(d: Deal) { d.entry in {Out, OutBy, InOut} }

  /** The sum of `amount` over the deals that `keep` picks, as the terminal lists them. */
  function Over(deals: seq<Deal>, keep: Deal -> bool, amount: Deal -> real): real {
    if deals == [] then 0.0
    else
      var last := deals[|deals| - 1];
      Over(deals[..|deals| - 1], keep, amount) + if keep(last) then amount(last) else 0.0
  }

  function EntriesOf(id: int): Deal -> bool { (d: Deal) => d.position == id && Enters(d) }

  function ExitsOf(id: int): Deal -> bool { (d: Deal) => d.position == id && Leaves(d) }

  function DealsOf(id: int): Deal -> bool { (d: Deal) => d.position == id }

  function VolumeOf(d: Deal): real { d.volume }

  function TurnoverOf(d: Deal): real { d.price * d.volume }

  function ProfitOf(d: Deal): real { d.profit }

  function CommissionOf(d: Deal): real { d.commission }

  function SwapOf(d: Deal): real { d.swap }

  /** Not later than `o`, and at the same time with no greater ticket. */
  predicate NotAfter(d: Deal, o: Deal) {
    d.timeMsc < o.timeMsc || (d.timeMsc == o.timeMsc && d.ticket <= o.ticket)
  }

  ghost predicate FirstEntry(deals: seq<Deal>, id: int, d: Deal) {
    && d in deals && d.position == id && Enters(d)
    && forall o <- deals :: o.position == id && Enters(o) ==> NotAfter(d, o)
  }

  ghost predicate LastExit(deals: seq<Deal>, id: int, d: Deal) {
    && d in deals && d.position == id && Leaves(d)
    && forall o <- deals :: o.position == id && Leaves(o) ==> NotAfter(o, d)
  }

  /** `price` is what the turnover divided by the volume is; 0 without a volume. */
  ghost predicate IsAverage(price: real, turnover: real, volume: real) {
    if volume > 0.0 then price * volume == turnover else price == 0.0
  }

  /** A trade of its position: opened by a first entry, closed by a last exit, and adding up. */
  ghost predicate IsTrade(deals: seq<Deal>, t: Trade) {
    && t.position != 0
    && (exists d :: FirstEntry(deals, t.position, d) && t.symbol == d.symbol && t.buy == d.buy && t.openedAt == d.time)
    && (exists d :: LastExit(deals, t.position, d) && t.closedAt == d.time && t.reason == d.reason)
    && t.lots == Over(deals, ExitsOf(t.position), VolumeOf)
    && IsAverage(t.openPrice, Over(deals, EntriesOf(t.position), TurnoverOf),
                 Over(deals, EntriesOf(t.position), VolumeOf))
    && IsAverage(t.closePrice, Over(deals, ExitsOf(t.position), TurnoverOf), t.lots)
    && t.profit == Over(deals, DealsOf(t.position), ProfitOf)
    && t.commission == Over(deals, DealsOf(t.position), CommissionOf)
    && t.swap == Over(deals, DealsOf(t.position), SwapOf)
  }

  /** The columns are these amounts. */
  ghost predicate IsColumn(c: Column, amount: Deal -> real) {
    forall d :: Amount(c, d) == amount(d)
  }

  lemma {:induction false} SumIsOver(c: Column, amount: Deal -> real, p: Deal -> bool, deals: seq<Deal>)
    requires IsColumn(c, amount)
    ensures Sum(c, Keep(p, deals)) == Over(deals, p, amount)
  {
    if deals != [] {
      var front, last := deals[..|deals| - 1], deals[|deals| - 1];
      SumIsOver(c, amount, p, front);
      assert (Keep(p, front) + [last])[..|Keep(p, front)|] == Keep(p, front);
      assert Amount(c, last) == amount(last);
    }
  }

  lemma {:induction false} OverInsert(deals: seq<Deal>, d: Deal, p: Deal -> bool, amount: Deal -> real)
    ensures Over(Insert(Before, deals, d), p, amount) == Over(deals, p, amount) + if p(d) then amount(d) else 0.0
    decreases |deals|
  {
    if deals == [] || !Before(d, deals[|deals| - 1]) {
      assert (deals + [d])[..|deals|] == deals;
    } else {
      var front, last := deals[..|deals| - 1], deals[|deals| - 1];
      OverInsert(front, d, p, amount);
      assert (Insert(Before, front, d) + [last])[..|Insert(Before, front, d)|] == Insert(Before, front, d);
    }
  }

  lemma {:induction false} OverSort(deals: seq<Deal>, p: Deal -> bool, amount: Deal -> real)
    ensures Over(Sort(Before, deals), p, amount) == Over(deals, p, amount)
    decreases |deals|
  {
    if deals != [] {
      OverSort(deals[..|deals| - 1], p, amount);
      OverInsert(Sort(Before, deals[..|deals| - 1]), deals[|deals| - 1], p, amount);
    }
  }

  /** Summing over the group of a position is summing over its deals in the list. */
  lemma {:induction false} OverGroup(deals: seq<Deal>, id: int, p: Deal -> bool, q: Deal -> bool, amount: Deal -> real)
    requires forall d :: q(d) <==> d.position == id && p(d)
    ensures Over(GroupOf(deals, id), p, amount) == Over(deals, q, amount)
  {
    if deals != [] {
      var front, last := deals[..|deals| - 1], deals[|deals| - 1];
      OverGroup(front, id, p, q, amount);
      assert q(last) <==> last.position == id && p(last);
      assert (GroupOf(front, id) + [last])[..|GroupOf(front, id)|] == GroupOf(front, id);
      assert GroupOf(front, id) + [] == GroupOf(front, id);
    }
  }

  lemma SumOfPart(c: Column, amount: Deal -> real, deals: seq<Deal>, id: int, p: Deal -> bool, q: Deal -> bool)
    requires IsColumn(c, amount) && forall d :: q(d) <==> d.position == id && p(d)
    ensures Sum(c, Keep(p, Sort(Before, GroupOf(deals, id)))) == Over(deals, q, amount)
  {
    SumIsOver(c, amount, p, Sort(Before, GroupOf(deals, id)));
    OverSort(GroupOf(deals, id), p, amount);
    OverGroup(deals, id, p, q, amount);
  }

  predicate Any(d: Deal) { true }

  lemma {:induction false} KeepAny(deals: seq<Deal>)
    ensures Keep(Any, deals) == deals
  {
    if deals != [] {
      KeepAny(deals[..|deals| - 1]);
      assert deals == deals[..|deals| - 1] + [deals[|deals| - 1]];
    }
  }

  /** The totals of a position's deals, entries and exits. */
  lemma SumsOf(deals: seq<Deal>, id: int)
    ensures var ordered := Sort(Before, GroupOf(deals, id));
      && Sum(Volume, Entries(ordered)) == Over(deals, EntriesOf(id), VolumeOf)
      && Sum(Turnover, Entries(ordered)) == Over(deals, EntriesOf(id), TurnoverOf)
      && Sum(Volume, Exits(ordered)) == Over(deals, ExitsOf(id), VolumeOf)
      && Sum(Turnover, Exits(ordered)) == Over(deals, ExitsOf(id), TurnoverOf)
  {
    assert IsColumn(Volume, VolumeOf) && IsColumn(Turnover, TurnoverOf);
    SumOfPart(Volume, VolumeOf, deals, id, IsEntry, EntriesOf(id));
    SumOfPart(Turnover, TurnoverOf, deals, id, IsEntry, EntriesOf(id));
    SumOfPart(Volume, VolumeOf, deals, id, IsExit, ExitsOf(id));
    SumOfPart(Turnover, TurnoverOf, deals, id, IsExit, ExitsOf(id));
  }

  lemma TotalsOf(deals: seq<Deal>, id: int)
    ensures var ordered := Sort(Before, GroupOf(deals, id));
      && Sum(Profit, ordered) == Over(deals, DealsOf(id), ProfitOf)
      && Sum(Commission, ordered) == Over(deals, DealsOf(id), CommissionOf)
      && Sum(Swap, ordered) == Over(deals, DealsOf(id), SwapOf)
  {
    assert IsColumn(Profit, ProfitOf) && IsColumn(Commission, CommissionOf) && IsColumn(Swap, SwapOf);
    KeepAny(Sort(Before, GroupOf(deals, id)));
    SumOfPart(Profit, ProfitOf, deals, id, Any, DealsOf(id));
    SumOfPart(Commission, CommissionOf, deals, id, Any, DealsOf(id));
    SumOfPart(Swap, SwapOf, deals, id, Any, DealsOf(id));
  }

  lemma FirstIs(deals: seq<Deal>, id: int, ordered: seq<Deal>)
    requires Sorted(Before, ordered) && Entries(ordered) != []
    requires forall o: Deal :: o in ordered <==> o in deals && o.position == id
    ensures FirstEntry(deals, id, Entries(ordered)[0])
  {
    var entries := Entries(ordered);
    PartsAreSorted(ordered);
    assert entries[0] in entries;
    forall o <- deals | o.position == id && Enters(o) ensures NotAfter(entries[0], o) {
      EntryKept(ordered, o);
      var i :| 0 <= i < |entries| && entries[i] == o;
      assert i > 0 ==> !Before(entries[i], entries[0]);
    }
  }

  lemma LastIs(deals: seq<Deal>, id: int, ordered: seq<Deal>)
    requires Sorted(Before, ordered) && Exits(ordered) != []
    requires forall o: Deal :: o in ordered <==> o in deals && o.position == id
    ensures LastExit(deals, id, Exits(ordered)[|Exits(ordered)| - 1])
  {
    var exits := Exits(ordered);
    var last := exits[|exits| - 1];
    PartsAreSorted(ordered);
    assert last in exits;
    forall o <- deals | o.position == id && Leaves(o) ensures NotAfter(o, last) {
      EntryKept(ordered, o);
      var i :| 0 <= i < |exits| && exits[i] == o;
      assert i < |exits| - 1 ==> !Before(last, exits[i]);
    }
  }

  lemma OrderedGroup(deals: seq<Deal>, id: int)
    ensures var ordered := Sort(Before, GroupOf(deals, id));
      Sorted(Before, ordered) && forall o: Deal :: o in ordered <==> o in deals && o.position == id
  {
    TimesAreOrdered();
    SortSorts(Before, GroupOf(deals, id));
    forall o: Deal ensures o in Sort(Before, GroupOf(deals, id)) <==> o in deals && o.position == id {
      InOrderedGroup(deals, id, o);
    }
  }

  lemma FirstAndLast(deals: seq<Deal>, id: int)
    ensures var ordered := Sort(Before, GroupOf(deals, id));
      && (Entries(ordered) != [] ==> FirstEntry(deals, id, Entries(ordered)[0]))
      && (Exits(ordered) != [] ==> LastExit(deals, id, Exits(ordered)[|Exits(ordered)| - 1]))
  {
    var ordered := Sort(Before, GroupOf(deals, id));
    OrderedGroup(deals, id);
    if Entries(ordered) != [] {
      FirstIs(deals, id, ordered);
    }
    if Exits(ordered) != [] {
      LastIs(deals, id, ordered);
    }
  }

  lemma AverageOf(deals: seq<Deal>)
    ensures IsAverage(Vwap(deals), Sum(Turnover, deals), Sum(Volume, deals))
  {
  }

  /** What the trade of a position is, in terms of the deals the terminal lists. */
  lemma TradeIsExactly(deals: seq<Deal>, id: int)
    requires TradeIn(deals, id).Some?
    ensures TradeIn(deals, id).value.position == id && IsTrade(deals, TradeIn(deals, id).value)
  {
    var ordered := Sort(Before, GroupOf(deals, id));
    TradeIsOf(deals, id);
    SumsOf(deals, id);
    TotalsOf(deals, id);
    FirstAndLast(deals, id);
    AverageOf(Entries(ordered));
    AverageOf(Exits(ordered));
  }

  // Input order.

  lemma {:induction false} GroupCounts(deals: seq<Deal>, id: int, d: Deal)
    ensures multiset(GroupOf(deals, id))[d] == if d.position == id then multiset(deals)[d] else 0
  {
    if deals != [] {
      GroupCounts(deals[..|deals| - 1], id, d);
      assert deals == deals[..|deals| - 1] + [deals[|deals| - 1]];
    }
  }

  /** When no two different deals share time and ticket, the order of the terminal's list does not matter. */
  lemma InputOrderDoesNotMatter(a: seq<Deal>, b: seq<Deal>, id: int)
    requires multiset(a) == multiset(b) && Comparable(Before, multiset(a))
    ensures TradeIn(a, id) == TradeIn(b, id)
  {
    var ga, gb := GroupOf(a, id), GroupOf(b, id);
    forall d ensures multiset(ga)[d] == multiset(gb)[d] <= multiset(a)[d] {
      GroupCounts(a, id, d);
      GroupCounts(b, id, d);
    }
    TimesAreOrdered();
    SortSorts(Before, ga);
    SortSorts(Before, gb);
    SortKeepsElements(Before, ga);
    SortKeepsElements(Before, gb);
    OneSortedOrder(Before, Sort(Before, ga), Sort(Before, gb));
  }
}
