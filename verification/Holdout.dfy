/**
 * The sealed future holdout (update_v10_future_holdout.py): a file of candles that
 * may only grow behind its frontier, up to a fixed number of new rows.
 *
 * A row is known by the text of its timestamp; `parse` stands for parse_ts and is
 * left open.  Times are whole seconds.
 */
module Holdout {
  import opened Sorting
  import opened Wrappers

  datatype Row = Row(stamp: string, data: string)

  type Parse = string -> int

  /**
   * What the outside gives one refresh: the clock, the market calendar, the hours whose
   * cache file is there and decodes, and a fresh download.
   */
  datatype Feed = Feed(now: int, closed: set<int>, cache: map<int, seq<Row>>, recent: seq<Row>)

  // Sorting.

  ghost predicate SortedByTime(parse: Parse, rows: seq<Row>) {
    forall i, j :: 0 <= i < j < |rows| ==> parse(rows[i].stamp) <= parse(rows[j].stamp)
  }

  ghost predicate DistinctStamps(rows: seq<Row>) {
    forall i, j :: 0 <= i < j < |rows| ==> rows[i].stamp != rows[j].stamp
  }

  /** The order of `sorted(..., key=parse_ts)`. */
  function Earlier(parse: Parse): (Row, Row) -> bool {
    (a: Row, b: Row) => parse(a.stamp) < parse(b.stamp)
  }

  function SortByTime(parse: Parse, rows: seq<Row>): seq<Row> {
    Sort(Earlier(parse), rows)
  }

  lemma SortByTimeSorts(parse: Parse, rows: seq<Row>)
    ensures SortedByTime(parse, SortByTime(parse, rows))
    ensures forall r :: r in SortByTime(parse, rows) <==> r in rows
  {
    SortSorts(Earlier(parse), rows);
    SortKeepsElements(Earlier(parse), rows);
  }

  ghost predicate AllLater(parse: Parse, base: seq<Row>, r: Row) {
    forall o <- base :: parse(o.stamp) < parse(r.stamp)
  }

  /** Sorting behind a sorted file leaves the file alone. */
  lemma SortByTimeBehind(parse: Parse, base: seq<Row>, rows: seq<Row>)
    requires SortedByTime(parse, base) && forall r <- rows :: AllLater(parse, base, r)
    ensures SortByTime(parse, base + rows) == base + SortByTime(parse, rows)
  {
    SortBehind(Earlier(parse), base, rows);
  }

  // Merging by timestamp text, as the dictionary does.

  /** `merged[r['timestamp']] = r`: in the place of a row with the same stamp, or at the end. */
  function Put(rows: seq<Row>, r: Row): seq<Row> {
    if rows == [] then [r]
    else if rows[0].stamp == r.stamp then [r] + rows[1..]
    else [rows[0]] + Put(rows[1..], r)
  }

  function PutAll(rows: seq<Row>, more: seq<Row>): seq<Row>
    decreases |more|
  {
    if more == [] then rows else Put(PutAll(rows, more[..|more| - 1]), more[|more| - 1])
  }

  function Filter(parse: Parse, rows: seq<Row>, low: int, after: bool): (kept: seq<Row>)
    ensures forall r :: r in kept ==> r in rows && (parse(r.stamp) > low <==> after)
    ensures |kept| <= |rows|
  {
    if rows == [] then []
    else (if parse(rows[0].stamp) > low <==> after then [rows[0]] else []) + Filter(parse, rows[1..], low, after)
  }

  lemma {:induction false} FilterKeeps(parse: Parse, rows: seq<Row>, low: int, after: bool, r: Row)
    requires r in rows && (parse(r.stamp) > low <==> after)
    ensures r in Filter(parse, rows, low, after)
  {
    if rows[0] != r {
      FilterKeeps(parse, rows[1..], low, after, r);
    }
  }

  /** The rows behind the frozen boundary, and those not behind it. */
  function Post(parse: Parse, rows: seq<Row>, boundary: int): seq<Row> { Filter(parse, rows, boundary, true) }

  function Pre(parse: Parse, rows: seq<Row>, boundary: int): seq<Row> { Filter(parse, rows, boundary, false) }

  function Latest(parse: Parse, rows: seq<Row>, least: int): (m: int)
    ensures m >= least && forall r <- rows :: parse(r.stamp) <= m
    ensures m == least || exists r <- rows :: parse(r.stamp) == m
  {
    if rows == [] then least else Max(parse(rows[0].stamp), Latest(parse, rows[1..], least))
  }

  // The cache walk.

  /** Hour by hour from `hour`: closed hours are skipped, the first open hour without a cache file ends it. */
  function Walk(parse: Parse, feed: Feed, hour: int, last: int, frontier: int): seq<Row>
    decreases last - hour
  {
    if hour > last then []
    else if hour in feed.closed then Walk(parse, feed, hour + 3600, last, frontier)
    else if hour !in feed.cache then []
    else Filter(parse, feed.cache[hour], frontier, true)
         + Walk(parse, feed, hour + 3600, last, Latest(parse, feed.cache[hour], frontier))
  }

  function FirstHour(startAfter: int): int {
    startAfter - startAfter % 3600 + if startAfter / 60 % 60 == 59 then 3600 else 0
  }

  function LastClosedHour(now: int): int {
    now - now % 3600 - 3600
  }

  /** The walk begins with the hour of the minute after `t`. */
  lemma FirstHourIs(t: int)
    ensures FirstHour(t) % 3600 == 0 && FirstHour(t) <= t + 60 < FirstHour(t) + 3600
  {
  }

  /** It ends with the last hour that is over. */
  lemma LastClosedHourIs(now: int)
    ensures LastClosedHour(now) % 3600 == 0 && LastClosedHour(now) + 3600 <= now < LastClosedHour(now) + 7200
  {
  }

  /** Where the walk stops. */
  function WalkEnd(feed: Feed, hour: int, last: int): (end: int)
    ensures hour > last ==> end == hour
    ensures end >= hour
    decreases last - hour
  {
    if hour > last || (hour !in feed.closed && hour !in feed.cache) then hour else WalkEnd(feed, hour + 3600, last)
  }

  ghost predicate StrictlyLater(parse: Parse, rows: seq<Row>) {
    forall i, j :: 0 <= i < j < |rows| ==> parse(rows[i].stamp) < parse(rows[j].stamp)
  }

  /** Filtering keeps the order. */
  lemma {:induction false} FilterKeepsStrictOrder(parse: Parse, rows: seq<Row>, low: int, after: bool)
    requires StrictlyLater(parse, rows)
    ensures StrictlyLater(parse, Filter(parse, rows, low, after))
  {
    if rows != [] {
      FilterKeepsStrictOrder(parse, rows[1..], low, after);
      forall r <- Filter(parse, rows[1..], low, after) ensures parse(rows[0].stamp) < parse(r.stamp) {
        assert r in rows[1..];
      }
    }
  }

  /** The walk only returns rows behind its start. */
  lemma {:induction false} WalkIsBehind(parse: Parse, feed: Feed, hour: int, last: int, frontier: int)
    ensures forall r <- Walk(parse, feed, hour, last, frontier) :: parse(r.stamp) > frontier
    decreases last - hour
  {
    if hour <= last && hour in feed.closed {
      WalkIsBehind(parse, feed, hour + 3600, last, frontier);
    } else if hour <= last && hour in feed.cache {
      WalkIsBehind(parse, feed, hour + 3600, last, Latest(parse, feed.cache[hour], frontier));
    }
  }

  /** If the cached hours are in order, so is the whole walk. */
  lemma {:induction false} WalkIsOrdered(parse: Parse, feed: Feed, hour: int, last: int, frontier: int)
    requires forall h <- feed.cache :: StrictlyLater(parse, feed.cache[h])
    ensures StrictlyLater(parse, Walk(parse, feed, hour, last, frontier))
    decreases last - hour
  {
    if hour <= last && hour in feed.closed {
      WalkIsOrdered(parse, feed, hour + 3600, last, frontier);
    } else if hour <= last && hour in feed.cache {
      var next := Latest(parse, feed.cache[hour], frontier);
      var here := Filter(parse, feed.cache[hour], frontier, true);
      var rest := Walk(parse, feed, hour + 3600, last, next);
      WalkIsOrdered(parse, feed, hour + 3600, last, next);
      WalkIsBehind(parse, feed, hour + 3600, last, next);
      FilterKeepsStrictOrder(parse, feed.cache[hour], frontier, true);
      forall i, j | 0 <= i < |here| && 0 <= j < |rest| ensures parse(here[i].stamp) < parse(rest[j].stamp) {
        assert here[i] in here && rest[j] in rest;
      }
    }
  }

  /** Every open hour the walk has passed has its cache file: no gap is jumped. */
  lemma {:induction false} WalkJumpsNoGap(feed: Feed, hour: int, last: int, h: int)
    requires hour <= h < WalkEnd(feed, hour, last) && (h - hour) % 3600 == 0
    ensures h in feed.closed || h in feed.cache
    decreases last - hour
  {
    if h != hour {
      assert h - hour >= 3600;
      assert (h - (hour + 3600)) % 3600 == 0;
      WalkJumpsNoGap(feed, hour + 3600, last, h);
    }
  }

  /** What the walk returns comes from the hours it passed. */
  lemma {:induction false} WalkSource(parse: Parse, feed: Feed, hour: int, last: int, frontier: int, r: Row)
    returns (h: int)
    requires r in Walk(parse, feed, hour, last, frontier)
    ensures hour <= h < WalkEnd(feed, hour, last) && (h - hour) % 3600 == 0 && h in feed.cache && r in feed.cache[h]
    decreases last - hour
  {
    if hour in feed.closed {
      h := WalkSource(parse, feed, hour + 3600, last, frontier, r);
    } else if r in Filter(parse, feed.cache[hour], frontier, true) {
      h := hour;
    } else {
      h := WalkSource(parse, feed, hour + 3600, last, Latest(parse, feed.cache[hour], frontier), r);
    }
  }

  /** `h` is one of the hours hour, hour + 1, and so on. */
  ghost predicate HourFrom(hour: int, h: int) {
    hour <= h && (h - hour) % 3600 == 0
  }

  /** The walk comes to hour `h`: from `hour` on no open hour before it, nor itself, lacks its cache file. */
  ghost predicate Comes(feed: Feed, hour: int, last: int, h: int) {
    && HourFrom(hour, h) && h <= last
    && forall k :: HourFrom(hour, k) && k <= h ==> k in feed.closed || k in feed.cache
  }

  /** `r` is in the file of open hour `h`, and later than `frontier` and all rows of the open hours before. */
  ghost predicate Offers(parse: Parse, feed: Feed, hour: int, h: int, frontier: int, r: Row) {
    && h !in feed.closed && h in feed.cache && r in feed.cache[h] && parse(r.stamp) > frontier
    && forall g :: HourFrom(hour, g) && g < h && g !in feed.closed && g in feed.cache ==>
         forall o <- feed.cache[g] :: parse(o.stamp) < parse(r.stamp)
  }

  lemma NextHours(hour: int)
    ensures forall k :: HourFrom(hour + 3600, k) <==> HourFrom(hour, k) && k != hour
    ensures HourFrom(hour, hour)
  {
    forall k ensures HourFrom(hour + 3600, k) <==> HourFrom(hour, k) && k != hour {
      assert (k - (hour + 3600)) % 3600 == (k - hour) % 3600;
    }
  }

  /** What the walk returns: a row exactly if it comes to an hour that offers it. */
  lemma WalkIsExactly(parse: Parse, feed: Feed, hour: int, last: int, frontier: int, r: Row)
    ensures r in Walk(parse, feed, hour, last, frontier) <==>
      exists h :: Comes(feed, hour, last, h) && Offers(parse, feed, hour, h, frontier, r)
  {
    if r in Walk(parse, feed, hour, last, frontier) {
      var h := WalkOffers(parse, feed, hour, last, frontier, r);
    }
    if h :| Comes(feed, hour, last, h) && Offers(parse, feed, hour, h, frontier, r) {
      OfferedIsWalked(parse, feed, hour, last, frontier, r, h);
    }
  }

  lemma ComesLater(feed: Feed, hour: int, last: int, h: int)
    requires hour in feed.closed || hour in feed.cache
    ensures Comes(feed, hour + 3600, last, h) ==> Comes(feed, hour, last, h)
    ensures Comes(feed, hour, last, h) && h != hour ==> Comes(feed, hour + 3600, last, h)
  {
    NextHours(hour);
  }

  lemma HourOffers(parse: Parse, feed: Feed, hour: int, last: int, frontier: int, r: Row)
    requires hour <= last && hour !in feed.closed && hour in feed.cache
    requires r in Filter(parse, feed.cache[hour], frontier, true)
    ensures Comes(feed, hour, last, hour) && Offers(parse, feed, hour, hour, frontier, r)
  {
    NextHours(hour);
  }

  lemma {:induction false} WalkOffers(parse: Parse, feed: Feed, hour: int, last: int, frontier: int, r: Row)
    returns (h: int)
    requires r in Walk(parse, feed, hour, last, frontier)
    ensures Comes(feed, hour, last, h) && Offers(parse, feed, hour, h, frontier, r)
    decreases last - hour
  {
    if hour in feed.closed {
      h := WalkOffers(parse, feed, hour + 3600, last, frontier, r);
      ComesLater(feed, hour, last, h);
      OffersLater(parse, feed, hour, h, frontier, frontier, r);
    } else if r in Filter(parse, feed.cache[hour], frontier, true) {
      h := hour;
      HourOffers(parse, feed, hour, last, frontier, r);
    } else {
      var next := Latest(parse, feed.cache[hour], frontier);
      h := WalkOffers(parse, feed, hour + 3600, last, next, r);
      ComesLater(feed, hour, last, h);
      OffersLater(parse, feed, hour, h, frontier, next, r);
    }
  }

  /** Offering from the next hour on, behind what this hour has. */
  lemma OffersLater(parse: Parse, feed: Feed, hour: int, h: int, frontier: int, next: int, r: Row)
    requires h >= hour + 3600
    requires if hour in feed.closed then next == frontier
             else hour in feed.cache && next == Latest(parse, feed.cache[hour], frontier)
    ensures Offers(parse, feed, hour, h, frontier, r) <==> Offers(parse, feed, hour + 3600, h, next, r)
  {
    NextHours(hour);
  }

  lemma {:induction false} OfferedIsWalked(parse: Parse, feed: Feed, hour: int, last: int, frontier: int, r: Row,
                                           h: int)
    requires Comes(feed, hour, last, h) && Offers(parse, feed, hour, h, frontier, r)
    ensures r in Walk(parse, feed, hour, last, frontier)
    decreases last - hour
  {
    NextHours(hour);
    if h == hour {
      FilterKeeps(parse, feed.cache[hour], frontier, true, r);
    } else {
      assert HourFrom(hour + 3600, h);
      ComesLater(feed, hour, last, h);
      var next := if hour in feed.closed then frontier else Latest(parse, feed.cache[hour], frontier);
      OffersLater(parse, feed, hour, h, frontier, next, r);
      OfferedIsWalked(parse, feed, hour + 3600, last, next, r, h);
    }
  }

  // One refresh.

  /** A file this updater writes: no stamp twice, sorted by time, no more new rows than the target. */
  ghost predicate Canonical(parse: Parse, boundary: int, target: nat, rows: seq<Row>) {
    DistinctStamps(rows) && SortedByTime(parse, rows) && |Post(parse, rows, boundary)| <= target
  }

  /** The rows a refresh adds to the dictionary, in order. */
  function Incoming(parse: Parse, boundary: int, existing: seq<Row>, feed: Feed): seq<Row> {
    var post := Post(parse, existing, boundary);
    var frontier := Latest(parse, post, boundary);
    var cached := Walk(parse, feed, FirstHour(frontier), LastClosedHour(feed.now), frontier);
    Post(parse, (if post != [] then [] else feed.recent) + cached, boundary)
  }

  function Take(rows: seq<Row>, n: nat): seq<Row> {
    if |rows| >= n then rows[..n] else rows
  }

  /** The rows up to the boundary and, of those behind it, as many as the target allows. */
  function Cut(parse: Parse, boundary: int, target: nat, rows: seq<Row>): seq<Row> {
    Pre(parse, rows, boundary) + Take(Post(parse, rows, boundary), target)
  }

  /** Everything merged and sorted. */
  function Merged(parse: Parse, boundary: int, existing: seq<Row>, feed: Feed): seq<Row> {
    SortByTime(parse, PutAll(PutAll([], existing), Incoming(parse, boundary, existing, feed)))
  }

  /** The rows written. */
  function Written(parse: Parse, boundary: int, target: nat, existing: seq<Row>, feed: Feed): seq<Row> {
    Cut(parse, boundary, target, Merged(parse, boundary, existing, feed))
  }

  /** How a later state of the file may differ from an earlier one. */
  ghost predicate OnlyAppended(parse: Parse, boundary: int, target: nat, before: seq<Row>, now: seq<Row>) {
    && Pre(parse, now, boundary) == Pre(parse, before, boundary)
    && Post(parse, before, boundary) <= Post(parse, now, boundary)
    && Canonical(parse, boundary, target, now)
    && (|Post(parse, before, boundary)| == target ==> now == before)
  }

  lemma {:induction false} PutNew(rows: seq<Row>, more: seq<Row>, r: Row)
    requires forall o <- rows :: o.stamp != r.stamp
    ensures Put(rows + more, r) == rows + Put(more, r)
  {
    if rows == [] {
      assert rows + more == more && rows + Put(more, r) == Put(more, r);
    } else {
      assert rows[0] in rows && forall o <- rows[1..] :: o in rows;
      PutNew(rows[1..], more, r);
      assert (rows + more)[1..] == rows[1..] + more;
      assert [rows[0]] + (rows[1..] + Put(more, r)) == rows + Put(more, r);
    }
  }

  /** Reading a file without repeated stamps into the dictionary loses and moves nothing. */
  lemma {:induction false} PutAllDistinct(rows: seq<Row>)
    requires DistinctStamps(rows)
    ensures PutAll([], rows) == rows
    decreases |rows|
  {
    if rows != [] {
      var front, last := rows[..|rows| - 1], rows[|rows| - 1];
      PutAllDistinct(front);
      PutNew(front, [], last);
      assert front + [] == front && rows == front + [last];
    }
  }

  lemma {:induction false} PutKeepsDistinct(rows: seq<Row>, r: Row)
    requires DistinctStamps(rows)
    ensures DistinctStamps(Put(rows, r))
    ensures forall o <- Put(rows, r) :: o in rows || o == r
    ensures forall o <- Put(rows, r) :: o.stamp == r.stamp || exists p <- rows :: p.stamp == o.stamp
  {
    if rows != [] && rows[0].stamp != r.stamp {
      PutKeepsDistinct(rows[1..], r);
      var rest := Put(rows[1..], r);
      forall j | 0 <= j < |rest| ensures rest[j].stamp != rows[0].stamp {
        assert rest[j] in rest;
      }
    }
  }

  /** New rows that are later than the file stay behind it, once per stamp. */
  lemma {:induction false} PutAllBehind(parse: Parse, base: seq<Row>, more: seq<Row>) returns (added: seq<Row>)
    requires DistinctStamps(base) && forall r <- more :: AllLater(parse, base, r)
    ensures PutAll(base, more) == base + added
    ensures DistinctStamps(added) && forall r <- added :: r in more
    decreases |more|
  {
    if more == [] {
      added := [];
      assert base + [] == base;
    } else {
      var front, last := more[..|more| - 1], more[|more| - 1];
      var before := PutAllBehind(parse, base, front);
      assert last in more;
      PutNew(base, before, last);
      PutKeepsDistinct(before, last);
      added := Put(before, last);
    }
  }

  lemma {:induction false} FilterAppend(parse: Parse, a: seq<Row>, b: seq<Row>, low: int, after: bool)
    ensures Filter(parse, a + b, low, after) == Filter(parse, a, low, after) + Filter(parse, b, low, after)
    decreases |a|
  {
    if a == [] {
      assert a + b == b;
    } else {
      assert (a + b)[1..] == a[1..] + b;
      FilterAppend(parse, a[1..], b, low, after);
    }
  }

  lemma {:induction false} FilterAll(parse: Parse, rows: seq<Row>, low: int, after: bool)
    requires forall r <- rows :: parse(r.stamp) > low <==> after
    ensures Filter(parse, rows, low, after) == rows
  {
    if rows != [] {
      assert rows[0] in rows && forall r <- rows[1..] :: r in rows;
      FilterAll(parse, rows[1..], low, after);
      assert rows == [rows[0]] + rows[1..];
    }
  }

  lemma FilterNone(parse: Parse, rows: seq<Row>, low: int, after: bool)
    requires forall r <- rows :: !(parse(r.stamp) > low <==> after)
    ensures Filter(parse, rows, low, after) == []
  {
    assert forall r :: r !in Filter(parse, rows, low, after);
  }

  lemma FilterAllOrNone(parse: Parse, rows: seq<Row>, low: int, after: bool)
    requires forall r <- rows :: parse(r.stamp) > low <==> after
    ensures Filter(parse, rows, low, after) == rows && Filter(parse, rows, low, !after) == []
  {
    FilterAll(parse, rows, low, after);
    FilterNone(parse, rows, low, !after);
  }

  /** In a sorted file the rows up to the boundary come first. */
  lemma {:induction false} SortedSplits(parse: Parse, rows: seq<Row>, boundary: int)
    requires SortedByTime(parse, rows)
    ensures rows == Pre(parse, rows, boundary) + Post(parse, rows, boundary)
  {
    if rows != [] {
      SortedSplits(parse, rows[1..], boundary);
      if parse(rows[0].stamp) > boundary {
        forall r <- rows ensures parse(r.stamp) > boundary {
        }
        FilterAllOrNone(parse, rows, boundary, true);
      }
    }
  }

  /** Everything a refresh adds is later than everything in the file. */
  lemma IncomingIsLater(parse: Parse, boundary: int, existing: seq<Row>, feed: Feed, r: Row)
    requires SortedByTime(parse, existing) && r in Incoming(parse, boundary, existing, feed)
    ensures AllLater(parse, existing, r) && parse(r.stamp) > boundary
  {
    var post := Post(parse, existing, boundary);
    var frontier := Latest(parse, post, boundary);
    WalkIsBehind(parse, feed, FirstHour(frontier), LastClosedHour(feed.now), frontier);
    forall o <- existing ensures parse(o.stamp) < parse(r.stamp) {
      if parse(o.stamp) > boundary {
        FilterKeeps(parse, existing, boundary, true, o);
      }
    }
  }

  /**
   * One refresh of a file this updater wrote: the rows up to the boundary do not
   * change, the rows behind it only grow at their end, never beyond the target, and
   * the result is again such a file.
   */
  lemma RefreshAppends(parse: Parse, boundary: int, target: nat, existing: seq<Row>, feed: Feed)
    requires Canonical(parse, boundary, target, existing)
    ensures OnlyAppended(parse, boundary, target, existing, Written(parse, boundary, target, existing, feed))
  {
    var added := MergedBehind(parse, boundary, existing, feed);
    WrittenBehind(parse, boundary, target, existing, added);
  }

  /** Merged and sorted, a file this updater wrote stays in front of what is added. */
  lemma MergedBehind(parse: Parse, boundary: int, existing: seq<Row>, feed: Feed) returns (added: seq<Row>)
    requires DistinctStamps(existing) && SortedByTime(parse, existing)
    ensures Merged(parse, boundary, existing, feed) == existing + SortByTime(parse, added)
    ensures DistinctStamps(added) && forall r <- added :: AllLater(parse, existing, r) && parse(r.stamp) > boundary
  {
    var incoming := Incoming(parse, boundary, existing, feed);
    forall r <- incoming ensures AllLater(parse, existing, r) && parse(r.stamp) > boundary {
      IncomingIsLater(parse, boundary, existing, feed, r);
    }
    PutAllDistinct(existing);
    added := PutAllBehind(parse, existing, incoming);
    SortByTimeBehind(parse, existing, added);
  }

  lemma SortedAdditions(parse: Parse, existing: seq<Row>, added: seq<Row>)
    requires SortedByTime(parse, existing) && DistinctStamps(existing) && DistinctStamps(added)
    requires forall r <- added :: AllLater(parse, existing, r)
    ensures SortedByTime(parse, existing + SortByTime(parse, added))
    ensures DistinctStamps(existing + SortByTime(parse, added))
    ensures forall r :: r in SortByTime(parse, added) <==> r in added
  {
    var late := SortByTime(parse, added);
    SortByTimeSorts(parse, added);
    SortKeepsDistinct(parse, added);
    forall i, j | 0 <= i < |existing| && 0 <= j < |late|
      ensures parse(existing[i].stamp) < parse(late[j].stamp) && existing[i].stamp != late[j].stamp
    {
      assert late[j] in late && existing[i] in existing;
    }
  }

  /** Whether stamps repeat is a matter of how often each row occurs. */
  lemma SortKeepsDistinct(parse: Parse, rows: seq<Row>)
    requires DistinctStamps(rows)
    ensures DistinctStamps(SortByTime(parse, rows))
  {
    var s := SortByTime(parse, rows);
    SortKeepsElements(Earlier(parse), rows);
    forall i, j | 0 <= i < j < |s| ensures s[i].stamp != s[j].stamp {
      assert s[i] in s && s[j] in s;
      SameStampSameRow(rows, s[i], s[j]);
      OccursOnce(rows, s[i]);
      OccursTwice(s, i, j);
    }
  }

  lemma SameStampSameRow(rows: seq<Row>, x: Row, y: Row)
    requires DistinctStamps(rows) && x in rows && y in rows
    ensures x.stamp == y.stamp ==> x == y
  {
    var a :| 0 <= a < |rows| && rows[a] == x;
    var b :| 0 <= b < |rows| && rows[b] == y;
  }

  lemma {:induction false} OccursOnce(rows: seq<Row>, r: Row)
    requires DistinctStamps(rows)
    ensures multiset(rows)[r] <= 1
    decreases |rows|
  {
    if rows != [] {
      OccursOnce(rows[..|rows| - 1], r);
      assert rows == rows[..|rows| - 1] + [rows[|rows| - 1]];
      assert multiset(rows[..|rows| - 1])[r] > 0 ==> r in rows[..|rows| - 1];
    }
  }

  lemma OccursTwice(rows: seq<Row>, i: nat, j: nat)
    requires i < j < |rows|
    ensures rows[i] == rows[j] ==> multiset(rows)[rows[i]] >= 2
  {
    assert rows == rows[..j] + [rows[j]] + rows[j + 1..];
    assert rows[..j][i] == rows[i];
    assert rows[i] in multiset(rows[..j]);
  }

  /** The two parts of a file followed by later rows. */
  lemma PartsBehind(parse: Parse, boundary: int, existing: seq<Row>, late: seq<Row>)
    requires SortedByTime(parse, existing) && forall r <- late :: parse(r.stamp) > boundary
    ensures Pre(parse, existing + late, boundary) == Pre(parse, existing, boundary)
    ensures Post(parse, existing + late, boundary) == Post(parse, existing, boundary) + late
  {
    FilterAppend(parse, existing, late, boundary, true);
    FilterAppend(parse, existing, late, boundary, false);
    FilterAllOrNone(parse, late, boundary, true);
  }

  /** What is written when the merged and sorted rows are the file and then later ones. */
  lemma WrittenBehind(parse: Parse, boundary: int, target: nat, existing: seq<Row>, added: seq<Row>)
    requires Canonical(parse, boundary, target, existing) && DistinctStamps(added)
    requires forall r <- added :: AllLater(parse, existing, r) && parse(r.stamp) > boundary
    ensures OnlyAppended(parse, boundary, target, existing,
                         Cut(parse, boundary, target, existing + SortByTime(parse, added)))
  {
    var late := SortByTime(parse, added);
    SortedAdditions(parse, existing, added);
    PartsBehind(parse, boundary, existing, late);
    SortedSplits(parse, existing, boundary);
    CutAppends(parse, boundary, target, existing, late);
  }

  lemma CutAppends(parse: Parse, boundary: int, target: nat, existing: seq<Row>, late: seq<Row>)
    requires |Post(parse, existing, boundary)| <= target
    requires forall r <- late :: parse(r.stamp) > boundary
    requires existing == Pre(parse, existing, boundary) + Post(parse, existing, boundary)
    requires SortedByTime(parse, existing + late) && DistinctStamps(existing + late)
    ensures var rows := Pre(parse, existing, boundary) + Take(Post(parse, existing, boundary) + late, target);
      OnlyAppended(parse, boundary, target, existing, rows)
  {
    var pre, post := Pre(parse, existing, boundary), Post(parse, existing, boundary);
    CutBehind(parse, boundary, target, pre, post, late);
    assert (pre + post) + late == pre + (post + late);
    PrefixIsCanonical(parse, existing + late, pre + Take(post + late, target));
  }

  lemma CutBehind(parse: Parse, boundary: int, target: nat, pre: seq<Row>, post: seq<Row>, late: seq<Row>)
    requires forall r <- pre :: parse(r.stamp) <= boundary
    requires forall r <- post :: parse(r.stamp) > boundary
    requires forall r <- late :: parse(r.stamp) > boundary
    requires |post| <= target
    ensures var taken := Take(post + late, target);
      && post <= taken && |taken| <= target && pre + taken <= pre + (post + late)
      && Pre(parse, pre + taken, boundary) == pre && Post(parse, pre + taken, boundary) == taken
      && (|post| == target ==> taken == post)
  {
    SplitOf(parse, boundary, pre, Take(post + late, target), post + late);
  }

  lemma SplitOf(parse: Parse, boundary: int, pre: seq<Row>, taken: seq<Row>, post: seq<Row>)
    requires taken <= post
    requires forall r <- pre :: parse(r.stamp) <= boundary
    requires forall r <- post :: parse(r.stamp) > boundary
    ensures Pre(parse, pre + taken, boundary) == pre && Post(parse, pre + taken, boundary) == taken
  {
    forall r <- taken ensures r in post {
    }
    FilterAllOrNone(parse, pre, boundary, false);
    FilterAllOrNone(parse, taken, boundary, true);
    FilterAppend(parse, pre, taken, boundary, true);
    FilterAppend(parse, pre, taken, boundary, false);
    assert pre + [] == pre && [] + taken == taken;
  }

  lemma PrefixIsCanonical(parse: Parse, all: seq<Row>, rows: seq<Row>)
    requires rows <= all
    ensures SortedByTime(parse, all) ==> SortedByTime(parse, rows)
    ensures DistinctStamps(all) ==> DistinctStamps(rows)
  {
  }

  lemma {:induction false} PutAllKeepsDistinct(rows: seq<Row>, more: seq<Row>)
    requires DistinctStamps(rows)
    ensures DistinctStamps(PutAll(rows, more))
    decreases |more|
  {
    if more != [] {
      PutAllKeepsDistinct(rows, more[..|more| - 1]);
      PutKeepsDistinct(PutAll(rows, more[..|more| - 1]), more[|more| - 1]);
    }
  }

  /** Whatever file a refresh starts from, it leaves one without repeated stamps, sorted, and within the target. */
  lemma RefreshIsCanonical(parse: Parse, boundary: int, target: nat, existing: seq<Row>, feed: Feed)
    ensures Canonical(parse, boundary, target, Written(parse, boundary, target, existing, feed))
  {
    var incoming := Incoming(parse, boundary, existing, feed);
    PutAllKeepsDistinct([], existing);
    PutAllKeepsDistinct(PutAll([], existing), incoming);
    var merged := PutAll(PutAll([], existing), incoming);
    var rows := SortByTime(parse, merged);
    SortByTimeSorts(parse, merged);
    SortKeepsDistinct(parse, merged);
    SortedSplits(parse, rows, boundary);
    var pre, post := Pre(parse, rows, boundary), Post(parse, rows, boundary);
    assert pre + Take(post, target) <= rows;
    SplitOf(parse, boundary, pre, Take(post, target), post);
    PrefixIsCanonical(parse, rows, pre + Take(post, target));
  }

  // What is in the file.

  /** The last row of its stamp. */
  ghost predicate IsLast(rows: seq<Row>, r: Row) {
    exists i :: 0 <= i < |rows| && rows[i] == r && forall j :: i < j < |rows| ==> rows[j].stamp != r.stamp
  }

  lemma {:induction false} PutIs(rows: seq<Row>, r: Row, o: Row)
    requires DistinctStamps(rows)
    ensures o in Put(rows, r) <==> o == r || (o in rows && o.stamp != r.stamp)
  {
    if rows != [] {
      assert rows == [rows[0]] + rows[1..];
      if rows[0].stamp == r.stamp {
        assert forall p <- rows[1..] :: p.stamp != r.stamp;
      } else {
        PutIs(rows[1..], r, o);
      }
    }
  }

  lemma IsLastOfMore(rows: seq<Row>, r: Row, o: Row)
    ensures IsLast(rows + [r], o) <==> o == r || (IsLast(rows, o) && o.stamp != r.stamp)
  {
    var more := rows + [r];
    if IsLast(more, o) && o != r {
      var i :| 0 <= i < |more| && more[i] == o && forall j :: i < j < |more| ==> more[j].stamp != o.stamp;
      assert more[|rows|] == r && rows[i] == o;
      assert forall j :: i < j < |rows| ==> rows[j] == more[j];
    }
    if o == r {
      assert more[|rows|] == o;
    } else if IsLast(rows, o) && o.stamp != r.stamp {
      var i :| 0 <= i < |rows| && rows[i] == o && forall j :: i < j < |rows| ==> rows[j].stamp != o.stamp;
      assert more[i] == o;
    }
  }

  /** The dictionary holds of every stamp the row read last. */
  lemma {:induction false} PutAllIsLast(rows: seq<Row>, o: Row)
    ensures o in PutAll([], rows) <==> IsLast(rows, o)
    decreases |rows|
  {
    if rows != [] {
      var front, r := rows[..|rows| - 1], rows[|rows| - 1];
      PutAllIsLast(front, o);
      PutAllKeepsDistinct([], front);
      PutIs(PutAll([], front), r, o);
      IsLastOfMore(front, r, o);
      assert rows == front + [r];
    }
  }

  lemma {:induction false} PutAllTwice(a: seq<Row>, b: seq<Row>)
    ensures PutAll(PutAll([], a), b) == PutAll([], a + b)
    decreases |b|
  {
    if b == [] {
      assert a + b == a;
    } else {
      PutAllTwice(a, b[..|b| - 1]);
      assert (a + b)[..|a + b| - 1] == a + b[..|b| - 1];
    }
  }

  /** Where the file ends: at the boundary, or at its latest row behind it. */
  ghost predicate IsFrontier(parse: Parse, boundary: int, existing: seq<Row>, f: int) {
    && (forall r <- existing :: parse(r.stamp) <= f)
    && (f == boundary || (f > boundary && exists r <- existing :: parse(r.stamp) == f))
  }

  /** The rows of the hours the walk comes to. */
  ghost predicate Cached(parse: Parse, feed: Feed, f: int, first: int, last: int, r: Row) {
    exists h :: Comes(feed, first, last, h) && Offers(parse, feed, first, h, f, r)
  }

  /**
   * Exactly which rows a refresh adds: those behind the boundary which the cache offers from
   * the hour of the frontier's next minute to the last hour that is over, and the fresh
   * download if the file has no row behind the boundary yet.
   */
  lemma IncomingIsExactly(parse: Parse, boundary: int, existing: seq<Row>, feed: Feed, f: int, first: int, last: int,
                          r: Row)
    requires IsFrontier(parse, boundary, existing, f)
    requires first % 3600 == 0 && first <= f + 60 < first + 3600
    requires last % 3600 == 0 && last + 3600 <= feed.now < last + 7200
    ensures r in Incoming(parse, boundary, existing, feed) <==>
      && parse(r.stamp) > boundary
      && (Cached(parse, feed, f, first, last, r)
          || (r in feed.recent && forall o <- existing :: parse(o.stamp) <= boundary))
  {
    FrontierIs(parse, boundary, existing, f);
    FirstHourIs(f);
    LastClosedHourIs(feed.now);
    OneMultiple(first, FirstHour(f));
    OneMultiple(last, LastClosedHour(feed.now));
    WalkIsExactly(parse, feed, first, last, f, r);
    var offered := (if Post(parse, existing, boundary) != [] then [] else feed.recent)
                   + Walk(parse, feed, first, last, f);
    if r in offered && parse(r.stamp) > boundary {
      FilterKeeps(parse, offered, boundary, true, r);
    }
  }

  /** Two multiples of an hour less than an hour apart are one. */
  lemma OneMultiple(a: int, b: int)
    requires a % 3600 == 0 && b % 3600 == 0 && a - 3600 < b < a + 3600
    ensures a == b
  {
  }

  lemma FrontierIs(parse: Parse, boundary: int, existing: seq<Row>, f: int)
    requires IsFrontier(parse, boundary, existing, f)
    ensures f == Latest(parse, Post(parse, existing, boundary), boundary)
    ensures Post(parse, existing, boundary) == [] <==> forall o <- existing :: parse(o.stamp) <= boundary
  {
    var post := Post(parse, existing, boundary);
    forall o <- existing | parse(o.stamp) > boundary ensures o in post {
      FilterKeeps(parse, existing, boundary, true, o);
    }
    if post != [] {
      assert post[0] in post;
    }
  }

  /** The rows that win the merge of a file and what a refresh adds. */
  ghost predicate Wins(parse: Parse, boundary: int, existing: seq<Row>, feed: Feed, r: Row) {
    IsLast(existing + Incoming(parse, boundary, existing, feed), r)
  }

  /**
   * Exactly what is written, from a file of any content: of every stamp the row that came
   * last; all of these up to the boundary, and behind it all but those later than
   * `target` others.
   */
  lemma WrittenIsExactly(parse: Parse, boundary: int, target: nat, existing: seq<Row>, feed: Feed, r: Row)
    ensures var rows := Written(parse, boundary, target, existing, feed);
      && (r in rows ==> Wins(parse, boundary, existing, feed, r))
      && (Wins(parse, boundary, existing, feed, r) && r !in rows ==>
            && parse(r.stamp) > boundary && |Post(parse, rows, boundary)| == target
            && forall o <- rows :: parse(o.stamp) <= parse(r.stamp))
  {
    var incoming := Incoming(parse, boundary, existing, feed);
    PutAllTwice(existing, incoming);
    PutAllIsLast(existing + incoming, r);
    var merged := PutAll([], existing + incoming);
    SortByTimeSorts(parse, merged);
    CountOfWritten(parse, boundary, target, existing, feed);
    CutIsExactly(parse, boundary, target, SortByTime(parse, merged), r);
  }

  lemma CutIsExactly(parse: Parse, boundary: int, target: nat, rows: seq<Row>, r: Row)
    requires SortedByTime(parse, rows)
    ensures var cut := Cut(parse, boundary, target, rows);
      && (r in cut ==> r in rows)
      && (r in rows && r !in cut ==>
            && parse(r.stamp) > boundary && |Take(Post(parse, rows, boundary), target)| == target
            && forall o <- cut :: parse(o.stamp) <= parse(r.stamp))
  {
    SortedSplits(parse, rows, boundary);
    var pre, post := Pre(parse, rows, boundary), Post(parse, rows, boundary);
    var cut := pre + Take(post, target);
    assert cut <= rows;
    BehindThePrefix(parse, rows, cut, r);
    if r in rows && r !in cut {
      assert r in post;
    }
  }

  lemma BehindThePrefix(parse: Parse, rows: seq<Row>, prefix: seq<Row>, r: Row)
    requires SortedByTime(parse, rows) && prefix <= rows
    ensures r in prefix ==> r in rows
    ensures r in rows && r !in prefix ==> forall o <- prefix :: parse(o.stamp) <= parse(r.stamp)
  {
    if r in rows && r !in prefix {
      var i :| 0 <= i < |rows| && rows[i] == r;
      assert forall k :: 0 <= k < |prefix| ==> rows[k] == prefix[k] && prefix[k] in prefix;
    }
  }

  // Runs.

  datatype Counter = Counter(complete: bool, hash: Option<string>)

  /** What may go wrong in a run. */
  datatype Fault = NoFault | DownloadFails | DiesBeforeFile | DiesBeforeCounter

  /** One run: the counter file as this run finds it (as left, lost, or put there by somebody else), and its feed. */
  datatype Attempt = Attempt(counter: Option<Counter>, feed: Feed, fault: Fault)

  datatype Outcome = Refused | AlreadySealed | Interrupted | Refreshed

  function Rows(file: Option<seq<Row>>): seq<Row> {
    if file.Some? then file.value else []
  }

  predicate Sealed(file: Option<seq<Row>>, counter: Option<Counter>) {
    counter.Some? && file.Some? && counter.value.complete
  }

  /** The holdout file after one run. */
  function AfterRun(parse: Parse, boundary: int, target: nat, file: Option<seq<Row>>, a: Attempt): Option<seq<Row>> {
    if Sealed(file, a.counter) || a.fault.DownloadFails? || a.fault.DiesBeforeFile? then file
    else Some(Written(parse, boundary, target, Rows(file), a.feed))
  }

  function AfterRuns(parse: Parse, boundary: int, target: nat, file: Option<seq<Row>>, runs: seq<Attempt>)
    : Option<seq<Row>>
    decreases |runs|
  {
    if runs == [] then file
    else
      var before := AfterRuns(parse, boundary, target, file, runs[..|runs| - 1]);
      AfterRun(parse, boundary, target, before, runs[|runs| - 1])
  }

  lemma OneRunAppends(parse: Parse, boundary: int, target: nat, file: Option<seq<Row>>, a: Attempt)
    requires Canonical(parse, boundary, target, Rows(file))
    ensures OnlyAppended(parse, boundary, target, Rows(file), Rows(AfterRun(parse, boundary, target, file, a)))
  {
    RefreshAppends(parse, boundary, target, Rows(file), a.feed);
    NothingAppended(parse, boundary, target, Rows(file));
  }

  lemma NothingAppended(parse: Parse, boundary: int, target: nat, rows: seq<Row>)
    requires Canonical(parse, boundary, target, rows)
    ensures OnlyAppended(parse, boundary, target, rows, rows)
  {
  }

  lemma OnlyAppendedTwice(parse: Parse, boundary: int, target: nat, first: seq<Row>, second: seq<Row>, third: seq<Row>)
    requires OnlyAppended(parse, boundary, target, first, second)
    requires OnlyAppended(parse, boundary, target, second, third)
    ensures OnlyAppended(parse, boundary, target, first, third)
  {
  }

  /**
   * Over any number of runs, with any feeds, failures and counter files: the rows up
   * to the boundary never change, the rows behind it only grow at their end and never
   * beyond the target, and once the target is reached the file is frozen, counter or not.
   */
  lemma {:induction false} AppendOnlyThenFrozen(parse: Parse, boundary: int, target: nat, file: Option<seq<Row>>,
                                                runs: seq<Attempt>)
    requires Canonical(parse, boundary, target, Rows(file))
    ensures OnlyAppended(parse, boundary, target, Rows(file),
                         Rows(AfterRuns(parse, boundary, target, file, runs)))
    decreases |runs|
  {
    if runs != [] {
      var before := AfterRuns(parse, boundary, target, file, runs[..|runs| - 1]);
      AppendOnlyThenFrozen(parse, boundary, target, file, runs[..|runs| - 1]);
      OneRunAppends(parse, boundary, target, before, runs[|runs| - 1]);
      OnlyAppendedTwice(parse, boundary, target, Rows(file), Rows(before),
                        Rows(AfterRun(parse, boundary, target, before, runs[|runs| - 1])));
    }
  }

  /** A file of any content is untouched until the first refresh makes it canonical; no run undoes that. */
  lemma {:induction false} UntouchedOrCanonical(parse: Parse, boundary: int, target: nat, file: Option<seq<Row>>,
                                                runs: seq<Attempt>)
    ensures var now := AfterRuns(parse, boundary, target, file, runs);
      now == file || Canonical(parse, boundary, target, Rows(now))
    decreases |runs|
  {
    if runs != [] {
      var before := AfterRuns(parse, boundary, target, file, runs[..|runs| - 1]);
      UntouchedOrCanonical(parse, boundary, target, file, runs[..|runs| - 1]);
      RefreshIsCanonical(parse, boundary, target, Rows(before), runs[|runs| - 1].feed);
    }
  }

  // The program.

  /** read_cached_contiguous_rows. */
  method ReadCachedContiguousRows(parse: Parse, feed: Feed, startAfter: int) returns (recovered: seq<Row>)
    ensures recovered == Walk(parse, feed, FirstHour(startAfter), LastClosedHour(feed.now), startAfter)
    ensures forall r ::
      (r in recovered <==> Cached(parse, feed, startAfter, FirstHour(startAfter), LastClosedHour(feed.now), r))
  {
    recovered := ReadHours(parse, feed, FirstHour(startAfter), LastClosedHour(feed.now), startAfter);
    forall r
      ensures r in recovered <==> Cached(parse, feed, startAfter, FirstHour(startAfter), LastClosedHour(feed.now), r)
    {
      WalkIsExactly(parse, feed, FirstHour(startAfter), LastClosedHour(feed.now), startAfter, r);
    }
  }

  /** Its loop over the hours. */
  method ReadHours(parse: Parse, feed: Feed, firstHour: int, lastClosedHour: int, startAfter: int)
    returns (recovered: seq<Row>)
    ensures recovered == Walk(parse, feed, firstHour, lastClosedHour, startAfter)
  {
    recovered := [];
    var hour, frontier := firstHour, startAfter;
    ghost var whole := Walk(parse, feed, hour, lastClosedHour, startAfter);
    while hour <= lastClosedHour
      invariant whole == recovered + Walk(parse, feed, hour, lastClosedHour, frontier)
      decreases lastClosedHour - hour
    {
      if hour in feed.closed {
        hour := hour + 3600;
        continue;
      }
      if hour !in feed.cache {
        break;
      }
      var kept := KeepLater(parse, feed.cache[hour], frontier);
      WalkOneHour(parse, feed, hour, lastClosedHour, frontier, recovered);
      recovered := recovered + kept;
      frontier := Latest(parse, feed.cache[hour], frontier);
      hour := hour + 3600;
    }
    assert recovered + [] == recovered;
  }

  lemma WalkOneHour(parse: Parse, feed: Feed, hour: int, last: int, frontier: int, recovered: seq<Row>)
    requires hour <= last && hour !in feed.closed && hour in feed.cache
    ensures recovered + Walk(parse, feed, hour, last, frontier)
      == (recovered + Filter(parse, feed.cache[hour], frontier, true))
         + Walk(parse, feed, hour + 3600, last, Latest(parse, feed.cache[hour], frontier))
  {
    var kept := Filter(parse, feed.cache[hour], frontier, true);
    var rest := Walk(parse, feed, hour + 3600, last, Latest(parse, feed.cache[hour], frontier));
    assert Walk(parse, feed, hour, last, frontier) == kept + rest;
    Associates(recovered, kept, rest);
  }

  lemma Associates(a: seq<Row>, b: seq<Row>, c: seq<Row>)
    ensures a + (b + c) == (a + b) + c
  {
  }

  method KeepLater(parse: Parse, rows: seq<Row>, low: int) returns (kept: seq<Row>)
    ensures kept == Filter(parse, rows, low, true)
  {
    kept := [];
    for i := 0 to |rows|
      invariant kept == Filter(parse, rows[..i], low, true)
    {
      FilterAppend(parse, rows[..i], [rows[i]], low, true);
      assert rows[..i + 1] == rows[..i] + [rows[i]];
      if parse(rows[i].stamp) > low {
        kept := kept + [rows[i]];
      }
    }
    assert rows[..|rows|] == rows;
  }

  /** The holdout file and its counter file; `hash` stands for SHA-256. */
  class Updater {
    const parse: Parse
    const hash: seq<Row> -> string
    const boundary: int
    const target: nat
    var file: Option<seq<Row>>
    var counter: Option<Counter>

    constructor (parse: Parse, hash: seq<Row> -> string, boundary: int, target: nat,
                 file: Option<seq<Row>>, counter: Option<Counter>)
      ensures this.parse == parse && this.hash == hash && this.boundary == boundary && this.target == target
      ensures this.file == file && this.counter == counter
    {
      this.parse, this.hash, this.boundary, this.target := parse, hash, boundary, target;
      this.file, this.counter := file, counter;
    }

    /** The dictionary of the rows in the file. */
    method Load(existing: seq<Row>) returns (merged: seq<Row>)
      ensures merged == PutAll([], existing)
    {
      merged := [];
      for i := 0 to |existing|
        invariant merged == PutAll([], existing[..i])
      {
        assert existing[..i + 1][..i] == existing[..i];
        merged := Put(merged, existing[i]);
      }
      assert existing[..|existing|] == existing;
    }

    /** The merging loop: every new row behind the boundary, by stamp. */
    method Merge(loaded: seq<Row>, incoming: seq<Row>) returns (merged: seq<Row>)
      ensures merged == PutAll(loaded, Post(parse, incoming, boundary))
    {
      merged := loaded;
      ghost var taken: seq<Row> := [];
      for i := 0 to |incoming|
        invariant taken == Post(parse, incoming[..i], boundary) && merged == PutAll(loaded, taken)
      {
        PostOfOneMore(parse, boundary, incoming, i);
        if parse(incoming[i].stamp) > boundary {
          PutAllOneMore(loaded, taken, incoming[i]);
          merged, taken := Put(merged, incoming[i]), taken + [incoming[i]];
        }
      }
      assert incoming[..|incoming|] == incoming;
    }

    /** The rows to be written and, of those, the new ones. */
    method Prepare(existing: seq<Row>, feed: Feed) returns (rows: seq<Row>, post: seq<Row>)
      ensures rows == Written(parse, boundary, target, existing, feed) && post == Post(parse, rows, boundary)
    {
      var existingPost := KeepLater(parse, existing, boundary);
      var frontier := Latest(parse, existingPost, boundary);
      var recent := if existingPost != [] then [] else feed.recent;
      var cached := ReadCachedContiguousRows(parse, feed, frontier);
      var merged := Load(existing);
      merged := Merge(merged, recent + cached);
      rows := SortByTime(parse, merged);
      var prefix := Pre(parse, rows, boundary);
      post := KeepLater(parse, rows, boundary);
      if |post| >= target {
        post := post[..target];
      }
      CountOfWritten(parse, boundary, target, existing, feed);
      rows := prefix + post;
    }

    /**
     * main.  A sealed holdout is never written; one that no longer has the hash in its
     * counter is refused.  Otherwise the merged file is written first and the counter,
     * which says whether the target is reached and what the file hashes to, last.
     */
    method Run(feed: Feed, fault: Fault) returns (outcome: Outcome)
      modifies this
      ensures file == AfterRun(parse, boundary, target, old(file), Attempt(old(counter), feed, fault))
      ensures var sealed := old(file).Some? && old(counter).Some? && old(counter).value.complete;
        && (sealed || fault == DownloadFails || fault == DiesBeforeFile ==> file == old(file))
        && (!sealed && (fault == NoFault || fault == DiesBeforeCounter) ==>
              file == Some(Written(parse, boundary, target, Rows(old(file)), feed)))
        && (sealed ==>
              outcome == if old(counter).value.hash in {None, Some(hash(old(file).value))} then AlreadySealed
                         else Refused)
        && (!sealed ==> outcome == if fault == NoFault then Refreshed else Interrupted)
      ensures outcome != Refreshed ==> counter == old(counter)
      ensures outcome == Refreshed ==>
        && file.Some?
        && counter == Some(Counter(|Post(parse, file.value, boundary)| >= target, Some(hash(file.value))))
    {
      if counter.Some? && file.Some? {
        var previous := counter.value;
        if previous.complete {
          if previous.hash.Some? && hash(file.value) != previous.hash.value {
            return Refused;
          }
          return AlreadySealed;
        }
      }
      if fault.DownloadFails? {
        return Interrupted;
      }
      var rows, post := Prepare(Rows(file), feed);
      if fault.DiesBeforeFile? {
        return Interrupted;
      }
      file := Some(rows);
      if fault.DiesBeforeCounter? {
        return Interrupted;
      }
      counter := Some(Counter(|post| >= target, Some(hash(rows))));
      return Refreshed;
    }
  }

  lemma PostOfOneMore(parse: Parse, boundary: int, rows: seq<Row>, i: nat)
    requires i < |rows|
    ensures Post(parse, rows[..i + 1], boundary)
      == Post(parse, rows[..i], boundary) + if parse(rows[i].stamp) > boundary then [rows[i]] else []
  {
    FilterAppend(parse, rows[..i], [rows[i]], boundary, true);
    assert rows[..i + 1] == rows[..i] + [rows[i]];
  }

  lemma PutAllOneMore(loaded: seq<Row>, more: seq<Row>, r: Row)
    ensures PutAll(loaded, more + [r]) == Put(PutAll(loaded, more), r)
  {
    assert (more + [r])[..|more|] == more;
  }

  /** The number the counter reports is the number of new rows in the file. */
  lemma CountOfWritten(parse: Parse, boundary: int, target: nat, existing: seq<Row>, feed: Feed)
    ensures var rows := Merged(parse, boundary, existing, feed);
      Post(parse, Written(parse, boundary, target, existing, feed), boundary)
      == Take(Post(parse, rows, boundary), target)
  {
    var rows := Merged(parse, boundary, existing, feed);
    var pre, post := Pre(parse, rows, boundary), Post(parse, rows, boundary);
    SplitOf(parse, boundary, pre, Take(post, target), post);
  }
}
