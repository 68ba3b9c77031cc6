/**
 * First barrier touch of a quote path (build_quote_path_labels_fast.py): the array
 * form of _first_hit against a scan of the path, and the label of one decision second
 * in label_day_fast.  Prices are exact reals.
 */
module FirstHit {
  import opened Wrappers

  const HORIZON_SECONDS: nat := 300
  const DAY_SECONDS: nat := 86400

  /** 1 for a touch of the upper barrier, -1 for the lower, 0 for none; and the valid seconds up to the touch. */
  datatype Hit = Hit(outcome: int, seconds: Option<nat>)

  // The array operations.

  predicate Any(mask: seq<bool>) {
    true in mask
  }

  /** The first true position; 0 if there is none. */
  function ArgMax(mask: seq<bool>): nat {
    if mask == [] || mask[0] || !Any(mask) then 0 else 1 + ArgMax(mask[1..])
  }

  /** The valid quotes among the first n. */
  function Count(valid: seq<bool>, n: nat): (c: nat)
    requires n <= |valid|
    ensures c <= n
  {
    if n == 0 then 0 else Count(valid, n - 1) + if valid[n - 1] then 1 else 0
  }

  function CumSum(valid: seq<bool>): (sums: seq<nat>)
    ensures |sums| == |valid|
  {
    seq(|valid|, i requires 0 <= i < |valid| => Count(valid, i + 1))
  }

  function Up(values: seq<real>, valid: seq<bool>, barrier: real): (mask: seq<bool>)
    requires |values| == |valid|
    ensures |mask| == |values| && forall i :: 0 <= i < |mask| ==> mask[i] == (valid[i] && values[i] >= barrier)
  {
    seq(|values|, i requires 0 <= i < |values| => valid[i] && values[i] >= barrier)
  }

  function Down(values: seq<real>, valid: seq<bool>, barrier: real): (mask: seq<bool>)
    requires |values| == |valid|
    ensures |mask| == |values| && forall i :: 0 <= i < |mask| ==> mask[i] == (valid[i] && values[i] <= -barrier)
  {
    seq(|values|, i requires 0 <= i < |values| => valid[i] && values[i] <= -barrier)
  }

  function Position(mask: seq<bool>): nat {
    if Any(mask) then ArgMax(mask) else HORIZON_SECONDS + 1
  }

  /** One row of _first_hit. */
  function FirstHitRow(values: seq<real>, valid: seq<bool>, barrier: real): Hit
    requires |values| == |valid|
  {
    var up, down := Up(values, valid, barrier), Down(values, valid, barrier);
    PositionIs(up);
    PositionIs(down);
    var upPos, downPos := Position(up), Position(down);
    var outcome := if upPos < downPos then 1 else if downPos < upPos then -1 else 0;
    var hitPos := if upPos < downPos then upPos else downPos;
    Hit(outcome, if outcome != 0 then Some(CumSum(valid)[hitPos]) else None)
  }

  // The scan.

  predicate Touches(values: seq<real>, valid: seq<bool>, barrier: real, i: nat)
    requires i < |values| == |valid|
  {
    valid[i] && (values[i] >= barrier || values[i] <= -barrier)
  }

  /** Left to right from second `i`, `quotes` valid seconds having been seen; stops at the first touch. */
  function Scan(values: seq<real>, valid: seq<bool>, barrier: real, i: nat, quotes: nat): Hit
    requires i <= |values| == |valid|
    decreases |values| - i
  {
    if i == |values| then Hit(0, None)
    else if !valid[i] then Scan(values, valid, barrier, i + 1, quotes)
    else if values[i] >= barrier then Hit(1, Some(quotes + 1))
    else if values[i] <= -barrier then Hit(-1, Some(quotes + 1))
    else Scan(values, valid, barrier, i + 1, quotes + 1)
  }

  lemma {:induction false} PositionIs(mask: seq<bool>)
    ensures Any(mask) ==> Position(mask) < |mask| && mask[Position(mask)]
    ensures forall i :: 0 <= i < |mask| && i < Position(mask) && Any(mask) ==> !mask[i]
    ensures !Any(mask) ==> forall i :: 0 <= i < |mask| ==> !mask[i]
  {
    if mask != [] && !mask[0] && Any(mask) {
      assert mask[1..] + [] == mask[1..] && mask == [mask[0]] + mask[1..];
      PositionIs(mask[1..]);
      forall i | 0 <= i < ArgMax(mask) ensures !mask[i] {
        assert i > 0 ==> mask[i] == mask[1..][i - 1];
      }
    }
  }

  lemma {:induction false} ScanFinds(values: seq<real>, valid: seq<bool>, barrier: real, i: nat, k: nat)
    requires i <= k < |values| == |valid| && Touches(values, valid, barrier, k)
    requires forall j :: i <= j < k ==> !Touches(values, valid, barrier, j)
    ensures Scan(values, valid, barrier, i, Count(valid, i))
      == Hit(if values[k] >= barrier then 1 else -1, Some(Count(valid, k + 1)))
    decreases k - i
  {
    if i < k {
      assert !Touches(values, valid, barrier, i);
      ScanFinds(values, valid, barrier, i + 1, k);
    }
  }

  lemma {:induction false} ScanFindsNothing(values: seq<real>, valid: seq<bool>, barrier: real, i: nat)
    requires i <= |values| == |valid|
    requires forall j :: i <= j < |values| ==> !Touches(values, valid, barrier, j)
    ensures Scan(values, valid, barrier, i, Count(valid, i)) == Hit(0, None)
    decreases |values| - i
  {
    if i < |values| {
      assert !Touches(values, valid, barrier, i);
      ScanFindsNothing(values, valid, barrier, i + 1);
    }
  }

  /** The scan from the start ends at the first touch, if there is one. */
  lemma {:induction false} FirstTouch(values: seq<real>, valid: seq<bool>, barrier: real, i: nat) returns (k: nat)
    requires i <= |values| == |valid|
    requires forall j :: 0 <= j < i ==> !Touches(values, valid, barrier, j)
    ensures k <= |values| && forall j :: 0 <= j < k ==> !Touches(values, valid, barrier, j)
    ensures k < |values| ==> Touches(values, valid, barrier, k)
    decreases |values| - i
  {
    if i == |values| || Touches(values, valid, barrier, i) {
      k := i;
    } else {
      k := FirstTouch(values, valid, barrier, i + 1);
    }
  }

  /** What the array form answers on a row whose first touch is at `k`. */
  lemma ArrayFinds(values: seq<real>, valid: seq<bool>, barrier: real, k: nat)
    requires k < |values| == |valid| && barrier > 0.0 && k <= HORIZON_SECONDS
    requires Touches(values, valid, barrier, k)
    requires forall j :: 0 <= j < k ==> !Touches(values, valid, barrier, j)
    requires |values| <= HORIZON_SECONDS + 1
    ensures FirstHitRow(values, valid, barrier)
      == Hit(if values[k] >= barrier then 1 else -1, Some(Count(valid, k + 1)))
  {
    var up, down := Up(values, valid, barrier), Down(values, valid, barrier);
    PositionIs(up);
    PositionIs(down);
    var first, other := if values[k] >= barrier then up else down, if values[k] >= barrier then down else up;
    assert first[k] && !other[k];
    forall j | 0 <= j < k ensures !first[j] && !other[j] {
      assert !Touches(values, valid, barrier, j);
    }
    assert Position(first) == k < Position(other);
  }

  lemma ArrayFindsNothing(values: seq<real>, valid: seq<bool>, barrier: real)
    requires |values| == |valid|
    requires forall j :: 0 <= j < |values| ==> !Touches(values, valid, barrier, j)
    ensures FirstHitRow(values, valid, barrier) == Hit(0, None)
  {
    var up, down := Up(values, valid, barrier), Down(values, valid, barrier);
    PositionIs(up);
    PositionIs(down);
    forall j | 0 <= j < |values| ensures !up[j] && !down[j] {
      assert !Touches(values, valid, barrier, j);
    }
  }

  /** On rows of at most 301 seconds the array form is the scan. */
  lemma ArrayFormIsScan(values: seq<real>, valid: seq<bool>, barrier: real)
    requires |values| == |valid| <= HORIZON_SECONDS + 1 && barrier > 0.0
    ensures FirstHitRow(values, valid, barrier) == Scan(values, valid, barrier, 0, 0)
  {
    var k := FirstTouch(values, valid, barrier, 0);
    if k < |values| {
      ArrayFinds(values, valid, barrier, k);
      ScanFinds(values, valid, barrier, 0, k);
    } else {
      ArrayFindsNothing(values, valid, barrier);
      ScanFindsNothing(values, valid, barrier, 0);
    }
  }

  ghost predicate RightFor(n: nat) {
    forall values: seq<real>, valid: seq<bool>, barrier: real ::
      |values| == |valid| == n && barrier > 0.0
      ==> FirstHitRow(values, valid, barrier) == Scan(values, valid, barrier, 0, 0)
  }

  /**
   * The default position of a path without touch is 301, so the array form is right
   * for every row of a length exactly when the length is at most 301.
   */
  lemma RightUpToTheDefaultPosition(n: nat)
    ensures RightFor(n) <==> n <= HORIZON_SECONDS + 1
  {
    if n <= HORIZON_SECONDS + 1 {
      forall values: seq<real>, valid: seq<bool>, barrier: real | |values| == |valid| == n && barrier > 0.0
        ensures FirstHitRow(values, valid, barrier) == Scan(values, valid, barrier, 0, 0)
      {
        ArrayFormIsScan(values, valid, barrier);
      }
    } else {
      LateTouchIsMissed(n);
    }
  }

  /** A single touch of the upper barrier at second 301 is not seen. */
  lemma LateTouchIsMissed(n: nat)
    requires n > HORIZON_SECONDS + 1
    ensures !RightFor(n)
  {
    var late := HORIZON_SECONDS + 1;
    var values := seq(n, i => if i == late then 1.0 else 0.0);
    var valid := seq(n, i => true);
    ScanFinds(values, valid, 1.0, 0, late);
    var up, down := Up(values, valid, 1.0), Down(values, valid, 1.0);
    PositionIs(up);
    PositionIs(down);
    assert up[late];
    assert FirstHitRow(values, valid, 1.0).outcome == 0;
  }

  /** A touch of the wider barriers is a touch of the narrower ones, in the same second or earlier. */
  lemma NarrowBarrierIsTouchedFirst(values: seq<real>, valid: seq<bool>, narrow: real, wide: real)
    requires |values| == |valid| <= HORIZON_SECONDS + 1 && 0.0 < narrow <= wide
    ensures var n, w := FirstHitRow(values, valid, narrow), FirstHitRow(values, valid, wide);
      w.seconds.Some? ==> n.seconds.Some? && n.seconds.value <= w.seconds.value
  {
    var w := FirstTouch(values, valid, wide, 0);
    if w < |values| {
      var n := NarrowTouch(values, valid, narrow, wide, w);
      ArrayFinds(values, valid, wide, w);
      ArrayFinds(values, valid, narrow, n);
      CountGrows(valid, n + 1, w + 1);
    } else {
      ArrayFindsNothing(values, valid, wide);
    }
  }

  lemma NarrowTouch(values: seq<real>, valid: seq<bool>, narrow: real, wide: real, w: nat) returns (n: nat)
    requires w < |values| == |valid| && 0.0 < narrow <= wide && Touches(values, valid, wide, w)
    ensures n <= w && Touches(values, valid, narrow, n)
    ensures forall j :: 0 <= j < n ==> !Touches(values, valid, narrow, j)
  {
    n := FirstTouch(values, valid, narrow, 0);
    assert Touches(values, valid, narrow, w);
  }

  lemma {:induction false} CountGrows(valid: seq<bool>, a: nat, b: nat)
    requires a <= b <= |valid|
    ensures Count(valid, a) <= Count(valid, b)
    decreases b - a
  {
    if a < b {
      CountGrows(valid, a, b - 1);
    }
  }

  // The label of one decision second.

  type Price = x: real | x > 0.0 witness 1.0

  datatype Quote = Quote(bid: Price, ask: Price)

  /** The quotes of a day and the first five minutes of the next, one place a second. */
  type Day = d: seq<Option<Quote>> | |d| == DAY_SECONDS + HORIZON_SECONDS
    witness seq(DAY_SECONDS + HORIZON_SECONDS, i => None)

  /** `ffill(limit=5)`: the latest quote of this second and the `limit` seconds before it. */
  function Filled(day: Day, second: nat, limit: nat): Option<Quote>
    requires second < |day|
    decreases limit
  {
    if day[second].Some? then day[second]
    else if limit == 0 || second == 0 then None
    else Filled(day, second - 1, limit - 1)
  }

  const FILL_LIMIT: nat := 5

  predicate IsDecision(d: int) {
    60 <= d < DAY_SECONDS && d % 60 == 0
  }

  function Future(day: Day, d: int): (quotes: seq<Option<Quote>>)
    requires IsDecision(d)
    ensures |quotes| == HORIZON_SECONDS
  {
    seq(HORIZON_SECONDS, k requires 0 <= k < HORIZON_SECONDS => Filled(day, d + k, FILL_LIMIT))
  }

  function ValidOf(future: seq<Option<Quote>>): (valid: seq<bool>)
    ensures |valid| == |future|
  {
    seq(|future|, k requires 0 <= k < |future| => future[k].Some?)
  }

  function LongReturns(entry: Quote, future: seq<Option<Quote>>): (values: seq<real>)
    ensures |values| == |future|
  {
    seq(|future|, k requires 0 <= k < |future| =>
      if future[k].Some? then future[k].value.bid / entry.ask - 1.0 else 0.0)
  }

  function ShortReturns(entry: Quote, future: seq<Option<Quote>>): (values: seq<real>)
    ensures |values| == |future|
  {
    seq(|future|, k requires 0 <= k < |future| =>
      if future[k].Some? then entry.bid / future[k].value.ask - 1.0 else 0.0)
  }

  function Reversed(mask: seq<bool>): (r: seq<bool>)
    ensures |r| == |mask|
  {
    seq(|mask|, i requires 0 <= i < |mask| => mask[|mask| - 1 - i])
  }

  /** At least 150 valid seconds, one of them among the last 30. */
  predicate Enough(valid: seq<bool>)
    requires |valid| == HORIZON_SECONDS
  {
    Count(valid, |valid|) >= 150 && Any(valid[|valid| - 30..])
  }

  /** nanmax and nanmin over the first n values. */
  function Highest(values: seq<real>, valid: seq<bool>, n: nat): Option<real>
    requires n <= |values| == |valid|
  {
    if n == 0 then None
    else
      var h := Highest(values, valid, n - 1);
      if valid[n - 1] && (h.None? || values[n - 1] > h.value) then Some(values[n - 1]) else h
  }

  function Lowest(values: seq<real>, valid: seq<bool>, n: nat): Option<real>
    requires n <= |values| == |valid|
  {
    if n == 0 then None
    else
      var l := Lowest(values, valid, n - 1);
      if valid[n - 1] && (l.None? || values[n - 1] < l.value) then Some(values[n - 1]) else l
  }

  /** One side of a label: the best, worst and last return in basis points, and the first hit for each barrier. */
  datatype Side = Side(mfe: Option<real>, mae: Option<real>, terminal: real, hits: map<real, Hit>)

  datatype Label = Label(quotes: nat, long: Side, short: Side)

  const BARRIERS_BPS: set<real> := {0.5, 1.0, 2.0}

  /** A return in basis points. */
  function Bps(value: Option<real>): Option<real> {
    match value case Some(v) => Some(v * 10000.0) case None => None
  }

  function LastPosition(valid: seq<bool>): int
    requires |valid| == HORIZON_SECONDS
  {
    HORIZON_SECONDS - 1 - ArgMax(Reversed(valid))
  }

  function SideOf(values: seq<real>, valid: seq<bool>): Side
    requires |values| == |valid| == HORIZON_SECONDS && Enough(valid)
  {
    LastPositionIs(valid);
    Side(Bps(Highest(values, valid, |values|)), Bps(Lowest(values, valid, |values|)),
         values[LastPosition(valid)] * 10000.0,
         map b | b in BARRIERS_BPS :: FirstHitRow(values, valid, b / 10000.0))
  }

  /** The label of decision second `d`, None when the row is dropped. */
  function LabelAt(day: Day, d: int): Option<Label>
    requires IsDecision(d)
  {
    var entry := Filled(day, d - 1, FILL_LIMIT);
    var future := Future(day, d);
    var valid := ValidOf(future);
    if entry.None? || !Enough(valid) then None
    else Some(Label(Count(valid, |valid|),
                    SideOf(LongReturns(entry.value, future), valid),
                    SideOf(ShortReturns(entry.value, future), valid)))
  }

  /** The last position is the last valid second, and one of the last thirty. */
  lemma LastPositionIs(valid: seq<bool>)
    requires |valid| == HORIZON_SECONDS && Enough(valid)
    ensures var last := LastPosition(valid);
      HORIZON_SECONDS - 30 <= last < HORIZON_SECONDS && valid[last] && forall k :: last < k < |valid| ==> !valid[k]
  {
    var r := Reversed(valid);
    var recent :| 0 <= recent < 30 && valid[|valid| - 30..][recent];
    assert valid[|valid| - 30 + recent];
    assert r[29 - recent];
    PositionIs(r);
    forall k | LastPosition(valid) < k < |valid| ensures !valid[k] {
      assert !r[|valid| - 1 - k];
    }
  }

  lemma {:induction false} ExtremesAre(values: seq<real>, valid: seq<bool>, n: nat, k: nat)
    requires k < n <= |values| == |valid| && valid[k]
    ensures var h, l := Highest(values, valid, n), Lowest(values, valid, n);
      h.Some? && l.Some? && l.value <= values[k] <= h.value
  {
    if k < n - 1 {
      ExtremesAre(values, valid, n - 1, k);
    }
  }

  lemma {:induction false} ExtremesAreReached(values: seq<real>, valid: seq<bool>, n: nat)
    requires n <= |values| == |valid|
    ensures var h := Highest(values, valid, n); h.Some? ==> exists i | 0 <= i < n :: valid[i] && values[i] == h.value
    ensures var l := Lowest(values, valid, n); l.Some? ==> exists i | 0 <= i < n :: valid[i] && values[i] == l.value
  {
    if n > 0 {
      ExtremesAreReached(values, valid, n - 1);
    }
  }

  /**
   * The columns of a label agree with each other: the last return lies between the
   * worst and the best, and a barrier is reported as touched exactly when the best
   * return reaches it above or the worst below.
   */
  lemma HitsAgreeWithExtremes(values: seq<real>, valid: seq<bool>, barrier: real)
    requires |values| == |valid| == HORIZON_SECONDS && Enough(valid) && barrier > 0.0
    ensures var side := SideOf(values, valid);
      && side.mfe.Some? && side.mae.Some? && side.mae.value <= side.terminal <= side.mfe.value
      && (FirstHitRow(values, valid, barrier).outcome != 0
          <==> side.mfe.value >= barrier * 10000.0 || side.mae.value <= -barrier * 10000.0)
  {
    LastPositionIs(valid);
    ExtremesAre(values, valid, |values|, LastPosition(valid));
    ExtremesAreReached(values, valid, |values|);
    var h, l := Highest(values, valid, |values|).value, Lowest(values, valid, |values|).value;
    var k := FirstTouch(values, valid, barrier, 0);
    if k < |values| {
      ArrayFinds(values, valid, barrier, k);
      ExtremesAre(values, valid, |values|, k);
    } else {
      ArrayFindsNothing(values, valid, barrier);
      var a :| 0 <= a < |values| && valid[a] && values[a] == h;
      var b :| 0 <= b < |values| && valid[b] && values[b] == l;
      assert !Touches(values, valid, barrier, a) && !Touches(values, valid, barrier, b);
    }
  }

  // What a label says, by the quotes alone.

  /** `q` is the latest quote of the second and the `limit` seconds before it. */
  ghost predicate IsFill(day: Day, second: nat, limit: nat, q: Option<Quote>)
    requires second < |day|
  {
    match q
    case Some(_) =>
      exists s: nat :: second - limit <= s <= second && day[s] == q && forall t :: s < t <= second ==> day[t] == None
    case None => forall s: nat :: second - limit <= s <= second ==> day[s] == None
  }

  lemma {:induction false} FilledIsFill(day: Day, second: nat, limit: nat)
    requires second < |day|
    ensures IsFill(day, second, limit, Filled(day, second, limit))
    decreases limit
  {
    if day[second].None? && limit > 0 && second > 0 {
      FilledIsFill(day, second - 1, limit - 1);
    } else if day[second].Some? {
      assert day[second] == Filled(day, second, limit);
    }
  }

  lemma OneFill(day: Day, second: nat, limit: nat, q: Option<Quote>)
    requires second < |day| && IsFill(day, second, limit, q)
    ensures q == Filled(day, second, limit)
  {
    FilledIsFill(day, second, limit);
  }

  /** What a position opened at `entry` has earned at quote `q`, in basis points: bought at the ask, sold at the bid. */
  function Earned(long: bool, entry: Quote, q: Quote): real {
    if long then (q.bid / entry.ask - 1.0) * 10000.0 else (entry.bid / q.ask - 1.0) * 10000.0
  }

  /** The seconds before `n` that have a quote. */
  function Quoted(future: seq<Option<Quote>>, n: nat): set<nat>
    requires n <= |future|
  {
    set k: nat | k < n && future[k].Some?
  }

  lemma {:induction false} CountIsQuoted(future: seq<Option<Quote>>, n: nat)
    requires n <= |future|
    ensures Count(ValidOf(future), n) == |Quoted(future, n)|
  {
    if n > 0 {
      CountIsQuoted(future, n - 1);
      if future[n - 1].Some? {
        assert Quoted(future, n) == Quoted(future, n - 1) + {n - 1};
      } else {
        assert Quoted(future, n) == Quoted(future, n - 1);
      }
    }
  }

  /** The return at second `k` lies strictly between the barriers, or there is none. */
  ghost predicate Inside(long: bool, entry: Quote, q: Option<Quote>, bps: real) {
    q.Some? ==> -bps < Earned(long, entry, q.value) < bps
  }

  /** The first second at which a barrier is reached, which one, and how many quotes that took; or that none is. */
  ghost predicate IsHit(hit: Hit, long: bool, entry: Quote, future: seq<Option<Quote>>, bps: real) {
    || (hit == Hit(0, None) && forall k :: 0 <= k < |future| ==> Inside(long, entry, future[k], bps))
    || exists k: nat :: k < |future| && future[k].Some?
         && (forall j :: 0 <= j < k ==> Inside(long, entry, future[j], bps))
         && hit.seconds == Some(|Quoted(future, k + 1)|)
         && (if hit.outcome == 1 then Earned(long, entry, future[k].value) >= bps
             else hit.outcome == -1 && Earned(long, entry, future[k].value) <= -bps)
  }

  ghost predicate IsLast(long: bool, entry: Quote, future: seq<Option<Quote>>, terminal: real) {
    exists k :: 0 <= k < |future| && future[k].Some? && terminal == Earned(long, entry, future[k].value)
      && forall j :: k < j < |future| ==> future[j] == None
  }

  /** No quote earns more than `best` or less than `worst`, and some quotes earn these. */
  ghost predicate AreExtremes(long: bool, entry: Quote, future: seq<Option<Quote>>, best: real, worst: real) {
    && (forall k :: 0 <= k < |future| && future[k].Some? ==> worst <= Earned(long, entry, future[k].value) <= best)
    && (exists k :: 0 <= k < |future| && future[k].Some? && Earned(long, entry, future[k].value) == best)
    && (exists k :: 0 <= k < |future| && future[k].Some? && Earned(long, entry, future[k].value) == worst)
  }

  ghost predicate IsSide(side: Side, long: bool, entry: Quote, future: seq<Option<Quote>>) {
    && side.mfe.Some? && side.mae.Some?
    && AreExtremes(long, entry, future, side.mfe.value, side.mae.value)
    && IsLast(long, entry, future, side.terminal)
    && side.hits.Keys == {0.5, 1.0, 2.0}
    && forall bps <- side.hits :: IsHit(side.hits[bps], long, entry, future, bps)
  }

  /** The returns of one side. */
  function Returns(long: bool, entry: Quote, future: seq<Option<Quote>>): (values: seq<real>)
    ensures |values| == |future|
  {
    if long then LongReturns(entry, future) else ShortReturns(entry, future)
  }

  lemma ReturnIs(long: bool, entry: Quote, future: seq<Option<Quote>>, k: nat)
    requires k < |future|
    ensures ValidOf(future)[k] == future[k].Some?
    ensures future[k].Some? ==> Returns(long, entry, future)[k] * 10000.0 == Earned(long, entry, future[k].value)
  {
  }

  lemma HitIs(long: bool, entry: Quote, future: seq<Option<Quote>>, bps: real)
    requires |future| == HORIZON_SECONDS && bps > 0.0
    ensures IsHit(FirstHitRow(Returns(long, entry, future), ValidOf(future), bps / 10000.0), long, entry, future, bps)
  {
    var values, valid, barrier := Returns(long, entry, future), ValidOf(future), bps / 10000.0;
    forall k | 0 <= k < |future| ensures Inside(long, entry, future[k], bps) <==> !Touches(values, valid, barrier, k) {
      ReturnIs(long, entry, future, k);
    }
    var k := FirstTouch(values, valid, barrier, 0);
    if k < |future| {
      ArrayFinds(values, valid, barrier, k);
      ReturnIs(long, entry, future, k);
      CountIsQuoted(future, k + 1);
    } else {
      ArrayFindsNothing(values, valid, barrier);
    }
  }

  lemma LastIs(long: bool, entry: Quote, future: seq<Option<Quote>>)
    requires |future| == HORIZON_SECONDS && Enough(ValidOf(future))
    ensures IsLast(long, entry, future, SideOf(Returns(long, entry, future), ValidOf(future)).terminal)
  {
    LastPositionIs(ValidOf(future));
    var last := LastPosition(ValidOf(future));
    ReturnIs(long, entry, future, last);
    forall j | last < j < |future| ensures future[j] == None {
      ReturnIs(long, entry, future, j);
    }
  }

  lemma ExtremesOf(long: bool, entry: Quote, future: seq<Option<Quote>>)
    requires |future| == HORIZON_SECONDS && Enough(ValidOf(future))
    ensures var side := SideOf(Returns(long, entry, future), ValidOf(future));
      side.mfe.Some? && side.mae.Some? && AreExtremes(long, entry, future, side.mfe.value, side.mae.value)
  {
    var values, valid := Returns(long, entry, future), ValidOf(future);
    LastPositionIs(valid);
    ExtremesAre(values, valid, |values|, LastPosition(valid));
    ExtremesAreReached(values, valid, |values|);
    var high, low := Highest(values, valid, |values|).value, Lowest(values, valid, |values|).value;
    var a :| 0 <= a < |values| && valid[a] && values[a] == high;
    var b :| 0 <= b < |values| && valid[b] && values[b] == low;
    ReturnIs(long, entry, future, a);
    ReturnIs(long, entry, future, b);
    forall k | 0 <= k < |future| && future[k].Some?
      ensures low * 10000.0 <= Earned(long, entry, future[k].value) <= high * 10000.0
    {
      ReturnIs(long, entry, future, k);
      ExtremesAre(values, valid, |values|, k);
    }
  }

  lemma SideIs(long: bool, entry: Quote, future: seq<Option<Quote>>)
    requires |future| == HORIZON_SECONDS && Enough(ValidOf(future))
    ensures IsSide(SideOf(Returns(long, entry, future), ValidOf(future)), long, entry, future)
  {
    var side := SideOf(Returns(long, entry, future), ValidOf(future));
    ExtremesOf(long, entry, future);
    LastIs(long, entry, future);
    forall bps <- side.hits ensures IsHit(side.hits[bps], long, entry, future, bps) {
      HitIs(long, entry, future, bps);
    }
  }

  /**
   * What the label of second `d` is.  `entry` is the quote in force a second before, `future`
   * those of the five minutes from `d` on.  The row is dropped exactly without an entry,
   * with fewer than 150 quotes, or without one in the last thirty seconds.
   */
  lemma LabelIsExactly(day: Day, d: int, entry: Option<Quote>, future: seq<Option<Quote>>)
    requires 60 <= d < 86400 && d % 60 == 0
    requires IsFill(day, d - 1, 5, entry)
    requires |future| == 300 && forall k :: 0 <= k < 300 ==> IsFill(day, d + k, 5, future[k])
    ensures var row := LabelAt(day, d);
      && (row.None? <==>
            || entry.None? || |Quoted(future, 300)| < 150
            || forall k :: 270 <= k < 300 ==> future[k] == None)
      && (row.Some? ==>
            && row.value.quotes == |Quoted(future, 300)|
            && IsSide(row.value.long, true, entry.value, future)
            && IsSide(row.value.short, false, entry.value, future))
  {
    OneFill(day, d - 1, 5, entry);
    FutureIs(day, d, future);
    CountIsQuoted(future, 300);
    RecentIs(future);
    if entry.Some? && Enough(ValidOf(future)) {
      SideIs(true, entry.value, future);
      SideIs(false, entry.value, future);
    }
  }

  lemma FutureIs(day: Day, d: int, future: seq<Option<Quote>>)
    requires IsDecision(d) && |future| == 300 && forall k :: 0 <= k < 300 ==> IsFill(day, d + k, 5, future[k])
    ensures future == Future(day, d)
  {
    forall k | 0 <= k < 300 ensures future[k] == Future(day, d)[k] {
      OneFill(day, d + k, 5, future[k]);
    }
  }

  lemma RecentIs(future: seq<Option<Quote>>)
    requires |future| == HORIZON_SECONDS
    ensures Any(ValidOf(future)[270..]) <==> exists k :: 270 <= k < 300 && future[k].Some?
  {
    var recent := ValidOf(future)[270..];
    if k :| 270 <= k < 300 && future[k].Some? {
      assert recent[k - 270];
    }
  }

  // What a row can depend on.

  ghost predicate Agree(a: Day, b: Day, from: int, to: int) {
    forall s :: 0 <= s < |a| && from <= s < to ==> a[s] == b[s]
  }

  lemma {:induction false} FilledLooksBack(a: Day, b: Day, second: nat, limit: nat)
    requires second < |a| && Agree(a, b, second - limit, second + 1)
    ensures Filled(a, second, limit) == Filled(b, second, limit)
    decreases limit
  {
    if a[second].None? && limit > 0 && second > 0 {
      FilledLooksBack(a, b, second - 1, limit - 1);
    }
  }

  /** The entry price is known before the decision: it depends on the six seconds before it alone. */
  lemma EntryIsCausal(a: Day, b: Day, d: int)
    requires IsDecision(d) && Agree(a, b, d - 6, d)
    ensures Filled(a, d - 1, FILL_LIMIT) == Filled(b, d - 1, FILL_LIMIT)
  {
    FilledLooksBack(a, b, d - 1, FILL_LIMIT);
  }

  /** The whole label depends on nothing but the seconds from d - 6 to d + 299. */
  lemma LabelIsLocal(a: Day, b: Day, d: int)
    requires IsDecision(d) && Agree(a, b, d - 6, d + HORIZON_SECONDS)
    ensures LabelAt(a, d) == LabelAt(b, d)
  {
    EntryIsCausal(a, b, d);
    forall k | 0 <= k < HORIZON_SECONDS ensures Future(a, d)[k] == Future(b, d)[k] {
      FilledLooksBack(a, b, d + k, FILL_LIMIT);
    }
    assert Future(a, d) == Future(b, d);
  }
}
