/**
 * `build_folds` of the rolling evaluator (rolling_causal_evaluator.py): training
 * prefixes and embargoed test windows over chronologically sorted events.
 *
 * Times are whole minutes.  Events are compared as values, as the frozen
 * dataclass is, so the list may hold equal events.
 */
module Folds {
  import opened Wrappers

  datatype Event = Event(signal: int, exit: int, pnl: real, instrument: string, direction: string)

  /** The order `load_events` establishes, as far as the folds use it. */
  ghost predicate Sorted(events: seq<Event>) {
    forall i, j :: 0 <= i < j < |events| ==> events[i].signal <= events[j].signal
  }

  /** `events.index`: the first position of an equal event. */
  function FirstIndex(events: seq<Event>, event: Event): (i: nat)
    requires event in events
    ensures i < |events| && events[i] == event
    ensures forall k :: 0 <= k < i ==> events[k] != event
  {
    FirstIndexFrom(events, event, 0)
  }

  function FirstIndexFrom(events: seq<Event>, event: Event, from: nat): (i: nat)
    requires exists k :: from <= k < |events| && events[k] == event
    ensures from <= i < |events| && events[i] == event
    ensures forall k :: from <= k < i ==> events[k] != event
    decreases |events| - from
  {
    if events[from] == event then from else FirstIndexFrom(events, event, from + 1)
  }

  /** The events from `from` on that the embargo admits. */
  function Candidates(events: seq<Event>, from: nat, begin: int): seq<Event>
    requires from <= |events|
    decreases |events| - from
  {
    if from == |events| then []
    else (if events[from].signal >= begin then [events[from]] else []) + Candidates(events, from + 1, begin)
  }

  /** The first admitted position: with sorted events, the admitted ones are a suffix. */
  function FirstAdmitted(events: seq<Event>, from: nat, begin: int): (i: nat)
    requires from <= |events|
    ensures from <= i <= |events|
    ensures forall k :: from <= k < i ==> events[k].signal < begin
    ensures i < |events| ==> events[i].signal >= begin
    decreases |events| - from
  {
    if from < |events| && events[from].signal < begin then FirstAdmitted(events, from + 1, begin) else from
  }

  lemma {:induction false} CandidatesAreASuffix(events: seq<Event>, from: nat, begin: int)
    requires Sorted(events) && from <= |events|
    ensures Candidates(events, from, begin) == events[FirstAdmitted(events, from, begin)..]
    decreases |events| - from
  {
    if from < |events| {
      CandidatesAreASuffix(events, from + 1, begin);
      if events[from].signal >= begin {
        assert FirstAdmitted(events, from + 1, begin) == from + 1;
        assert events[from..] == [events[from]] + events[from + 1..];
      }
    }
  }

  /** `events[start - 1].signal_time`; index -1 is the last event, as in Python. */
  function Cutoff(events: seq<Event>, start: nat): int
    requires start < |events|
  {
    if start == 0 then events[|events| - 1].signal else events[start - 1].signal
  }

  /** The window a fold starting at `start` tests is events[Low..High]. */
  function Low(events: seq<Event>, start: nat, embargo: int): nat
    requires start < |events|
  {
    FirstAdmitted(events, start, Cutoff(events, start) + embargo)
  }

  function High(events: seq<Event>, start: nat, testSize: nat, embargo: int): (h: nat)
    requires start < |events|
    ensures Low(events, start, embargo) <= h <= |events|
  {
    Min(Low(events, start, embargo) + testSize, |events|)
  }

  /** The loop ends at `start`: the list is used up or no event is admitted. */
  predicate Stops(events: seq<Event>, start: nat, testSize: nat, embargo: int) {
    start >= |events| || Low(events, start, embargo) == High(events, start, testSize, embargo)
  }

  /** The next value of `start`: just after the first event equal to the last one tested. */
  function NextStart(events: seq<Event>, start: nat, testSize: nat, embargo: int): (next: nat)
    requires !Stops(events, start, testSize, embargo)
    ensures 1 <= next <= High(events, start, testSize, embargo)
  {
    FirstIndex(events, events[High(events, start, testSize, embargo) - 1]) + 1
  }

  /** The events whose outcome is known at the cutoff. */
  function Available(events: seq<Event>, cutoff: int): seq<Event> {
    if events == [] then []
    else (if events[0].exit <= cutoff then [events[0]] else []) + Available(events[1..], cutoff)
  }

  lemma {:induction false} AvailableAre(events: seq<Event>, cutoff: int)
    ensures |Available(events, cutoff)| <= |events|
    ensures forall e :: e in Available(events, cutoff) <==> e in events && e.exit <= cutoff
  {
    if events != [] {
      AvailableAre(events[1..], cutoff);
      assert events == [events[0]] + events[1..];
    }
  }

  // Termination.

  /** With a positive embargo, or without equal events, `start` moves past the window's beginning. */
  lemma Advances(events: seq<Event>, start: nat, testSize: nat, embargo: int)
    requires Sorted(events) && !Stops(events, start, testSize, embargo)
    requires embargo > 0 || Distinct(events)
    ensures Low(events, start, embargo) < NextStart(events, start, testSize, embargo)
  {
    var low, high := Low(events, start, embargo), High(events, start, testSize, embargo);
    var first := NextStart(events, start, testSize, embargo) - 1;
    if embargo > 0 {
      assert start > 0;
      assert events[first].signal == events[high - 1].signal >= events[low].signal > events[start - 1].signal;
      assert first >= start;
    }
  }

  /** One iteration; once the loop has ended nothing changes. */
  function AfterRound(events: seq<Event>, start: nat, testSize: nat, embargo: int): nat {
    if Stops(events, start, testSize, embargo) then start else NextStart(events, start, testSize, embargo)
  }

  /** The value of `start` after `n` iterations. */
  function StartAfter(events: seq<Event>, trainSize: nat, testSize: nat, embargo: int, n: nat): nat {
    if n == 0 then trainSize
    else AfterRound(events, StartAfter(events, trainSize, testSize, embargo, n - 1), testSize, embargo)
  }

  ghost predicate Terminates(events: seq<Event>, trainSize: nat, testSize: nat, embargo: int) {
    exists n: nat :: EndsAfter(events, trainSize, testSize, embargo, n)
  }

  /** The loop has ended after `n` iterations. */
  ghost predicate EndsAfter(events: seq<Event>, trainSize: nat, testSize: nat, embargo: int, n: nat) {
    Stops(events, StartAfter(events, trainSize, testSize, embargo, n), testSize, embargo)
  }

  lemma OneMoreRound(events: seq<Event>, trainSize: nat, testSize: nat, embargo: int, n: nat)
    requires !Stops(events, StartAfter(events, trainSize, testSize, embargo, n), testSize, embargo)
    ensures StartAfter(events, trainSize, testSize, embargo, n + 1)
         == NextStart(events, StartAfter(events, trainSize, testSize, embargo, n), testSize, embargo)
  {
  }

  lemma {:induction false} TerminatesFrom(events: seq<Event>, trainSize: nat, testSize: nat, embargo: int, n: nat,
                                          start: nat)
    requires Sorted(events) && (embargo > 0 || Distinct(events))
    requires start == StartAfter(events, trainSize, testSize, embargo, n)
    ensures Terminates(events, trainSize, testSize, embargo)
    decreases |events| - start
  {
    if Stops(events, start, testSize, embargo) {
      assert EndsAfter(events, trainSize, testSize, embargo, n);
    } else {
      Advances(events, start, testSize, embargo);
      OneMoreRound(events, trainSize, testSize, embargo, n);
      TerminatesFrom(events, trainSize, testSize, embargo, n + 1, NextStart(events, start, testSize, embargo));
    }
  }

  /** Without an embargo and with one test event per fold, `start` moves to just after its first copy. */
  lemma UnitStep(events: seq<Event>, start: nat, embargo: int)
    requires Sorted(events) && embargo <= 0 && 1 <= start < |events|
    ensures !Stops(events, start, 1, embargo)
    ensures NextStart(events, start, 1, embargo) == FirstIndex(events, events[start]) + 1
  {
    assert events[start].signal >= Cutoff(events, start) + embargo;
    assert Low(events, start, embargo) == start;
    assert High(events, start, 1, embargo) == start + 1;
  }

  lemma UnitStepStaysBelow(events: seq<Event>, i: nat, j: nat, embargo: int, start: nat)
    requires Sorted(events) && embargo <= 0 && i < j < |events| && events[i] == events[j]
    requires 1 <= start <= j
    ensures !Stops(events, start, 1, embargo) && 1 <= NextStart(events, start, 1, embargo) <= j
  {
    UnitStep(events, start, embargo);
  }

  /** With one test event per fold the loop goes on at `start`, which is not behind `j`. */
  ghost predicate NotBehind(events: seq<Event>, j: nat, embargo: int, start: nat) {
    1 <= start <= j && !Stops(events, start, 1, embargo)
  }

  lemma NextNotBehind(events: seq<Event>, i: nat, j: nat, embargo: int, start: nat)
    requires Sorted(events) && embargo <= 0 && i < j < |events| && events[i] == events[j]
    requires NotBehind(events, j, embargo, start)
    ensures NotBehind(events, j, embargo, NextStart(events, start, 1, embargo))
  {
    UnitStepStaysBelow(events, i, j, embargo, start);
    UnitStepStaysBelow(events, i, j, embargo, NextStart(events, start, 1, embargo));
  }

  /** A second copy of an event is then never passed. */
  lemma {:induction false} NeverPasses(events: seq<Event>, i: nat, j: nat, embargo: int, n: nat)
    requires Sorted(events) && embargo <= 0 && i < j < |events| && events[i] == events[j]
    ensures NotBehind(events, j, embargo, StartAfter(events, j, 1, embargo, n))
  {
    if n == 0 {
      UnitStepStaysBelow(events, i, j, embargo, j);
    } else {
      NeverPasses(events, i, j, embargo, n - 1);
      OneMoreRound(events, j, 1, embargo, n - 1);
      NextNotBehind(events, i, j, embargo, StartAfter(events, j, 1, embargo, n - 1));
    }
  }

  /**
   * The loop ends for every choice of sizes exactly when the embargo is positive
   * or no two events are equal.
   */
  lemma TerminationCondition(events: seq<Event>, embargo: int)
    requires Sorted(events)
    ensures (forall trainSize: nat, testSize: nat :: Terminates(events, trainSize, testSize, embargo))
            <==> embargo > 0 || Distinct(events)
  {
    if embargo > 0 || Distinct(events) {
      forall trainSize: nat, testSize: nat ensures Terminates(events, trainSize, testSize, embargo) {
        TerminatesFrom(events, trainSize, testSize, embargo, 0, trainSize);
      }
    } else {
      var i, j :| 0 <= i < j < |events| && events[i] == events[j];
      forall n: nat ensures !EndsAfter(events, j, 1, embargo, n) {
        NeverPasses(events, i, j, embargo, n);
      }
      assert !Terminates(events, j, 1, embargo);
    }
  }

  // The folds.

  datatype Fold = Fold(number: nat, start: nat, cutoff: int, train: seq<Event>, test: seq<Event>)

  /** One fold, by positions: it tests a window behind the embargo and trains on known outcomes. */
  ghost predicate FoldOk(events: seq<Event>, testSize: nat, embargo: int, f: Fold) {
    && !Stops(events, f.start, testSize, embargo)
    && f.cutoff == Cutoff(events, f.start)
    && f.train == Available(events[..f.start], f.cutoff)
    && f.test == events[Low(events, f.start, embargo)..High(events, f.start, testSize, embargo)]
  }

  /** One round of the loop: it adds fold `f` for `start` and goes on to `next`. */
  ghost predicate IsRound(events: seq<Event>, testSize: nat, embargo: int, f: Fold, number: nat, start: nat, next: nat)
  {
    && FoldOk(events, testSize, embargo, f) && f.number == number && f.start == start
    && next == NextStart(events, start, testSize, embargo)
  }

  /** The rounds of the loop so far: `starts` are the values of `start`, the current one included. */
  ghost predicate Rounds(events: seq<Event>, trainSize: nat, testSize: nat, embargo: int, folds: seq<Fold>,
                         starts: seq<nat>) {
    && |starts| == |folds| + 1 && starts[0] == trainSize
    && forall i :: 0 <= i < |folds| ==> IsRound(events, testSize, embargo, folds[i], i + 1, starts[i], starts[i + 1])
  }

  lemma {:induction false} RoundsAreStarts(events: seq<Event>, trainSize: nat, testSize: nat, embargo: int,
                                           folds: seq<Fold>, starts: seq<nat>, i: nat)
    requires Rounds(events, trainSize, testSize, embargo, folds, starts) && i <= |folds|
    ensures starts[i] == StartAfter(events, trainSize, testSize, embargo, i)
  {
    if i > 0 {
      RoundsAreStarts(events, trainSize, testSize, embargo, folds, starts, i - 1);
      assert IsRound(events, testSize, embargo, folds[i - 1], i, starts[i - 1], starts[i]);
      OneMoreRound(events, trainSize, testSize, embargo, i - 1);
    }
  }

  // Order of the windows.

  /** The next window begins after this one ends, later by the embargo at least. */
  lemma WindowsFollow(events: seq<Event>, start: nat, testSize: nat, embargo: int)
    requires Sorted(events) && !Stops(events, start, testSize, embargo)
    requires embargo > 0 || Distinct(events)
    requires var next := NextStart(events, start, testSize, embargo); next < |events|
    ensures var next := NextStart(events, start, testSize, embargo);
      var low := Low(events, next, embargo);
      && High(events, start, testSize, embargo) <= low
      && Cutoff(events, next) == events[High(events, start, testSize, embargo) - 1].signal
      && (low < |events| ==>
            events[low].signal >= events[High(events, start, testSize, embargo) - 1].signal + embargo)
  {
    var high := High(events, start, testSize, embargo);
    var next := NextStart(events, start, testSize, embargo);
    Advances(events, start, testSize, embargo);
    assert events[next - 1] == events[high - 1];
    if Distinct(events) {
      assert next == high;
    }
  }

  /** `g` tests positions after those of `f`, and signals later than all of them by the embargo. */
  ghost predicate Follows(events: seq<Event>, testSize: nat, embargo: int, f: Fold, g: Fold) {
    && FoldOk(events, testSize, embargo, f) && FoldOk(events, testSize, embargo, g)
    && High(events, f.start, testSize, embargo) <= Low(events, g.start, embargo)
    && events[Low(events, g.start, embargo)].signal
       >= events[High(events, f.start, testSize, embargo) - 1].signal + embargo
  }

  lemma FollowsIsTransitive(events: seq<Event>, testSize: nat, embargo: int, f: Fold, g: Fold, h: Fold)
    requires Sorted(events)
    requires Follows(events, testSize, embargo, f, g) && Follows(events, testSize, embargo, g, h)
    ensures Follows(events, testSize, embargo, f, h)
  {
  }

  ghost predicate Chained(events: seq<Event>, testSize: nat, embargo: int, folds: seq<Fold>) {
    && (forall i :: 0 <= i < |folds| ==> FoldOk(events, testSize, embargo, folds[i]) && folds[i].number == i + 1)
    && (forall i, j :: 0 <= i < j < |folds| ==> Follows(events, testSize, embargo, folds[i], folds[j]))
  }

  /** Fold `k + 1` follows fold `k`. */
  ghost predicate Linked(events: seq<Event>, testSize: nat, embargo: int, folds: seq<Fold>, k: nat) {
    k + 1 < |folds| && Follows(events, testSize, embargo, folds[k], folds[k + 1])
  }

  lemma {:induction false} LaterFollows(events: seq<Event>, testSize: nat, embargo: int, folds: seq<Fold>,
                                        i: nat, j: nat)
    requires Sorted(events) && i < j < |folds|
    requires forall k: nat :: k + 1 < |folds| ==> Linked(events, testSize, embargo, folds, k)
    ensures Follows(events, testSize, embargo, folds[i], folds[j])
    decreases j
  {
    assert Linked(events, testSize, embargo, folds, j - 1);
    if i < j - 1 {
      LaterFollows(events, testSize, embargo, folds, i, j - 1);
      FollowsIsTransitive(events, testSize, embargo, folds[i], folds[j - 1], folds[j]);
    }
  }

  lemma NextFollows(events: seq<Event>, testSize: nat, embargo: int, f: Fold, g: Fold)
    requires Sorted(events) && (embargo > 0 || Distinct(events))
    requires FoldOk(events, testSize, embargo, f) && FoldOk(events, testSize, embargo, g)
    requires g.start == NextStart(events, f.start, testSize, embargo)
    ensures Follows(events, testSize, embargo, f, g)
  {
    WindowsFollow(events, f.start, testSize, embargo);
  }

  /** With a positive embargo, or without equal events, every window lies behind all earlier ones. */
  lemma FoldsAreChained(events: seq<Event>, trainSize: nat, testSize: nat, embargo: int, folds: seq<Fold>,
                        starts: seq<nat>)
    requires Sorted(events) && (embargo > 0 || Distinct(events))
    requires Rounds(events, trainSize, testSize, embargo, folds, starts)
    ensures Chained(events, testSize, embargo, folds)
  {
    forall k: nat | k < |folds| ensures FoldOk(events, testSize, embargo, folds[k]) && folds[k].number == k + 1 {
      assert IsRound(events, testSize, embargo, folds[k], k + 1, starts[k], starts[k + 1]);
    }
    forall k: nat | k + 1 < |folds| ensures Linked(events, testSize, embargo, folds, k) {
      assert IsRound(events, testSize, embargo, folds[k], k + 1, starts[k], starts[k + 1]);
      assert IsRound(events, testSize, embargo, folds[k + 1], k + 2, starts[k + 1], starts[k + 2]);
      NextFollows(events, testSize, embargo, folds[k], folds[k + 1]);
    }
    forall i, j | 0 <= i < j < |folds| ensures Follows(events, testSize, embargo, folds[i], folds[j]) {
      LaterFollows(events, testSize, embargo, folds, i, j);
    }
  }

  // Coverage.

  /** Position `k` is one of those the fold tests. */
  ghost predicate InWindow(events: seq<Event>, testSize: nat, embargo: int, f: Fold, k: nat) {
    && FoldOk(events, testSize, embargo, f)
    && Low(events, f.start, embargo) <= k < High(events, f.start, testSize, embargo)
  }

  /** The event at position `k` is tested by a fold that starts at or before `k`. */
  ghost predicate Tested(events: seq<Event>, folds: seq<Fold>, k: nat) {
    k < |events| && exists i :: 0 <= i < |folds| && folds[i].start <= k && events[k] in folds[i].test
  }

  /** In the round for `start`, position `k` is skipped: its signal lies before the cutoff plus the embargo. */
  ghost predicate Skipped(events: seq<Event>, embargo: int, start: nat, k: nat) {
    && start <= k < |events|
    && events[k].signal < events[if start == 0 then |events| - 1 else start - 1].signal + embargo
  }

  /** Position `k` is skipped in one of the rounds. */
  ghost predicate Embargoed(events: seq<Event>, embargo: int, starts: seq<nat>, k: nat) {
    exists i :: 0 <= i < |starts| && Skipped(events, embargo, starts[i], k)
  }

  lemma RoundCovers(events: seq<Event>, testSize: nat, embargo: int, f: Fold, k: nat)
    requires FoldOk(events, testSize, embargo, f)
    requires f.start <= k < NextStart(events, f.start, testSize, embargo)
    ensures Skipped(events, embargo, f.start, k) || events[k] in f.test
  {
    var low := Low(events, f.start, embargo);
    if low <= k {
      assert f.test[k - low] == events[k];
    }
  }

  /** What a start leaves behind has been tested or skipped in the rounds before it. */
  lemma {:induction false} PassedIsCovered(events: seq<Event>, trainSize: nat, testSize: nat, embargo: int,
                                           folds: seq<Fold>, starts: seq<nat>, n: nat, k: nat)
    requires Rounds(events, trainSize, testSize, embargo, folds, starts) && n <= |folds|
    requires trainSize <= k < starts[n]
    ensures Tested(events, folds, k) || Embargoed(events, embargo, starts, k)
  {
    assert IsRound(events, testSize, embargo, folds[n - 1], n, starts[n - 1], starts[n]);
    if k < starts[n - 1] {
      PassedIsCovered(events, trainSize, testSize, embargo, folds, starts, n - 1, k);
    } else {
      RoundCovers(events, testSize, embargo, folds[n - 1], k);
    }
  }

  /** Every position from `trainSize` on is tested, or skipped in a round, that which ends the loop included. */
  ghost predicate Covered(events: seq<Event>, trainSize: nat, testSize: nat, embargo: int, folds: seq<Fold>,
                          starts: seq<nat>) {
    forall k: nat :: trainSize <= k < |events| ==>
      Tested(events, folds, k) || Embargoed(events, embargo, starts, k)
  }

  lemma EveryEventIsCovered(events: seq<Event>, trainSize: nat, testSize: nat, embargo: int, folds: seq<Fold>,
                            starts: seq<nat>)
    requires Rounds(events, trainSize, testSize, embargo, folds, starts) && testSize >= 1
    requires Stops(events, starts[|folds|], testSize, embargo)
    ensures Covered(events, trainSize, testSize, embargo, folds, starts)
  {
    var last := starts[|folds|];
    forall k: nat | trainSize <= k < |events|
      ensures Tested(events, folds, k) || Embargoed(events, embargo, starts, k)
    {
      if k < last {
        PassedIsCovered(events, trainSize, testSize, embargo, folds, starts, |folds|, k);
      } else {
        assert Skipped(events, embargo, last, k);
      }
    }
  }

  // What a fold is, by the events alone.

  /** The signal time at which a fold starting at `start` is cut off. */
  ghost predicate IsCutoff(events: seq<Event>, start: nat, cutoff: int) {
    start < |events| && cutoff == events[if start == 0 then |events| - 1 else start - 1].signal
  }

  /**
   * A fold tests consecutive events: those of `start` on whose signal is not before the
   * cutoff plus the embargo, and of these the first `testSize`, or all if they are fewer.
   */
  lemma FoldIsExactly(events: seq<Event>, testSize: nat, embargo: int, f: Fold) returns (low: nat)
    requires Sorted(events) && FoldOk(events, testSize, embargo, f)
    ensures IsCutoff(events, f.start, f.cutoff)
    ensures f.start <= low && low + |f.test| <= |events| && f.test == events[low..low + |f.test|]
    ensures forall k :: f.start <= k < low ==> events[k].signal < f.cutoff + embargo
    ensures forall k :: low <= k < |events| ==> events[k].signal >= f.cutoff + embargo
    ensures 1 <= |f.test| <= testSize && (|f.test| == testSize || low + |f.test| == |events|)
  {
    low := Low(events, f.start, embargo);
  }

  /**
   * It trains on the events before `start` whose outcome is known at the cutoff, each as
   * often and in the order they have there: `at` are their positions.
   */
  lemma TrainIsExactly(events: seq<Event>, testSize: nat, embargo: int, f: Fold) returns (at: seq<nat>)
    requires FoldOk(events, testSize, embargo, f)
    ensures |at| == |f.train| && forall i :: 0 <= i < |at| ==> at[i] < f.start && f.train[i] == events[at[i]]
    ensures forall i, j :: 0 <= i < j < |at| ==> at[i] < at[j]
    ensures forall k: nat :: k < f.start ==> (k in at <==> events[k].exit <= f.cutoff)
  {
    at := AvailableAt(events[..f.start], f.cutoff, 0);
    assert forall k: nat :: k < f.start ==> events[..f.start][k] == events[k];
  }

  /** `at` are the positions, counted from `from`, of the events known at the cutoff. */
  ghost predicate Positions(events: seq<Event>, cutoff: int, from: nat, at: seq<nat>) {
    && (forall i :: 0 <= i < |at| ==> from <= at[i] < from + |events|)
    && (forall i, j :: 0 <= i < j < |at| ==> at[i] < at[j])
    && (forall k: nat :: from <= k < from + |events| ==> (k in at <==> events[k - from].exit <= cutoff))
  }

  lemma OneMorePosition(events: seq<Event>, cutoff: int, from: nat, rest: seq<nat>)
    requires events != [] && Positions(events[1..], cutoff, from + 1, rest)
    ensures Positions(events, cutoff, from, (if events[0].exit <= cutoff then [from] else []) + rest)
  {
    var at := (if events[0].exit <= cutoff then [from] else []) + rest;
    forall k: nat | from <= k < from + |events| ensures k in at <==> events[k - from].exit <= cutoff {
      assert k in at <==> k in rest || (k == from && events[0].exit <= cutoff);
      if k > from {
        assert events[1..][k - (from + 1)] == events[k - from];
      }
    }
  }

  /** These are the events at the positions. */
  ghost predicate AreAt(events: seq<Event>, from: nat, at: seq<nat>, picked: seq<Event>) {
    && |at| == |picked|
    && forall i :: 0 <= i < |at| ==> from <= at[i] < from + |events| && picked[i] == events[at[i] - from]
  }

  lemma OneMoreAt(events: seq<Event>, from: nat, rest: seq<nat>, picked: seq<Event>)
    requires events != [] && AreAt(events[1..], from + 1, rest, picked)
    ensures AreAt(events, from, rest, picked) && AreAt(events, from, [from] + rest, [events[0]] + picked)
  {
  }

  lemma {:induction false} AvailableAt(events: seq<Event>, cutoff: int, from: nat) returns (at: seq<nat>)
    ensures Positions(events, cutoff, from, at) && AreAt(events, from, at, Available(events, cutoff))
  {
    if events == [] {
      at := [];
    } else {
      var rest := AvailableAt(events[1..], cutoff, from + 1);
      at := (if events[0].exit <= cutoff then [from] else []) + rest;
      OneMorePosition(events, cutoff, from, rest);
      OneMoreAt(events, from, rest, Available(events[1..], cutoff));
      assert [] + rest == rest && [] + Available(events[1..], cutoff) == Available(events[1..], cutoff);
    }
  }

  /** After fold `f` the loop goes on just behind the first event that equals the last one tested. */
  ghost predicate GoesOn(events: seq<Event>, f: Fold, next: nat) {
    && 1 <= next <= |events| && f.test != [] && events[next - 1] == f.test[|f.test| - 1]
    && forall k :: 0 <= k < next - 1 ==> events[k] != events[next - 1]
  }

  /** The loop ends at `start`: no event is left, or none that the embargo admits, or none may be tested. */
  ghost predicate Ends(events: seq<Event>, testSize: nat, embargo: int, start: nat) {
    || start >= |events| || testSize == 0
    || forall k: nat :: start <= k < |events| ==> Skipped(events, embargo, start, k)
  }

  /** The rounds of the loop, from `trainSize` to its end. */
  lemma RoundsAreExactly(events: seq<Event>, trainSize: nat, testSize: nat, embargo: int, folds: seq<Fold>,
                         starts: seq<nat>)
    requires AllRounds(events, trainSize, testSize, embargo, folds, starts)
    ensures |starts| == |folds| + 1 && starts[0] == trainSize
    ensures forall i :: 0 <= i < |folds| ==>
      folds[i].number == i + 1 && folds[i].start == starts[i] && GoesOn(events, folds[i], starts[i + 1])
    ensures Ends(events, testSize, embargo, starts[|folds|])
  {
    forall i | 0 <= i < |folds|
      ensures folds[i].number == i + 1 && folds[i].start == starts[i] && GoesOn(events, folds[i], starts[i + 1])
    {
      assert IsRound(events, testSize, embargo, folds[i], i + 1, starts[i], starts[i + 1]);
      RoundGoesOn(events, testSize, embargo, folds[i], starts[i + 1]);
    }
    StopsIsEnd(events, testSize, embargo, starts[|folds|]);
  }

  lemma RoundGoesOn(events: seq<Event>, testSize: nat, embargo: int, f: Fold, next: nat)
    requires FoldOk(events, testSize, embargo, f) && next == NextStart(events, f.start, testSize, embargo)
    ensures GoesOn(events, f, next)
  {
    assert f.test[|f.test| - 1] == events[High(events, f.start, testSize, embargo) - 1];
  }

  lemma StopsIsEnd(events: seq<Event>, testSize: nat, embargo: int, start: nat)
    requires Stops(events, start, testSize, embargo)
    ensures Ends(events, testSize, embargo, start)
  {
  }

  // The program.

  /** The test set as the loop computes it: `candidate_test[:test_size]`. */
  function TestSet(events: seq<Event>, start: nat, testSize: nat, embargo: int): seq<Event>
    requires start < |events|
  {
    var candidates := Candidates(events, start, Cutoff(events, start) + embargo);
    candidates[..Min(testSize, |candidates|)]
  }

  lemma TestIsTheWindow(events: seq<Event>, start: nat, testSize: nat, embargo: int)
    requires Sorted(events) && start < |events|
    ensures TestSet(events, start, testSize, embargo)
         == events[Low(events, start, embargo)..High(events, start, testSize, embargo)]
  {
    CandidatesAreASuffix(events, start, Cutoff(events, start) + embargo);
  }

  /** The window is empty exactly when the loop ends, and its last event gives the next start. */
  lemma LastOfTheWindow(events: seq<Event>, start: nat, testSize: nat, embargo: int, test: seq<Event>)
    requires start < |events|
    requires test == events[Low(events, start, embargo)..High(events, start, testSize, embargo)]
    ensures test == [] <==> Stops(events, start, testSize, embargo)
    ensures test != [] ==>
      test[|test| - 1] in events
      && FirstIndex(events, test[|test| - 1]) + 1 == NextStart(events, start, testSize, embargo)
  {
    var low, high := Low(events, start, embargo), High(events, start, testSize, embargo);
    assert |test| == high - low;
    if test != [] {
      assert test[|test| - 1] == events[high - 1];
    }
  }

  /** One round of the loop; an empty test set ends it. */
  method OneFold(events: seq<Event>, number: nat, start: nat, testSize: nat, embargo: int)
    returns (fold: Fold, next: nat)
    requires Sorted(events) && start < |events|
    ensures fold.test == [] <==> Stops(events, start, testSize, embargo)
    ensures fold.test != [] ==>
      && fold.number == number && fold.start == start && FoldOk(events, testSize, embargo, fold)
      && next == NextStart(events, start, testSize, embargo)
  {
    var cutoff := Cutoff(events, start);
    var train := Available(events[..start], cutoff);
    fold, next := Fold(number, start, cutoff, train, TestSet(events, start, testSize, embargo)), start;
    TestIsTheWindow(events, start, testSize, embargo);
    LastOfTheWindow(events, start, testSize, embargo, fold.test);
    if fold.test != [] {
      next := FirstIndex(events, fold.test[|fold.test| - 1]) + 1;
    }
  }

  /** One more round, which is not the one numbered `rounds`, at which the loop ends. */
  lemma RoundsGrow(events: seq<Event>, trainSize: nat, testSize: nat, embargo: int, folds: seq<Fold>,
                   starts: seq<nat>, rounds: nat, fold: Fold, next: nat)
    requires Rounds(events, trainSize, testSize, embargo, folds, starts)
    requires IsRound(events, testSize, embargo, fold, |folds| + 1, starts[|folds|], next)
    requires EndsAfter(events, trainSize, testSize, embargo, rounds)
    ensures Rounds(events, trainSize, testSize, embargo, folds + [fold], starts + [next])
    ensures |folds| != rounds
  {
    RoundsAreStarts(events, trainSize, testSize, embargo, folds, starts, |folds|);
  }

  /** The folds are those of all the rounds of the loop. */
  ghost predicate AllRounds(events: seq<Event>, trainSize: nat, testSize: nat, embargo: int, folds: seq<Fold>,
                            starts: seq<nat>) {
    && Rounds(events, trainSize, testSize, embargo, folds, starts)
    && (forall i :: 0 <= i < |starts| ==> starts[i] == StartAfter(events, trainSize, testSize, embargo, i))
    && Stops(events, starts[|folds|], testSize, embargo)
  }

  lemma RoundsAreAll(events: seq<Event>, trainSize: nat, testSize: nat, embargo: int, folds: seq<Fold>,
                     starts: seq<nat>)
    requires Rounds(events, trainSize, testSize, embargo, folds, starts)
    requires Stops(events, starts[|folds|], testSize, embargo)
    ensures AllRounds(events, trainSize, testSize, embargo, folds, starts)
  {
    forall i | 0 <= i < |starts| ensures starts[i] == StartAfter(events, trainSize, testSize, embargo, i) {
      RoundsAreStarts(events, trainSize, testSize, embargo, folds, starts, i);
    }
  }

  lemma RoundsAreRight(events: seq<Event>, trainSize: nat, testSize: nat, embargo: int, folds: seq<Fold>,
                       starts: seq<nat>)
    requires Sorted(events) && Rounds(events, trainSize, testSize, embargo, folds, starts)
    requires Stops(events, starts[|folds|], testSize, embargo)
    ensures AllRounds(events, trainSize, testSize, embargo, folds, starts)
    ensures embargo > 0 || Distinct(events) ==> Chained(events, testSize, embargo, folds)
    ensures testSize >= 1 ==> Covered(events, trainSize, testSize, embargo, folds, starts)
  {
    RoundsAreAll(events, trainSize, testSize, embargo, folds, starts);
    if embargo > 0 || Distinct(events) {
      FoldsAreChained(events, trainSize, testSize, embargo, folds, starts);
    }
    if testSize >= 1 {
      EveryEventIsCovered(events, trainSize, testSize, embargo, folds, starts);
    }
  }

  /**
   * `build_folds`, on every input on which its loop ends; `starts` are the values of
   * `start` it goes through.  There is a fold for each but the last.
   */
  method BuildFolds(events: seq<Event>, trainSize: nat, testSize: nat, embargo: int)
    returns (folds: seq<Fold>, ghost starts: seq<nat>)
    requires Sorted(events) && Terminates(events, trainSize, testSize, embargo)
    ensures AllRounds(events, trainSize, testSize, embargo, folds, starts)
    ensures embargo > 0 || Distinct(events) ==> Chained(events, testSize, embargo, folds)
    ensures testSize >= 1 ==> Covered(events, trainSize, testSize, embargo, folds, starts)
  {
    ghost var rounds: nat :| EndsAfter(events, trainSize, testSize, embargo, rounds);
    folds, starts := [], [trainSize];
    var start, number := trainSize, 1;
    while start < |events|
      invariant number == |folds| + 1 && |folds| <= rounds
      invariant Rounds(events, trainSize, testSize, embargo, folds, starts) && start == starts[|folds|]
      decreases rounds - |folds|
    {
      var fold, next := OneFold(events, number, start, testSize, embargo);
      if fold.test == [] {
        break;
      }
      RoundsGrow(events, trainSize, testSize, embargo, folds, starts, rounds, fold, next);
      folds := folds + [fold];
      start := next;
      starts := starts + [start];
      number := number + 1;
    }
    RoundsAreRight(events, trainSize, testSize, embargo, folds, starts);
  }

  lemma WindowSpan(events: seq<Event>, low: nat, high: nat)
    requires Sorted(events) && low < high <= |events|
    ensures forall x <- events[low..high] :: events[low].signal <= x.signal <= events[high - 1].signal
  {
    forall x <- events[low..high] ensures events[low].signal <= x.signal <= events[high - 1].signal {
      var i :| 0 <= i < high - low && events[low..high][i] == x;
      assert events[low + i] == x;
    }
  }

  /** Two stretches whose ends are apart are apart throughout. */
  lemma StretchesApart(events: seq<Event>, a: nat, b: nat, c: nat, d: nat, embargo: int)
    requires Sorted(events) && a < b <= |events| && c < d <= |events|
    requires events[c].signal >= events[b - 1].signal + embargo
    ensures forall x <- events[a..b], y <- events[c..d] :: x.signal + embargo <= y.signal
  {
    WindowSpan(events, a, b);
    WindowSpan(events, c, d);
  }

  lemma WindowTimes(events: seq<Event>, testSize: nat, embargo: int, f: Fold, g: Fold)
    requires Sorted(events) && Follows(events, testSize, embargo, f, g)
    ensures forall x <- f.test, y <- g.test :: x.signal + embargo <= y.signal
  {
    StretchesApart(events, Low(events, f.start, embargo), High(events, f.start, testSize, embargo),
                   Low(events, g.start, embargo), High(events, g.start, testSize, embargo), embargo);
  }

  /**
   * Windows of different folds share no position, equal events included, and every
   * event of a later window is later in time by at least the embargo.
   */
  lemma TestSetsAreDisjoint(events: seq<Event>, testSize: nat, embargo: int, folds: seq<Fold>, i: nat, j: nat)
    requires Sorted(events) && Chained(events, testSize, embargo, folds) && i < j < |folds|
    ensures forall k: nat :: !(InWindow(events, testSize, embargo, folds[i], k)
                               && InWindow(events, testSize, embargo, folds[j], k))
    ensures forall x <- folds[i].test, y <- folds[j].test :: x.signal + embargo <= y.signal
  {
    assert Follows(events, testSize, embargo, folds[i], folds[j]);
    WindowTimes(events, testSize, embargo, folds[i], folds[j]);
  }

  /** No outcome used for training is later than any signal the fold is tested on. */
  lemma TrainingIsCausal(events: seq<Event>, testSize: nat, embargo: int, f: Fold)
    requires Sorted(events) && FoldOk(events, testSize, embargo, f)
    ensures forall e <- f.train :: e.exit <= f.cutoff && e in events[..f.start]
    ensures forall e <- f.train, t <- f.test :: e.exit + embargo <= t.signal
    ensures |f.test| <= testSize && f.test != []
  {
    AvailableAre(events[..f.start], f.cutoff);
    var low := Low(events, f.start, embargo);
    forall t <- f.test ensures f.cutoff + embargo <= t.signal {
    }
  }
}
