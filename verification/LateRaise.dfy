/**
 * `complete` (journal.py) may raise after its UPDATE was executed: the commit raises and
 * leaves the transaction open, or the commit is through and the SELECT behind it raises.
 * The `except` branch of `run_connector` then runs `fail` on a connection that already
 * sees the SUCCEEDED row.  This is the machine of module Connector with that outcome.
 */
module LateRaise {
  import opened Wrappers
  import opened Journal
  import opened Connector
  import opened ConnectorSafety

  /** What happens next: as before, or the terminal write of a success raises late. */
  datatype Input = Plain(env: Env) | Late(committed: bool, message: string)

  /**
   * `Caught` is the `except` branch after a late raise: `store` is what is committed,
   * `view` what the connection sees.  The exception leaves no event in the trace,
   * where Raised is the reason of a FAILED row.
   */
  datatype LateConf =
    | Usual(conf: Conf)
    | Caught(store: Store, view: Store, command: Command, message: string, trace: seq<Event>)

  function Committed(c: LateConf): Store {
    if c.Usual? then c.conf.store else c.store
  }

  function Visible(c: LateConf): seq<Event> {
    if c.Usual? then c.conf.trace else c.trace
  }

  ghost function LateStep(settings: Settings, c: LateConf, i: Input): LateConf {
    match c
    case Usual(conf) =>
      if i.Plain? then Usual(Step(settings, conf, i.env))
      else if conf.pc.Completing? then
        var written := Finish(conf.store, conf.pc.command.commandId, Succeeded, Some(conf.pc.value));
        Caught(if i.committed then written else conf.store, written, conf.pc.command, i.message, conf.trace)
      else Usual(Step(settings, conf, Raise(false, i.message)))
    case Caught(store, view, command, message, trace) =>
      // `fail` works on the view and commits it; if it raises, closing the journal rolls back.
      if i == Plain(Done) then Usual(Step(settings, Conf(view, Failing(command, message), trace), Done))
      else
        var id := command.commandId;
        Usual(Conf(store, Down,
                   if id in store.rows && store.rows[id].state == Executing then trace + [Interrupted(id)] else trace))
  }

  ghost function LateRun(settings: Settings, input: seq<Input>): LateConf {
    if input == [] then Usual(Initial)
    else LateStep(settings, LateRun(settings, input[..|input| - 1]), input[|input| - 1])
  }

  // Every such run is a run without late raises, but for the state some reports carry.

  ghost predicate Relabels(late: Event, plain: Event) {
    late == plain
    || (late.Reported? && late.state == Failed && plain == Reported(late.commandId, Succeeded, late.result))
  }

  ghost predicate SameButLabels(late: seq<Event>, plain: seq<Event>) {
    |late| == |plain| && forall i :: 0 <= i < |late| ==> Relabels(late[i], plain[i])
  }

  /** The answer to `submit_result` with which a result has been sent. */
  predicate Delivers(i: Input) {
    i.Plain? && (i.env.Done? || (i.env.Raise? && i.env.delivered))
  }

  /** The process is about to submit FAILED for a command that is SUCCEEDED in the journal. */
  ghost predicate Misreporting(late: Pc, plain: Pc) {
    late.Reporting? && late.state == Failed && plain == Reporting(late.commandId, Succeeded, late.result)
  }

  ghost predicate Related(c: LateConf, d: Conf) {
    && SameButLabels(Visible(c), d.trace) && Committed(c) == d.store
    && match c
       case Usual(conf) => conf.pc == d.pc || Misreporting(conf.pc, d.pc)
       case Caught(store, view, command, _, _) =>
         var id := command.commandId;
         || (d.pc.Completing? && d.pc.command == command && view == Finish(store, id, Succeeded, Some(d.pc.value)))
         || (d.pc.Reporting? && d.pc == Reporting(id, Succeeded, d.pc.result) && view == store
             && id in store.rows && store.rows[id].state == Succeeded && store.rows[id].result == d.pc.result)
  }

  /** The two machines are about to report differently. */
  ghost predicate Ahead(c: LateConf, d: Conf) {
    c.Usual? && c.conf.pc != d.pc
  }

  /** The inputs of the plain machine that stand for one input: one, or none. */
  ghost function PlainInputs(c: LateConf, d: Conf, i: Input): seq<Env> {
    if c.Usual? then
      if i.Plain? then [i.env]
      else if !c.conf.pc.Completing? then [Raise(false, i.message)]
      else if i.committed then [Done] else []
    else if i != Plain(Done) then [Crash]
    else if d.pc.Completing? then [Done] else []
  }

  lemma MoreOfTheSame(late: seq<Event>, plain: seq<Event>, a: Event, b: Event)
    requires SameButLabels(late, plain) && Relabels(a, b)
    ensures SameButLabels(late + [a], plain + [b])
    ensures late + [a] == plain + [b] <==> late == plain && a == b
  {
    assert (late + [a])[..|late|] == late && (plain + [b])[..|plain|] == plain;
    assert (late + [a])[|late|] == a && (plain + [b])[|plain|] == b;
  }

  /** The event a step appends depends on the program point and the journal alone. */
  lemma SameEvent(settings: Settings, c: Conf, d: Conf, e: Env)
    requires c.store == d.store && c.pc == d.pc
    ensures var (after, plain) := (Step(settings, c, e), Step(settings, d, e));
      && after.store == plain.store && after.pc == plain.pc
      && ((after.trace == c.trace && plain.trace == d.trace)
          || exists event :: after.trace == c.trace + [event] && plain.trace == d.trace + [event])
  {
  }

  /** With the same program point, a step appends the same to the traces. */
  lemma SameStepRelates(settings: Settings, c: Conf, d: Conf, e: Env)
    requires SameButLabels(c.trace, d.trace) && c.store == d.store && c.pc == d.pc
    ensures var (after, plain) := (Step(settings, c, e), Step(settings, d, e));
      && SameButLabels(after.trace, plain.trace) && after.store == plain.store && after.pc == plain.pc
      && (after.trace == plain.trace <==> c.trace == d.trace)
  {
    SameEvent(settings, c, d, e);
    var after, plain := Step(settings, c, e), Step(settings, d, e);
    if !(after.trace == c.trace && plain.trace == d.trace) {
      var event :| after.trace == c.trace + [event] && plain.trace == d.trace + [event];
      MoreOfTheSame(c.trace, d.trace, event, event);
    }
  }

  lemma ReportStepRelates(settings: Settings, c: Conf, d: Conf, e: Env)
    requires SameButLabels(c.trace, d.trace) && c.store == d.store && Misreporting(c.pc, d.pc)
    ensures var (after, plain) := (Step(settings, c, e), Step(settings, d, e));
      && SameButLabels(after.trace, plain.trace) && after.store == plain.store && after.pc == plain.pc
      && (after.trace == plain.trace <==> c.trace == d.trace && !Delivers(Plain(e)))
  {
    MoreOfTheSame(c.trace, d.trace, Reported(c.pc.commandId, Failed, c.pc.result),
                  Reported(c.pc.commandId, Succeeded, c.pc.result));
  }

  lemma UsualRelates(settings: Settings, c: Conf, d: Conf, e: Env)
    requires Related(Usual(c), d)
    ensures var (after, plain) := (Step(settings, c, e), Step(settings, d, e));
      && Related(Usual(after), plain) && after.pc == plain.pc
      && (after.trace == plain.trace <==> c.trace == d.trace && !(c.pc != d.pc && Delivers(Plain(e))))
  {
    if c.pc == d.pc {
      SameStepRelates(settings, c, d, e);
    } else {
      ReportStepRelates(settings, c, d, e);
    }
  }

  lemma WrittenIs(settings: Settings, d: Conf)
    requires Inv(settings, d) && d.pc.Completing?
    ensures var id := d.pc.command.commandId;
      var written := Finish(d.store, id, Succeeded, Some(d.pc.value));
      && id in d.store.rows && d.store.rows[id].state == Executing
      && id in written.rows && written.rows[id].state == Succeeded && written.rows[id].result == Some(d.pc.value)
      && Step(settings, d, Done) == Conf(written, Reporting(id, Succeeded, Some(d.pc.value)), d.trace)
  {
  }

  lemma LateRelates(settings: Settings, c: Conf, d: Conf, i: Input)
    requires Related(Usual(c), d) && Inv(settings, d) && c.pc.Completing? && i.Late?
    ensures var plain := if i.committed then Step(settings, d, Done) else d;
      && Related(LateStep(settings, Usual(c), i), plain) && plain.trace == d.trace
      && LateStep(settings, Usual(c), i).Caught? && LateStep(settings, Usual(c), i).trace == c.trace
  {
    WrittenIs(settings, d);
  }

  lemma FailRelates(settings: Settings, c: LateConf, d: Conf)
    requires Related(c, d) && Inv(settings, d) && c.Caught?
    ensures var after := LateStep(settings, c, Plain(Done));
      var plain := if d.pc.Completing? then Step(settings, d, Done) else d;
      && Related(after, plain) && after.Usual? && Misreporting(after.conf.pc, plain.pc)
      && after.conf.trace == c.trace && plain.trace == d.trace
  {
    if d.pc.Completing? {
      WrittenIs(settings, d);
    }
  }

  lemma EndRelates(settings: Settings, c: LateConf, d: Conf, i: Input)
    requires Related(c, d) && Inv(settings, d) && c.Caught? && i != Plain(Done)
    ensures var (after, plain) := (LateStep(settings, c, i), Step(settings, d, Crash));
      && Related(after, plain) && after.Usual? && after.conf.pc == plain.pc
      && (after.conf.trace == plain.trace <==> c.trace == d.trace)
  {
    if d.pc.Completing? {
      WrittenIs(settings, d);
      MoreOfTheSame(c.trace, d.trace, Interrupted(c.command.commandId), Interrupted(c.command.commandId));
    }
  }

  /** A step of the machine is one step of the plain machine or none. */
  lemma StepRelates(settings: Settings, c: LateConf, d: Conf, i: Input)
    requires Related(c, d) && Inv(settings, d)
    ensures var (after, plain) := (LateStep(settings, c, i), Run(settings, d, PlainInputs(c, d, i)));
      && Related(after, plain)
      && (Ahead(after, plain) <==> c.Caught? && i == Plain(Done))
      && (Visible(after) == plain.trace <==> Visible(c) == d.trace && !(Ahead(c, d) && Delivers(i)))
  {
    var inputs := PlainInputs(c, d, i);
    if inputs != [] {
      assert inputs[..0] == [] && Run(settings, d, inputs) == Step(settings, d, inputs[0]);
    }
    if c.Caught? {
      if i == Plain(Done) {
        FailRelates(settings, c, d);
      } else {
        EndRelates(settings, c, d, i);
      }
    } else if i.Plain? {
      UsualRelates(settings, c.conf, d, i.env);
    } else if c.conf.pc.Completing? {
      LateRelates(settings, c.conf, d, i);
    } else {
      UsualRelates(settings, c.conf, d, Raise(false, i.message));
    }
  }

  // When a report is wrong.

  /** The last input committed the UPDATE whose raise had been caught. */
  ghost predicate CommitsCaught(settings: Settings, input: seq<Input>) {
    && input != [] && input[|input| - 1] == Plain(Done)
    && LateRun(settings, input[..|input| - 1]).Caught?
  }

  /** At input `n` the write of `fail` commits the UPDATE of a `complete` that raised late, and the result is sent. */
  ghost predicate WrongAt(settings: Settings, input: seq<Input>, n: nat) {
    n + 1 < |input| && CommitsCaught(settings, input[..n + 1]) && Delivers(input[n + 1])
  }

  ghost predicate WronglyReported(settings: Settings, input: seq<Input>) {
    exists n: nat :: WrongAt(settings, input, n)
  }

  lemma OneMoreInput(settings: Settings, front: seq<Input>, last: Input)
    ensures WronglyReported(settings, front + [last])
         <==> WronglyReported(settings, front) || (CommitsCaught(settings, front) && Delivers(last))
  {
    var input := front + [last];
    forall n: nat | n + 1 < |front| ensures WrongAt(settings, input, n) <==> WrongAt(settings, front, n) {
      assert input[..n + 1] == front[..n + 1];
    }
    if front != [] {
      assert input[..|front|] == front;
      assert WrongAt(settings, input, |front| - 1) <==> CommitsCaught(settings, front) && Delivers(last);
    }
  }

  /** `plain` is a run without late raises that stands for `input`. */
  ghost predicate StandsFor(settings: Settings, input: seq<Input>, plain: seq<Env>) {
    var (c, d) := (LateRun(settings, input), Run(settings, Initial, plain));
    && Related(c, d) && (Ahead(c, d) <==> CommitsCaught(settings, input))
    && (Visible(c) == d.trace <==> !WronglyReported(settings, input))
  }

  lemma OneMoreRun(settings: Settings, front: seq<Input>, last: Input)
    ensures LateRun(settings, front + [last]) == LateStep(settings, LateRun(settings, front), last)
    ensures CommitsCaught(settings, front + [last]) <==> LateRun(settings, front).Caught? && last == Plain(Done)
  {
    assert (front + [last])[..|front|] == front;
  }

  lemma StandsForMore(settings: Settings, front: seq<Input>, plain: seq<Env>, last: Input) returns (longer: seq<Env>)
    requires StandsFor(settings, front, plain)
    ensures StandsFor(settings, front + [last], longer)
  {
    var c, d := LateRun(settings, front), Run(settings, Initial, plain);
    var more := PlainInputs(c, d, last);
    longer := plain + more;
    InvRun(settings, plain);
    StepRelates(settings, c, d, last);
    RunConcat(settings, Initial, plain, more);
    OneMoreInput(settings, front, last);
    OneMoreRun(settings, front, last);
  }

  lemma NothingStandsForNothing(settings: Settings)
    ensures StandsFor(settings, [], [])
  {
  }

  lemma {:induction false} RunRelates(settings: Settings, input: seq<Input>) returns (plain: seq<Env>)
    ensures StandsFor(settings, input, plain)
  {
    if input == [] {
      NothingStandsForNothing(settings);
      plain := [];
    } else {
      var front, last := input[..|input| - 1], input[|input| - 1];
      assert input == front + [last];
      var before := RunRelates(settings, front);
      plain := StandsForMore(settings, front, before, last);
    }
  }

  /** Relabelled reports aside, the journal and the trace are those of a run without late raises. */
  lemma LateRunIsRun(settings: Settings, input: seq<Input>)
    ensures exists plain :: var d := Run(settings, Initial, plain);
      Committed(LateRun(settings, input)) == d.store && SameButLabels(Visible(LateRun(settings, input)), d.trace)
  {
    var plain := RunRelates(settings, input);
  }

  lemma LabelsKeepOrder(late: seq<Event>, plain: seq<Event>)
    requires SameButLabels(late, plain) && AtMostOnce(plain) && HeartbeatOrder(plain)
    ensures AtMostOnce(late) && HeartbeatOrder(late)
  {
    forall i | 0 <= i < |late| && !late[i].Reported? ensures late[i] == plain[i] {
    }
    forall i, j | 0 <= i < j < |late| && late[i].Dispatched? && late[j].Dispatched? ensures BeatBetween(late, i, j) {
      assert BeatBetween(plain, i, j);
      var k :| i < k < j && plain[k].Heartbeat?;
      assert Relabels(late[k], plain[k]);
    }
  }

  /** Late raises cost no guarantee of the dispatches. */
  lemma LateRunsDispatchOnce(settings: Settings, input: seq<Input>)
    ensures AtMostOnce(Visible(LateRun(settings, input))) && HeartbeatOrder(Visible(LateRun(settings, input)))
  {
    var plain := RunRelates(settings, input);
    AtMostOnceDispatch(settings, plain);
    GuardedDispatch(settings, plain);
    LabelsKeepOrder(Visible(LateRun(settings, input)), Run(settings, Initial, plain).trace);
  }

  lemma WrongLabelDisagrees(settings: Settings, c: LateConf, d: Conf)
    requires Related(c, d) && Inv(settings, d)
    ensures ReportsAgreeWith(Committed(c), Visible(c)) <==> Visible(c) == d.trace
  {
    if Visible(c) == d.trace {
      forall e <- d.trace ensures EventOk(settings, d.store, d.trace, e) {
      }
    } else {
      var i :| 0 <= i < |d.trace| && Visible(c)[i] != d.trace[i];
      assert Relabels(Visible(c)[i], d.trace[i]);
      assert d.trace[i] in d.trace && EventOk(settings, d.store, d.trace, d.trace[i]);
      assert Visible(c)[i] in Visible(c);
    }
  }

  /**
   * Exactly when the reports agree with the journal, over every run: unless a `complete`
   * raises late, the following `fail` goes through, which commits SUCCEEDED, and its
   * FAILED is sent.
   */
  lemma ReportsAgreeIff(settings: Settings, input: seq<Input>)
    ensures var c := LateRun(settings, input);
      ReportsAgreeWith(Committed(c), Visible(c)) <==> !WronglyReported(settings, input)
  {
    var plain := RunRelates(settings, input);
    InvRun(settings, plain);
    WrongLabelDisagrees(settings, LateRun(settings, input), Run(settings, Initial, plain));
  }

  // The condition can be met.

  lemma Next(settings: Settings, input: seq<Input>, c: Conf, e: Env) returns (longer: seq<Input>, d: Conf)
    requires LateRun(settings, input) == Usual(c)
    ensures LateRun(settings, longer) == Usual(d) && d == Step(settings, c, e)
  {
    OneMoreRun(settings, input, Plain(e));
    longer, d := input + [Plain(e)], Step(settings, c, e);
  }

  lemma ToLeasing(settings: Settings, live: AccountIdentity) returns (input: seq<Input>, c: Conf)
    requires SameAccount(settings, live)
    ensures LateRun(settings, input) == Usual(c) && c.pc == Leasing && c.store.rows == map[]
  {
    input, c := Next(settings, [], Initial, Start);
    assert c.store.rows == map[];
    input, c := Next(settings, input, c, Live(live));
    input, c := Next(settings, input, c, Live(live));
    input, c := Next(settings, input, c, Done);
    input, c := Next(settings, input, c, Done);
  }

  lemma ToDispatching(settings: Settings, command: Command, live: AccountIdentity) returns (input: seq<Input>, c: Conf)
    requires SameAccount(settings, live) && BoundTo(settings, command)
    ensures LateRun(settings, input) == Usual(c) && c.pc == Dispatching(command, live) && OwnsRow(c, command)
  {
    input, c := ToLeasing(settings, live);
    input, c := Next(settings, input, c, Leased(command));
    input, c := Next(settings, input, c, Live(live));
    input, c := Next(settings, input, c, Done);
    input, c := Next(settings, input, c, Done);
  }

  ghost predicate Misreported(c: LateConf, id: CommandId, value: Json) {
    && Reported(id, Failed, Some(value)) in Visible(c)
    && id in Committed(c).rows && Committed(c).rows[id].state == Succeeded
  }

  /** A late raise, the write of `fail` and the upload. */
  lemma MisreportsFrom(settings: Settings, input: seq<Input>, c: Conf, late: Input) returns (longer: seq<Input>)
    requires LateRun(settings, input) == Usual(c) && c.pc.Completing? && OwnsRow(c, c.pc.command) && late.Late?
    ensures Misreported(LateRun(settings, longer), c.pc.command.commandId, c.pc.value)
  {
    var id := c.pc.command.commandId;
    OneMoreRun(settings, input, late);
    OneMoreRun(settings, input + [late], Plain(Done));
    var caught := input + [late] + [Plain(Done)];
    var written := LateRun(settings, caught).conf;
    assert written.pc == Reporting(id, Failed, Some(c.pc.value));
    var sent;
    longer, sent := Next(settings, caught, written, Done);
    assert sent.trace[|written.trace|] == Reported(id, Failed, Some(c.pc.value));
  }

  /** From the empty journal, either kind of late raise has FAILED submitted for a SUCCEEDED command. */
  lemma LateRaiseMisreports(settings: Settings, value: Json, late: Input) returns (input: seq<Input>)
    requires late.Late?
    ensures exists id :: Misreported(LateRun(settings, input), id, value)
    ensures WronglyReported(settings, input)
  {
    var begun, c := ToDispatching(settings, SomeCommand(settings), PairedAccount(settings));
    var awaiting, d := Next(settings, begun, c, Done);
    var returned, e := Next(settings, awaiting, d, Value(value));
    input := MisreportsFrom(settings, returned, e, late);
    ReportsAgreeIff(settings, input);
  }
}
