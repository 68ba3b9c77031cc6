/**
 * What becomes of a leased command: where the contents of events come from, and what a
 * round of the loop does for a command when nothing, or only the dispatch, goes wrong.
 */
module CommandService {
  import opened Wrappers
  import opened Journal
  import opened Connector
  import opened ConnectorSafety

  // Where events come from.

  /** An event repeats what was leased, seen in the terminal, returned or raised. */
  ghost predicate FromOutside(input: seq<Env>, event: Event) {
    match event
    case Heartbeat(_, live) => Live(live) in input
    case Dispatched(command, live) => Leased(command) in input && Live(live) in input
    case Returned(_, value) => Value(value) in input
    case _ => true
  }

  ghost predicate PcFromOutside(input: seq<Env>, pc: Pc) {
    match pc
    case Counting(live) => Live(live) in input
    case Beating(live, _) => Live(live) in input
    case Rechecking(command) => Leased(command) in input
    case Beginning(command, live) => Leased(command) in input && Live(live) in input
    case Inserting(command, live) => Leased(command) in input && Live(live) in input
    case Dispatching(command, live) => Leased(command) in input && Live(live) in input
    case _ => true
  }

  lemma StepFromOutside(settings: Settings, input: seq<Env>, c: Conf, e: Env)
    requires e in input && PcFromOutside(input, c.pc) && forall event <- c.trace :: FromOutside(input, event)
    ensures var d := Step(settings, c, e);
      PcFromOutside(input, d.pc) && forall event <- d.trace :: FromOutside(input, event)
  {
  }

  lemma {:induction false} RunFromOutside(settings: Settings, input: seq<Env>)
    ensures var c := Run(settings, Initial, input);
      PcFromOutside(input, c.pc) && forall event <- c.trace :: FromOutside(input, event)
    decreases |input|
  {
    if input != [] {
      var front := input[..|input| - 1];
      RunFromOutside(settings, front);
      var c := Run(settings, Initial, front);
      assert forall e <- front :: e in input;
      forall event <- c.trace ensures FromOutside(input, event) {
        assert FromOutside(front, event);
      }
      StepFromOutside(settings, input, c, input[|input| - 1]);
    }
  }

  /** What is dispatched was leased, unchanged, on an account the terminal has shown; what is returned was returned. */
  lemma DispatchedWasLeased(settings: Settings, input: seq<Env>)
    ensures forall event <- Run(settings, Initial, input).trace ::
      && (event.Dispatched? ==> Leased(event.command) in input && Live(event.identity) in input)
      && (event.Heartbeat? ==> Live(event.identity) in input)
      && (event.Returned? ==> Value(event.value) in input)
  {
    RunFromOutside(settings, input);
    forall event <- Run(settings, Initial, input).trace ensures FromOutside(input, event) {
    }
  }

  // One round of the loop.

  lemma Then(settings: Settings, c: Conf, input: seq<Env>, e: Env)
    ensures Run(settings, c, input + [e]) == Step(settings, Run(settings, c, input), e)
  {
    assert (input + [e])[..|input|] == input;
  }

  lemma Two(settings: Settings, c: Conf, first: Env, second: Env)
    ensures Run(settings, c, [first] + [second]) == Step(settings, Step(settings, c, first), second)
  {
    assert Run(settings, c, []) == c && [] + [first] == [first];
    Then(settings, c, [], first);
    Then(settings, c, [first], second);
  }

  lemma Three(settings: Settings, c: Conf, first: Env, second: Env, third: Env)
    ensures Run(settings, c, [first] + [second] + [third])
         == Step(settings, Step(settings, Step(settings, c, first), second), third)
  {
    Two(settings, c, first, second);
    Then(settings, c, [first] + [second], third);
  }

  /** The command and the terminal's account are the paired ones, field by field. */
  ghost predicate Paired(settings: Settings, command: Command, live: AccountIdentity) {
    && command.connectorId == settings.connectorId && command.brokerConnectionId == settings.brokerConnectionId
    && command.accountLogin == settings.accountLogin && command.brokerServer == settings.brokerServer
    && command.accountType == settings.accountType
    && live.login == settings.accountLogin && live.server == settings.brokerServer
    && live.accountType == settings.accountType
  }

  /** A heartbeat, the lease and the second look at the account. */
  function LeaseInput(command: Command, live: AccountIdentity): seq<Env> {
    [Live(live)] + [Done] + [Done] + [Leased(command)] + [Live(live)]
  }

  /** The heartbeat sequence that follows. */
  function Beat(c: Conf): nat {
    if c.store.counter.None? then 1 else c.store.counter.value + 1
  }

  lemma LeaseRound(settings: Settings, c: Conf, command: Command, live: AccountIdentity)
    requires c.pc == Looping && Paired(settings, command, live)
    ensures Run(settings, c, LeaseInput(command, live))
         == Conf(c.store.(counter := Some(Beat(c))), Beginning(command, live), c.trace + [Heartbeat(Beat(c), live)])
  {
    assert Run(settings, c, []) == c;
    Then(settings, c, [], Live(live));
    assert [] + [Live(live)] == [Live(live)];
    Then(settings, c, [Live(live)], Done);
    Then(settings, c, [Live(live)] + [Done], Done);
    Then(settings, c, [Live(live)] + [Done] + [Done], Leased(command));
    Then(settings, c, [Live(live)] + [Done] + [Done] + [Leased(command)], Live(live));
  }

  /** From `begin` to the dispatch, for a command whose id and key the journal does not know. */
  lemma BeginRound(settings: Settings, c: Conf, command: Command, live: AccountIdentity)
    requires c.pc == Beginning(command, live)
    requires command.commandId !in c.store.rows
    requires forall id <- c.store.rows :: c.store.rows[id].key != command.idempotencyKey
    ensures Run(settings, c, [Done] + [Done] + [Done])
         == Conf(c.store.(rows := c.store.rows[command.commandId :=
                   Row(command.commandId, command.idempotencyKey, Executing, None)]),
                 Awaiting(command), c.trace + [Dispatched(command, live)])
  {
    Three(settings, c, Done, Done, Done);
    var row := Row(command.commandId, command.idempotencyKey, Executing, None);
    var looked := Step(settings, c, Done);
    assert looked == c.(pc := Inserting(command, live));
    InsertsFresh(settings, looked, row);
  }

  lemma InsertsFresh(settings: Settings, c: Conf, row: Row)
    requires c.pc.Inserting?
    requires row == Row(c.pc.command.commandId, c.pc.command.idempotencyKey, Executing, None)
    requires row.commandId !in c.store.rows && forall id <- c.store.rows :: c.store.rows[id].key != row.key
    ensures Step(settings, c, Done)
         == Conf(c.store.(rows := c.store.rows[row.commandId := row]), Dispatching(c.pc.command, c.pc.live), c.trace)
  {
    assert !HasKey(c.store, row.key);
  }

  /** What the dispatch ends in: the row, and what the trace gains. */
  ghost function OutcomeRow(command: Command, answer: Env): Row
    requires answer.Value? || answer.Raise?
  {
    if answer.Value? then Row(command.commandId, command.idempotencyKey, Succeeded, Some(answer.result))
    else Row(command.commandId, command.idempotencyKey, Failed, Some("{\"error\":" + answer.message + "}"))
  }

  ghost function OutcomeEvents(command: Command, answer: Env): seq<Event>
    requires answer.Value? || answer.Raise?
  {
    var row := OutcomeRow(command, answer);
    [if answer.Value? then Returned(command.commandId, answer.result) else Raised(command.commandId, answer.message),
     Reported(command.commandId, row.state, row.result)]
  }

  /** From the dispatch to the report. */
  lemma OutcomeRound(settings: Settings, c: Conf, command: Command, answer: Env)
    requires c.pc == Awaiting(command) && OwnsRow(c, command) && (answer.Value? || answer.Raise?)
    ensures Run(settings, c, [answer] + [Done] + [Done])
         == Conf(c.store.(rows := c.store.rows[command.commandId := OutcomeRow(command, answer)]), Looping,
                 c.trace + OutcomeEvents(command, answer))
  {
    Three(settings, c, answer, Done, Done);
    var id := command.commandId;
    var row, event := OutcomeRow(command, answer), OutcomeEvents(command, answer)[0];
    var answered := Step(settings, c, answer);
    assert answered == Conf(c.store, if answer.Value? then Completing(command, answer.result)
                                     else Failing(command, answer.message), c.trace + [event]);
    WritesOutcome(settings, answered, row);
    var events := OutcomeEvents(command, answer);
    assert c.trace + [event] + [events[1]] == c.trace + events;
  }

  lemma WritesOutcome(settings: Settings, c: Conf, row: Row)
    requires (c.pc.Completing? || c.pc.Failing?) && OwnsRow(c, c.pc.command)
    requires row == Row(c.pc.command.commandId, c.pc.command.idempotencyKey,
                        if c.pc.Completing? then Succeeded else Failed,
                        Some(if c.pc.Completing? then c.pc.value else "{\"error\":" + c.pc.message + "}"))
    ensures Step(settings, c, Done)
         == Conf(c.store.(rows := c.store.rows[row.commandId := row]),
                 Reporting(row.commandId, row.state, row.result), c.trace)
  {
  }

  /**
   * A paired command whose id and key are new is dispatched once, after a heartbeat with the
   * next sequence.  A dispatch that returns ends SUCCEEDED with its value, one that raises ends
   * FAILED with its message, and either is reported as stored; no other row changes.
   */
  lemma FreshCommandIsServed(settings: Settings, c: Conf, command: Command, live: AccountIdentity, answer: Env)
    requires c.pc == Looping && Paired(settings, command, live) && (answer.Value? || answer.Raise?)
    requires command.commandId !in c.store.rows
    requires forall id <- c.store.rows :: c.store.rows[id].key != command.idempotencyKey
    ensures var input := LeaseInput(command, live) + ([Done] + [Done] + [Done]) + ([answer] + [Done] + [Done]);
      Run(settings, c, input)
      == Conf(Store(c.store.rows[command.commandId := OutcomeRow(command, answer)], Some(Beat(c))), Looping,
              c.trace + [Heartbeat(Beat(c), live)] + [Dispatched(command, live)] + OutcomeEvents(command, answer))
  {
    LeaseRound(settings, c, command, live);
    var begun := Run(settings, c, LeaseInput(command, live));
    BeginRound(settings, begun, command, live);
    RunConcat(settings, c, LeaseInput(command, live), [Done] + [Done] + [Done]);
    var sent := Run(settings, begun, [Done] + [Done] + [Done]);
    OutcomeRound(settings, sent, command, answer);
    RunConcat(settings, c, LeaseInput(command, live) + ([Done] + [Done] + [Done]), [answer] + [Done] + [Done]);
  }

  /** A command leased again after it ended is reported as it ended, and not dispatched. */
  lemma KnownCommandIsReported(settings: Settings, c: Conf, command: Command, live: AccountIdentity)
    requires c.pc == Looping && Paired(settings, command, live)
    requires command.commandId in c.store.rows && c.store.rows[command.commandId].state != Executing
    requires c.store.rows[command.commandId].commandId == command.commandId
    ensures var row := c.store.rows[command.commandId];
      Run(settings, c, LeaseInput(command, live) + ([Done] + [Done]))
      == Conf(c.store.(counter := Some(Beat(c))), Looping,
              c.trace + [Heartbeat(Beat(c), live)] + [Reported(command.commandId, row.state, row.result)])
  {
    LeaseRound(settings, c, command, live);
    var begun := Run(settings, c, LeaseInput(command, live));
    Two(settings, begun, Done, Done);
    RunConcat(settings, c, LeaseInput(command, live), [Done] + [Done]);
  }

  /** A command that is not bound to this connector, or a terminal on another account, ends the process undispatched. */
  lemma UnpairedIsRefused(settings: Settings, c: Conf, command: Command, live: AccountIdentity)
    requires c.pc == Leasing && !Paired(settings, command, live)
    ensures Run(settings, c, [Leased(command)] + [Live(live)]) == Conf(c.store, Down, c.trace)
  {
    Two(settings, c, Leased(command), Live(live));
    var leased := Step(settings, c, Leased(command));
    assert leased.pc == Rechecking(command) || leased == Conf(c.store, Down, c.trace);
  }
}
