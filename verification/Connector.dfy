/**
 * `run_connector` (runtime.py) as a machine whose steps are its interactions
 * with the outside: the terminal, the API and the commits of the journal.
 *
 * A configuration is the committed journal, the program point of the process
 * (`Down` when there is none) and the trace of what became visible outside.
 * One `Env` value is what happens next at that point: the answer of the call
 * in progress, an exception out of it, or a crash of the process.  An answer
 * that does not fit the call counts as an exception.
 */
module Connector {
  import opened Wrappers
  import opened Journal

  datatype AccountIdentity = AccountIdentity(login: string, server: string, accountType: string)

  datatype Settings = Settings(connectorId: string, brokerConnectionId: string,
                               accountLogin: string, brokerServer: string, accountType: string)

  datatype Command = Command(commandId: CommandId, idempotencyKey: Key,
                             connectorId: string, brokerConnectionId: string,
                             accountLogin: string, brokerServer: string, accountType: string,
                             commandType: string, payload: Json)

  /** `_assert_identity` (client.py): the live account is the paired one. */
  predicate SameAccount(settings: Settings, live: AccountIdentity) {
    && live.login == settings.accountLogin
    && live.server == settings.brokerServer
    && live.accountType == settings.accountType
  }

  /** `assert_bound_identity` (protocol.py). */
  predicate BoundTo(settings: Settings, command: Command) {
    && command.connectorId == settings.connectorId
    && command.brokerConnectionId == settings.brokerConnectionId
    && command.accountLogin == settings.accountLogin
    && command.brokerServer == settings.brokerServer
    && command.accountType == settings.accountType
  }

  datatype Env =
    | Start
    | Live(identity: AccountIdentity)
    | Done
    | Leased(command: Command)
    | NoCommand
    | Value(result: Json)
    | Raise(delivered: bool, message: string)  // delivered: a request was sent before the call raised
    | Stop
    | Crash

  datatype Event =
    | Heartbeat(sequence: nat, identity: AccountIdentity)
    | Dispatched(command: Command, identity: AccountIdentity)
    | Returned(commandId: CommandId, value: Json)
    | Raised(commandId: CommandId, message: string)
    | Interrupted(commandId: CommandId)        // the process ended with this command EXECUTING
    | Reported(commandId: CommandId, state: State, result: Option<Json>)

  /** The program points of `run_connector`, named by what they wait for. */
  datatype Pc =
    | Down
    | Initialising
    | Looping                                               // stop check, then terminal.identity()
    | Counting(live: AccountIdentity)                       // next_heartbeat_sequence
    | Beating(live: AccountIdentity, sequence: nat)         // client.heartbeat
    | Leasing                                               // stop check, then lease_next_command
    | Rechecking(command: Command)                          // terminal.identity() again
    | Beginning(command: Command, live: AccountIdentity)    // begin: the two lookups
    | Inserting(command: Command, live: AccountIdentity)    // begin: the insert
    | Dispatching(command: Command, live: AccountIdentity)  // about to call _dispatch
    | Awaiting(command: Command)                            // inside _dispatch
    | Completing(command: Command, value: Json)             // journal.complete
    | Failing(command: Command, message: string)            // journal.fail
    | Reporting(commandId: CommandId, state: State, result: Option<Json>)  // submit_result

  datatype Conf = Conf(store: Store, pc: Pc, trace: seq<Event>)

  /** `str(KeyError(command_id))`. */
  function KeyErrorText(id: CommandId): string { "'" + id + "'" }

  /** What `fail` stores for a failed dispatch; the message stands for its own JSON encoding. */
  function ErrorJson(message: string): Json {
    "{\"error\":" + message + "}"
  }

  function MessageOf(e: Env): string {
    if e.Raise? then e.message else ""
  }

  /** The command a process would leave EXECUTING if it ended now. */
  function Owned(pc: Pc): Option<CommandId> {
    match pc
    case Dispatching(command, _) => Some(command.commandId)
    case Awaiting(command) => Some(command.commandId)
    case Completing(command, _) => Some(command.commandId)
    case Failing(command, _) => Some(command.commandId)
    case _ => None
  }

  /** The process ends, by an exception, by `return` or by a crash. */
  function End(c: Conf): Conf {
    Conf(c.store, Down, match Owned(c.pc) case Some(id) => c.trace + [Interrupted(id)] case None => c.trace)
  }

  /** Reporting what `begin` found (`_report_existing`): EXECUTING can only come from elsewhere. */
  function AfterBegin(command: Command, live: AccountIdentity, entry: Row): Pc {
    if entry.state == Executing then Dispatching(command, live)
    else Reporting(entry.commandId, entry.state, entry.result)
  }

  ghost function Step(settings: Settings, c: Conf, e: Env): Conf {
    if e.Crash? then End(c) else
    match c.pc
    case Down =>
      if e.Start? then Conf(Recover(c.store), Initialising, c.trace) else c
    case Initialising =>
      if e.Live? && SameAccount(settings, e.identity) then c.(pc := Looping) else End(c)
    case Looping =>
      if e.Live? then c.(pc := Counting(e.identity)) else End(c)
    case Counting(live) =>
      if e.Done? then c.(store := Advance(c.store), pc := Beating(live, NextCounter(c.store))) else End(c)
    case Beating(live, sequence) =>
      if !SameAccount(settings, live) then End(c)
      else if e.Done? then c.(pc := Leasing, trace := c.trace + [Heartbeat(sequence, live)])
      else if e.Raise? && e.delivered then End(c.(trace := c.trace + [Heartbeat(sequence, live)]))
      else End(c)
    case Leasing =>
      if e.NoCommand? then c.(pc := Looping)
      else if e.Leased? && BoundTo(settings, e.command) then c.(pc := Rechecking(e.command))
      else End(c)
    case Rechecking(command) =>
      if e.Live? && SameAccount(settings, e.identity) then c.(pc := Beginning(command, e.identity)) else End(c)
    case Beginning(command, live) =>
      if !e.Done? then End(c) else (
        match Lookup(c.store, command.commandId, command.idempotencyKey)
        case Some(entry) => c.(pc := AfterBegin(command, live, entry))
        case None => c.(pc := Inserting(command, live)))
    case Inserting(command, live) =>
      if !e.Done? then End(c) else
      var (store, entry) := Insert(c.store, command.commandId, command.idempotencyKey);
      c.(store := store, pc := AfterBegin(command, live, entry))
    case Dispatching(command, live) =>
      c.(pc := Awaiting(command), trace := c.trace + [Dispatched(command, live)])
    case Awaiting(command) =>
      if e.Value? then
        c.(pc := Completing(command, e.result), trace := c.trace + [Returned(command.commandId, e.result)])
      else
        c.(pc := Failing(command, MessageOf(e)), trace := c.trace + [Raised(command.commandId, MessageOf(e))])
    case Completing(command, value) =>
      var store := Finish(c.store, command.commandId, Succeeded, Some(value));
      if e.Done? then (
        match ById(store, command.commandId)
        case Some(entry) => c.(store := store, pc := Reporting(command.commandId, Succeeded, entry.result))
        case None => c.(store := store, pc := Failing(command, KeyErrorText(command.commandId)),
                        trace := c.trace + [Raised(command.commandId, KeyErrorText(command.commandId))]))
      else
        c.(pc := Failing(command, MessageOf(e)), trace := c.trace + [Raised(command.commandId, MessageOf(e))])
    case Failing(command, message) =>
      if !e.Done? then End(c) else
      var store := Finish(c.store, command.commandId, Failed, Some(ErrorJson(message)));
      (match ById(store, command.commandId)
       case Some(entry) => c.(store := store, pc := Reporting(command.commandId, Failed, entry.result))
       case None => End(c.(store := store)))
    case Reporting(id, state, result) =>
      if e.Done? then c.(pc := Looping, trace := c.trace + [Reported(id, state, result)])
      else if e.Raise? && e.delivered then End(c.(trace := c.trace + [Reported(id, state, result)]))
      else End(c)
  }

  /** A whole run: every crash point, every restart, every lease is some `Env` sequence. */
  ghost function Run(settings: Settings, c: Conf, input: seq<Env>): Conf
    decreases |input|
  {
    if input == [] then c else Step(settings, Run(settings, c, input[..|input| - 1]), input[|input| - 1])
  }

  const Initial := Conf(EmptyStore, Down, [])

  lemma {:induction false} RunConcat(settings: Settings, c: Conf, first: seq<Env>, second: seq<Env>)
    ensures Run(settings, c, first + second) == Run(settings, Run(settings, c, first), second)
    decreases |second|
  {
    if second == [] {
      assert first + second == first;
    } else {
      var last := |second| - 1;
      RunConcat(settings, c, first, second[..last]);
      assert (first + second)[..|first + second| - 1] == first + second[..last];
    }
  }
}
