/**
 * `run_connector` (runtime.py) as the program it is: a loop over the terminal,
 * the client and the journal, with its `try`/`except`/`else`.  One execution of
 * it is one stretch of a run of the machine in module Connector, from `Start`
 * until the process is down again.
 */
module ConnectorProcess {
  import opened Wrappers
  import opened Journal
  import opened Connector
  import opened ConnectorSafety

  /** The answers the outside gives, in order; when they run out the process is killed. */
  class World {
    const answers: seq<Env>
    var next: nat
    ghost var given: seq<Env>

    constructor (answers: seq<Env>)
      ensures this.answers == answers && next == 0 && given == []
    {
      this.answers := answers;
      next := 0;
      given := [];
    }

    function Left(): nat
      reads this
    {
      if next <= |answers| then |answers| - next else 0
    }

    method Next() returns (e: Env)
      modifies this
      ensures given == old(given) + [e]
      ensures if old(Left()) == 0 then e == Crash && Left() == 0 else Left() == old(Left()) - 1
    {
      if next < |answers| {
        e := answers[next];
        next := next + 1;
      } else {
        e := Crash;
      }
      given := given + [e];
    }
  }

  class Process {
    const settings: Settings
    const world: World
    const journal: CommandJournal
    ghost const origin: Conf
    ghost var log: seq<Event>
    ghost var machine: Conf

    /** The process opens the journal an earlier one left behind. */
    constructor Open(settings: Settings, world: World, disk: Store, ghost past: seq<Event>)
      requires ValidStore(disk) && world.given == []
      modifies world
      ensures this.settings == settings && this.world == world && fresh(journal)
      ensures origin == Conf(disk, Down, past)
      ensures AtPoint(Initialising) && world.given == [Start]
      ensures world.Left() == old(world.Left())
    {
      this.settings := settings;
      this.world := world;
      journal := new CommandJournal(disk);
      origin := Conf(disk, Down, past);
      log := past;
      machine := Conf(Recover(disk), Initialising, past);
      new;
      world.given := [Start];
      assert Run(settings, origin, [Start][..0]) == origin;
    }

    /** The machine has followed every answer given so far. */
    ghost predicate Following()
      reads this, world
    {
      && world.given != [] && world.given[0] == Start
      && machine == Run(settings, origin, world.given)
    }

    /** The journal and what was sent so far are those of the machine, waiting at `pc`. */
    ghost predicate AtPoint(pc: Pc)
      reads this, world, journal
    {
      && journal.Valid()
      && Following()
      && machine == Conf(journal.Contents(), pc, log)
    }

    /** An external call: the machine takes the step this answer means. */
    method Await() returns (e: Env)
      requires Following()
      modifies world, this`machine
      ensures machine == Step(settings, old(machine), e) && Following()
      ensures if old(world.Left()) == 0 then e == Crash && world.Left() == 0
              else world.Left() == old(world.Left()) - 1
    {
      ghost var before := world.given;
      e := world.Next();
      assert world.given[..|world.given| - 1] == before;
      machine := Step(settings, machine, e);
    }

    /** `terminal.identity()` followed by `_assert_identity`. */
    method PairedIdentity(ghost waiting: Pc, ghost command: Option<Command>) returns (live: Option<AccountIdentity>)
      requires AtPoint(waiting)
      requires match command case Some(cmd) => waiting == Rechecking(cmd) case None => waiting == Initialising
      modifies world, this`machine
      ensures match live
              case None => AtPoint(Down)
              case Some(identity) =>
                SameAccount(settings, identity)
                && AtPoint(match command case Some(cmd) => Beginning(cmd, identity) case None => Looping)
      ensures world.Left() <= old(world.Left())
    {
      var e := Await();
      if e.Live? && SameAccount(settings, e.identity) {
        live := Some(e.identity);
      } else {
        live := None;
      }
    }

    /** The durable sequence and `client.heartbeat`; false when either raised. */
    method Heartbeat(identity: AccountIdentity) returns (ok: bool)
      requires AtPoint(Counting(identity))
      modifies world, journal`counter, this`machine, this`log
      ensures AtPoint(if ok then Leasing else Down)
      ensures world.Left() <= old(world.Left())
    {
      var e := Await();
      if !e.Done? {
        return false;
      }
      var sequence := journal.NextHeartbeatSequence();
      e := Await();
      if !SameAccount(settings, identity) {
        return false;
      }
      if e.Done? || (e.Raise? && e.delivered) {
        log := log + [Event.Heartbeat(sequence, identity)];
      }
      ok := e.Done?;
    }

    /** `client.submit_result`; false when it raised. */
    method SubmitResult(id: CommandId, state: State, result: Option<Json>) returns (ok: bool)
      requires AtPoint(Reporting(id, state, result))
      modifies world, this`machine, this`log
      ensures AtPoint(if ok then Looping else Down)
      ensures world.Left() <= old(world.Left())
    {
      var e := Await();
      if e.Done? || (e.Raise? && e.delivered) {
        log := log + [Reported(id, state, result)];
      }
      ok := e.Done?;
    }

    /** `journal.begin`, its lookups and its insert; no entry when a statement raised. */
    method Begin(command: Command, live: AccountIdentity) returns (entry: Option<Row>)
      requires AtPoint(Beginning(command, live))
      modifies world, journal`rows, this`machine
      ensures AtPoint(match entry case Some(row) => AfterBegin(command, live, row) case None => Down)
      ensures world.Left() <= old(world.Left())
    {
      var e := Await();
      if !e.Done? {
        return None;
      }
      entry := journal.FindExisting(command.commandId, command.idempotencyKey);
      if entry.None? {
        e := Await();
        if !e.Done? {
          return None;
        }
        var row := journal.InsertExecuting(command.commandId, command.idempotencyKey);
        entry := Some(row);
      }
    }

    /** The `except` branch: `journal.fail`, then the FAILED result; false when either raised. */
    method FailAndReport(command: Command, message: string) returns (ok: bool)
      requires AtPoint(Failing(command, message))
      modifies world, journal`rows, this`machine, this`log
      ensures AtPoint(if ok then Looping else Down)
      ensures world.Left() <= old(world.Left())
    {
      var e := Await();
      if !e.Done? {
        log := log + [Interrupted(command.commandId)];
        return false;
      }
      var failed := journal.FinishCommand(command.commandId, Failed, Some(ErrorJson(message)));
      if failed.None? {
        log := log + [Interrupted(command.commandId)];
        return false;
      }
      ok := SubmitResult(command.commandId, Failed, failed.value.result);
    }

    /** `journal.complete` inside the `try`, and the SUCCEEDED result in the `else` branch. */
    method CompleteAndReport(command: Command, result: Json) returns (ok: bool)
      requires AtPoint(Completing(command, result))
      modifies world, journal`rows, this`machine, this`log
      ensures AtPoint(if ok then Looping else Down)
      ensures world.Left() <= old(world.Left())
    {
      var e := Await();
      if e.Crash? {
        log := log + [Interrupted(command.commandId)];
        return false;
      } else if !e.Done? {
        log := log + [Raised(command.commandId, MessageOf(e))];
        ok := FailAndReport(command, MessageOf(e));
        return;
      }
      var done := journal.FinishCommand(command.commandId, Succeeded, Some(result));
      if done.None? {
        log := log + [Raised(command.commandId, KeyErrorText(command.commandId))];
        ok := FailAndReport(command, KeyErrorText(command.commandId));
      } else {
        ok := SubmitResult(command.commandId, Succeeded, done.value.result);
      }
    }

    /** The `try`/`except`/`else` around `_dispatch`; false when the process unwinds. */
    method DispatchAndReport(command: Command, live: AccountIdentity) returns (ok: bool)
      requires AtPoint(Dispatching(command, live))
      modifies world, journal`rows, this`machine, this`log
      ensures AtPoint(if ok then Looping else Down)
      ensures world.Left() <= old(world.Left())
    {
      var e := Await();
      if e.Crash? {
        log := log + [Interrupted(command.commandId)];
        return false;
      }
      log := log + [Dispatched(command, live)];
      e := Await();
      if e.Crash? {
        log := log + [Interrupted(command.commandId)];
        return false;
      } else if !e.Value? {
        log := log + [Raised(command.commandId, MessageOf(e))];
        ok := FailAndReport(command, MessageOf(e));
        return;
      }
      log := log + [Returned(command.commandId, e.result)];
      ok := CompleteAndReport(command, e.result);
    }

    /** One leased command, from the identity checks to its report; false when the process unwinds. */
    method HandleCommand(command: Command) returns (ok: bool)
      requires AtPoint(Rechecking(command))
      modifies world, journal`rows, this`machine, this`log
      ensures AtPoint(if ok then Looping else Down)
      ensures world.Left() <= old(world.Left())
    {
      var live := PairedIdentity(Rechecking(command), Some(command));
      if live.None? {
        return false;
      }
      var entry := Begin(command, live.value);
      if entry.None? {
        return false;
      }
      if entry.value.state != Executing {
        ok := SubmitResult(entry.value.commandId, entry.value.state, entry.value.result);
      } else {
        ok := DispatchAndReport(command, live.value);
      }
    }

    /** `run_connector` after the journal is open; the process is down when it returns. */
    method RunConnector()
      requires AtPoint(Initialising)
      modifies world, journal, this`machine, this`log
      ensures AtPoint(Down)
    {
      var live := PairedIdentity(Initialising, None);
      if live.None? {
        return;
      }
      while true
        invariant AtPoint(Looping)
        decreases world.Left()
      {
        ghost var left := world.Left();
        var e := Await();
        if !e.Live? {
          return;
        }
        var sent := Heartbeat(e.identity);
        if !sent {
          return;
        }
        e := Await();
        if e.Leased? && BoundTo(settings, e.command) {
          var ok := HandleCommand(e.command);
          if !ok {
            return;
          }
        } else if !e.NoCommand? {
          return;
        }
      }
    }
  }

  /**
   * One process on the journal file `disk`: the file it leaves and the trace it
   * adds are a run of the machine, started down and ended down.
   */
  method RunProcess(settings: Settings, disk: Store, answers: seq<Env>, ghost past: seq<Event>)
    returns (left: Store, ghost trace: seq<Event>, ghost input: seq<Env>)
    requires ValidStore(disk)
    ensures ValidStore(left)
    ensures input != [] && input[0] == Start
    ensures Run(settings, Conf(disk, Down, past), input) == Conf(left, Down, trace)
  {
    var world := new World(answers);
    var process := new Process.Open(settings, world, disk, past);
    process.RunConnector();
    left, trace, input := process.journal.Contents(), process.log, world.given;
  }

  /**
   * The life of one journal file: it starts empty, and one process after the
   * other opens it, each living through its own answers.  Whatever they are, the
   * whole life is one run of the machine, so no command is dispatched twice and the
   * file left behind bears out everything that was sent.
   */
  method JournalLife(settings: Settings, lives: seq<seq<Env>>)
    returns (disk: Store, ghost trace: seq<Event>, ghost input: seq<Env>)
    ensures Run(settings, Initial, input) == Conf(disk, Down, trace)
    ensures AtMostOnce(trace) && HeartbeatOrder(trace)
    ensures ValidStore(disk)
    ensures forall e <- trace :: EventOk(settings, disk, trace, e)
  {
    disk, trace, input := EmptyStore, [], [];
    for i := 0 to |lives|
      invariant Run(settings, Initial, input) == Conf(disk, Down, trace)
    {
      InvRun(settings, input);
      ghost var more: seq<Env>;
      disk, trace, more := RunProcess(settings, disk, lives[i], trace);
      RunConcat(settings, Initial, input, more);
      input := input + more;
    }
    InvRun(settings, input);
  }
}
