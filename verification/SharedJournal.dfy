/**
 * Several connector processes on one journal file.
 *
 * SQLite serialises their commits, so a shared run interleaves the steps of
 * module Connector over one store and one trace.  At-most-once dispatch is then
 * conditional: it needs every `begin` that answers EXECUTING to have inserted
 * the row itself.
 */
module SharedJournal {
  import opened Wrappers
  import opened Journal
  import opened Connector
  import opened ConnectorSafety

  type Pid = nat

  datatype Sys = Sys(store: Store, procs: map<Pid, Pc>, trace: seq<Event>)

  const NoProcess := Sys(EmptyStore, map[], [])

  function PcOf(s: Sys, p: Pid): Pc {
    if p in s.procs then s.procs[p] else Down
  }

  ghost function View(s: Sys, p: Pid): Conf {
    Conf(s.store, PcOf(s, p), s.trace)
  }

  ghost function SysStep(settings: Settings, s: Sys, p: Pid, e: Env): Sys {
    var c := Step(settings, View(s, p), e);
    Sys(c.store, s.procs[p := c.pc], c.trace)
  }

  datatype Turn = Turn(pid: Pid, env: Env)

  ghost function SysRun(settings: Settings, s: Sys, turns: seq<Turn>): Sys
    decreases |turns|
  {
    if turns == [] then s else
    var before := SysRun(settings, s, turns[..|turns| - 1]);
    SysStep(settings, before, turns[|turns| - 1].pid, turns[|turns| - 1].env)
  }

  /** `begin` answers EXECUTING for a row this step did not insert. */
  ghost predicate Adopts(settings: Settings, s: Sys, p: Pid, e: Env) {
    && Owned(PcOf(s, p)).None?
    && PcOf(SysStep(settings, s, p, e), p).Dispatching?
    && SysStep(settings, s, p, e).store == s.store
  }

  ghost predicate NeverAdopts(settings: Settings, s: Sys, turns: seq<Turn>)
    decreases |turns|
  {
    turns != [] ==>
      && NeverAdopts(settings, s, turns[..|turns| - 1])
      && var last := turns[|turns| - 1];
         !Adopts(settings, SysRun(settings, s, turns[..|turns| - 1]), last.pid, last.env)
  }

  // Any number of processes, no adoption.

  ghost predicate SharedInv(s: Sys) {
    && ValidStore(s.store)
    && AtMostOnce(s.trace)
    && (forall e <- s.trace :: e.Dispatched? ==>
          && e.command.commandId in s.store.rows
          && s.store.rows[e.command.commandId].key == e.command.idempotencyKey)
    && (forall p <- s.procs :: s.procs[p].Dispatching? ==>
          && s.procs[p].command.commandId in s.store.rows
          && s.store.rows[s.procs[p].command.commandId].key == s.procs[p].command.idempotencyKey
          && !WasDispatched(s.trace, s.procs[p].command.commandId))
    && (forall p <- s.procs, q <- s.procs :: p != q && s.procs[p].Dispatching? && s.procs[q].Dispatching? ==>
          s.procs[p].command.commandId != s.procs[q].command.commandId)
  }

  lemma CommitKeepsConstraints(c: Conf, store: Store)
    requires ValidStore(c.store) && Commits(c, store)
    ensures ValidStore(store)
  {
    match c.pc
    case Inserting(command, _) =>
      StatementsKeepConstraints(c.store, command.commandId, command.idempotencyKey, Executing, None);
    case Completing(command, value) =>
      StatementsKeepConstraints(c.store, command.commandId, "", Succeeded, Some(value));
    case Failing(command, message) =>
      StatementsKeepConstraints(c.store, command.commandId, "", Failed, Some(ErrorJson(message)));
    case _ =>
      StatementsKeepConstraints(c.store, "", "", Executing, None);
  }

  /** A process gets to `Dispatching` through `begin`, by a fresh insert or by adoption. */
  lemma StepToDispatching(settings: Settings, c: Conf, e: Env)
    requires ValidStore(c.store) && Step(settings, c, e).pc.Dispatching?
    ensures var d := Step(settings, c, e);
      && Owned(c.pc).None? && d.trace == c.trace
      && (d.store != c.store ==>
            && d.pc.command.commandId !in c.store.rows
            && d.pc.command.commandId in d.store.rows
            && d.store.rows[d.pc.command.commandId].key == d.pc.command.idempotencyKey)
  {
    if c.pc.Inserting? {
      InsertAnswersFromJournal(c.store, c.pc.command.commandId, c.pc.command.idempotencyKey);
    }
  }

  lemma SharedTrace(settings: Settings, s: Sys, p: Pid, e: Env)
    requires SharedInv(s)
    ensures var t := SysStep(settings, s, p, e);
      && AtMostOnce(t.trace)
      && (forall event <- t.trace :: event.Dispatched? ==>
            && event.command.commandId in t.store.rows
            && t.store.rows[event.command.commandId].key == event.command.idempotencyKey)
  {
    var t := SysStep(settings, s, p, e);
    StepEvents(settings, View(s, p), e);
    StepKeepsTerminalRows(settings, View(s, p), e);
    if |t.trace| > |s.trace| && t.trace[|s.trace|].Dispatched? {
      var last := |s.trace|;
      forall i | 0 <= i < last && t.trace[i].Dispatched?
        ensures t.trace[i].command.commandId != t.trace[last].command.commandId
                && t.trace[i].command.idempotencyKey != t.trace[last].command.idempotencyKey
      {
        assert t.trace[i] == s.trace[i] && s.trace[i] in s.trace;
      }
    }
    forall i, j | 0 <= i < j < |t.trace| && t.trace[i].Dispatched? && t.trace[j].Dispatched?
      ensures t.trace[i].command.commandId != t.trace[j].command.commandId
              && t.trace[i].command.idempotencyKey != t.trace[j].command.idempotencyKey
    {
      assert t.trace[i] == s.trace[i];
      assert j < |s.trace| ==> t.trace[j] == s.trace[j];
    }
  }

  lemma Journaled(s: Sys, id: CommandId)
    requires SharedInv(s)
    ensures WasDispatched(s.trace, id) ==> id in s.store.rows
  {
    if WasDispatched(s.trace, id) {
      var i :| 0 <= i < |s.trace| && s.trace[i].Dispatched? && s.trace[i].command.commandId == id;
      assert s.trace[i] in s.trace;
    }
  }

  lemma SharedProcs(settings: Settings, s: Sys, p: Pid, e: Env, q: Pid)
    requires SharedInv(s) && !Adopts(settings, s, p, e)
    requires PcOf(SysStep(settings, s, p, e), q).Dispatching?
    ensures var t := SysStep(settings, s, p, e);
      var command := PcOf(t, q).command;
      && command.commandId in t.store.rows
      && t.store.rows[command.commandId].key == command.idempotencyKey
      && !WasDispatched(t.trace, command.commandId)
      && (forall r <- s.procs :: r != p && r != q && s.procs[r].Dispatching? ==>
            s.procs[r].command.commandId != command.commandId)
  {
    var t := SysStep(settings, s, p, e);
    StepEvents(settings, View(s, p), e);
    StepKeepsTerminalRows(settings, View(s, p), e);
    if q == p {
      StepToDispatching(settings, View(s, p), e);
      Journaled(s, PcOf(t, q).command.commandId);
    } else if |t.trace| > |s.trace| {
      Remembered(s.trace, t.trace[|s.trace|]);
    }
  }

  lemma SharedStep(settings: Settings, s: Sys, p: Pid, e: Env)
    requires SharedInv(s) && !Adopts(settings, s, p, e)
    ensures SharedInv(SysStep(settings, s, p, e))
  {
    var t := SysStep(settings, s, p, e);
    StepCommits(settings, View(s, p), e);
    CommitKeepsConstraints(View(s, p), t.store);
    SharedTrace(settings, s, p, e);
    forall q <- t.procs | t.procs[q].Dispatching?
      ensures
        && t.procs[q].command.commandId in t.store.rows
        && t.store.rows[t.procs[q].command.commandId].key == t.procs[q].command.idempotencyKey
        && !WasDispatched(t.trace, t.procs[q].command.commandId)
        && (forall r <- s.procs :: r != p && r != q && s.procs[r].Dispatching? ==>
              s.procs[r].command.commandId != t.procs[q].command.commandId)
    {
      SharedProcs(settings, s, p, e, q);
    }
  }

  lemma {:induction false} SharedRun(settings: Settings, turns: seq<Turn>)
    requires NeverAdopts(settings, NoProcess, turns)
    ensures SharedInv(SysRun(settings, NoProcess, turns))
    decreases |turns|
  {
    if turns != [] {
      SharedRun(settings, turns[..|turns| - 1]);
      var last := turns[|turns| - 1];
      SharedStep(settings, SysRun(settings, NoProcess, turns[..|turns| - 1]), last.pid, last.env);
    }
  }

  /**
   * However many processes share the journal and however their steps
   * interleave, no command id and no key is dispatched twice as long as no
   * `begin` answers EXECUTING for a row that was already there.
   */
  lemma AtMostOnceWithoutAdoption(settings: Settings, turns: seq<Turn>)
    requires NeverAdopts(settings, NoProcess, turns)
    ensures AtMostOnce(SysRun(settings, NoProcess, turns).trace)
  {
    SharedRun(settings, turns);
  }

  // Adoption, and what it leads to.

  ghost predicate DispatchedTwice(trace: seq<Event>, id: CommandId) {
    exists i, j :: 0 <= i < j < |trace| && trace[i].Dispatched? && trace[j].Dispatched?
      && trace[i].command.commandId == id == trace[j].command.commandId
  }

  lemma SysRunTwo(settings: Settings, s: Sys, a: Turn, b: Turn)
    ensures SysRun(settings, s, [a, b]) == SysStep(settings, SysStep(settings, s, a.pid, a.env), b.pid, b.env)
  {
    assert [a, b][..1] == [a] && [a][..0] == [];
    assert SysRun(settings, s, [a]) == SysStep(settings, s, a.pid, a.env);
  }

  /**
   * Two live processes break it.  When one has just inserted the row of a
   * command and another reaches `begin` with the same command, the second adopts
   * the EXECUTING row, and both dispatch.
   */
  lemma TwoProcessesDispatchTwice(settings: Settings, s: Sys, p: Pid, q: Pid, command: Command,
                                  live: AccountIdentity)
    requires p != q && PcOf(s, p) == Inserting(command, live) && PcOf(s, q) == Beginning(command, live)
    requires command.commandId !in s.store.rows && !HasKey(s.store, command.idempotencyKey)
    ensures
      var inserted := SysStep(settings, s, p, Done);
      && Adopts(settings, inserted, q, Done)
      && DispatchedTwice(
           SysRun(settings, SysStep(settings, inserted, q, Done), [Turn(p, Done), Turn(q, Done)]).trace,
           command.commandId)
  {
    var inserted := SysStep(settings, s, p, Done);
    var adopted := SysStep(settings, inserted, q, Done);
    assert PcOf(adopted, p) == Dispatching(command, live) && PcOf(adopted, q) == Dispatching(command, live);
    SysRunTwo(settings, adopted, Turn(p, Done), Turn(q, Done));
    var after := SysRun(settings, adopted, [Turn(p, Done), Turn(q, Done)]);
    assert after.trace == s.trace + [Dispatched(command, live), Dispatched(command, live)];
    assert after.trace[|s.trace|].Dispatched? && after.trace[|s.trace| + 1].Dispatched?;
  }

  /**
   * Report agreement breaks as well: a second process that merely opens the
   * journal turns the row of a running command UNCERTAIN, its terminal write then
   * changes nothing, and SUCCEEDED is submitted without the value.
   */
  lemma SecondOpenBreaksReports(settings: Settings, s: Sys, p: Pid, q: Pid, command: Command, value: Json)
    requires p != q && PcOf(s, p) == Completing(command, value) && PcOf(s, q) == Down
    requires var id := command.commandId;
      id in s.store.rows && s.store.rows[id].state == Executing && s.store.rows[id].result == None
    ensures
      var id := command.commandId;
      var reopened := SysStep(settings, s, q, Start);
      var after := SysStep(settings, SysStep(settings, reopened, p, Done), p, Done);
      && Reported(id, Succeeded, None) in after.trace
      && id in after.store.rows && after.store.rows[id].state == Uncertain
  {
    var reopened := SysStep(settings, s, q, Start);
    assert PcOf(reopened, p) == Completing(command, value);
    var written := SysStep(settings, reopened, p, Done);
    assert PcOf(written, p) == Reporting(command.commandId, Succeeded, None);
  }

  // One live process at a time.

  /** Every process starts only when all the others are down. */
  ghost predicate Exclusive(settings: Settings, s: Sys, turns: seq<Turn>)
    decreases |turns|
  {
    turns != [] ==>
      && Exclusive(settings, s, turns[..|turns| - 1])
      && var before, last := SysRun(settings, s, turns[..|turns| - 1]), turns[|turns| - 1];
         last.env == Start && PcOf(before, last.pid) == Down ==> forall q: Pid :: PcOf(before, q) == Down
  }

  /** The processes are all down but at most `p`, and `c` is what `p` sees. */
  ghost predicate OnlyLive(s: Sys, p: Pid, c: Conf) {
    && c == View(s, p)
    && forall q: Pid :: q != p ==> PcOf(s, q) == Down
  }

  lemma ExclusiveStepDoesNotAdopt(settings: Settings, s: Sys, q: Pid, e: Env, p: Pid, c: Conf)
    requires OnlyLive(s, p, c) && Inv(settings, c)
    ensures !Adopts(settings, s, q, e)
  {
    if q == p && Owned(c.pc).None? && Step(settings, c, e).pc.Dispatching? {
      DispatchesOnlyFresh(settings, c, e);
    }
  }

  /** A process that is alone gets to `Dispatching` only by inserting. */
  lemma DispatchesOnlyFresh(settings: Settings, c: Conf, e: Env)
    requires Inv(settings, c) && Owned(c.pc).None? && Step(settings, c, e).pc.Dispatching?
    ensures Step(settings, c, e).store != c.store
  {
    if c.pc.Beginning? || c.pc.Inserting? {
      LookupFindsTerminal(settings, c, c.pc.command.commandId, c.pc.command.idempotencyKey);
    }
  }

  /** An exclusive step is a step of the one process, or nothing at all. */
  lemma ExclusiveStep(settings: Settings, s: Sys, q: Pid, e: Env, p: Pid, c: Conf)
    requires OnlyLive(s, p, c)
    requires e == Start && PcOf(s, q) == Down ==> PcOf(s, p) == Down
    ensures var t := SysStep(settings, s, q, e);
      if q == p || e == Start then OnlyLive(t, q, Step(settings, c, e)) else OnlyLive(t, p, c)
  {
    var t := SysStep(settings, s, q, e);
    forall r: Pid | r != q ensures PcOf(t, r) == PcOf(s, r) {
    }
    assert q != p ==> PcOf(s, q) == Down;
  }

  /**
   * With one live process at a time, the processes behave like one process that
   * restarts: the shared run is a run of the machine of module Connector.
   */
  lemma {:induction false} ExclusiveIsOneProcess(settings: Settings, turns: seq<Turn>)
    returns (p: Pid, input: seq<Env>)
    requires Exclusive(settings, NoProcess, turns)
    ensures OnlyLive(SysRun(settings, NoProcess, turns), p, Run(settings, Initial, input))
    ensures NeverAdopts(settings, NoProcess, turns)
    decreases |turns|
  {
    if turns == [] {
      p, input := 0, [];
    } else {
      var last := turns[|turns| - 1];
      p, input := ExclusiveIsOneProcess(settings, turns[..|turns| - 1]);
      var s, c := SysRun(settings, NoProcess, turns[..|turns| - 1]), Run(settings, Initial, input);
      InvRun(settings, input);
      ExclusiveStepDoesNotAdopt(settings, s, last.pid, last.env, p, c);
      ExclusiveStep(settings, s, last.pid, last.env, p, c);
      if last.pid == p || last.env == Start {
        p := last.pid;
        assert (input + [last.env])[..|input|] == input;
        input := input + [last.env];
      }
    }
  }

  /** So every theorem about one process carries over; here, at-most-once dispatch. */
  lemma AtMostOnceWhenExclusive(settings: Settings, turns: seq<Turn>)
    requires Exclusive(settings, NoProcess, turns)
    ensures AtMostOnce(SysRun(settings, NoProcess, turns).trace)
    ensures HeartbeatOrder(SysRun(settings, NoProcess, turns).trace)
  {
    var p, input := ExclusiveIsOneProcess(settings, turns);
    AtMostOnceDispatch(settings, input);
    GuardedDispatch(settings, input);
  }

  /** Report agreement carries over too. */
  lemma ReportsAgreeWhenExclusive(settings: Settings, turns: seq<Turn>)
    requires Exclusive(settings, NoProcess, turns)
    ensures var s := SysRun(settings, NoProcess, turns); ReportsAgreeWith(s.store, s.trace)
  {
    var p, input := ExclusiveIsOneProcess(settings, turns);
    InvRun(settings, input);
    var c := Run(settings, Initial, input);
    forall e <- c.trace ensures EventOk(settings, c.store, c.trace, e) {
    }
  }

  // How many processes the guarantees tolerate.

  ghost function Live(s: Sys): set<Pid> {
    set p | p in s.procs && s.procs[p] != Down
  }

  /** At no time of the run are more than `k` processes live. */
  ghost predicate LiveAtMost(settings: Settings, k: nat, turns: seq<Turn>)
    decreases |turns|
  {
    && |Live(SysRun(settings, NoProcess, turns))| <= k
    && (turns != [] ==> LiveAtMost(settings, k, turns[..|turns| - 1]))
  }

  lemma OneLive(s: Sys, p: Pid, q: Pid)
    requires |Live(s)| <= 1 && PcOf(s, p) != Down && PcOf(s, q) != Down
    ensures p == q
  {
    if p != q {
      SubsetSize({p, q}, Live(s));
    }
  }

  lemma {:induction false} OneLiveIsExclusive(settings: Settings, turns: seq<Turn>)
    requires LiveAtMost(settings, 1, turns)
    ensures Exclusive(settings, NoProcess, turns)
    decreases |turns|
  {
    if turns != [] {
      var front, last := turns[..|turns| - 1], turns[|turns| - 1];
      OneLiveIsExclusive(settings, front);
      var before := SysRun(settings, NoProcess, front);
      var after := SysRun(settings, NoProcess, turns);
      if last.env == Start && PcOf(before, last.pid) == Down {
        forall q: Pid ensures PcOf(before, q) == Down {
          if PcOf(before, q) != Down {
            assert PcOf(after, q) == PcOf(before, q);
            OneLive(after, last.pid, q);
          }
        }
      }
    }
  }

  // A run with two live processes.

  /** The run `turns` ends in `s`, and only processes `p` and `q` have ever been live. */
  ghost predicate Reaches(settings: Settings, p: Pid, q: Pid, turns: seq<Turn>, s: Sys) {
    && SysRun(settings, NoProcess, turns) == s
    && Live(s) <= {p, q} && LiveAtMost(settings, 2, turns)
  }

  lemma Extend(settings: Settings, p: Pid, q: Pid, turns: seq<Turn>, s: Sys, t: Turn)
    requires Reaches(settings, p, q, turns, s) && (t.pid == p || t.pid == q)
    ensures Reaches(settings, p, q, turns + [t], SysStep(settings, s, t.pid, t.env))
  {
    var after := SysStep(settings, s, t.pid, t.env);
    assert (turns + [t])[..|turns|] == turns;
    assert Live(after) <= {p, q};
    SubsetSize(Live(after), {p, q});
    assert |{p, q}| <= 2;
  }

  /** An empty journal with its counter. */
  ghost predicate NoRows(s: Sys) {
    s.store.rows == map[]
  }

  /** One process, down so far, comes to `begin` with a command nobody has begun. */
  lemma ComesToBegin(settings: Settings, p: Pid, q: Pid, turns: seq<Turn>, s: Sys, r: Pid, command: Command,
                     live: AccountIdentity)
    returns (more: seq<Turn>, t: Sys)
    requires Reaches(settings, p, q, turns, s) && (r == p || r == q) && PcOf(s, r) == Down && NoRows(s)
    requires BoundTo(settings, command) && SameAccount(settings, live)
    ensures Reaches(settings, p, q, more, t) && NoRows(t)
    ensures PcOf(t, r) == Beginning(command, live)
    ensures forall o: Pid :: o != r ==> PcOf(t, o) == PcOf(s, o)
  {
    var s1 := SysStep(settings, s, r, Start);
    Extend(settings, p, q, turns, s, Turn(r, Start));
    assert Recover(s.store).rows == map[];
    var more1 := turns + [Turn(r, Start)];
    var more2, s2 := Looped(settings, p, q, more1, s1, r, live);
    var more3, s3 := Leases(settings, p, q, more2, s2, r, command, live);
    more, t := more3, s3;
  }

  lemma Looped(settings: Settings, p: Pid, q: Pid, turns: seq<Turn>, s: Sys, r: Pid, live: AccountIdentity)
    returns (more: seq<Turn>, t: Sys)
    requires Reaches(settings, p, q, turns, s) && (r == p || r == q) && PcOf(s, r) == Initialising && NoRows(s)
    requires SameAccount(settings, live)
    ensures Reaches(settings, p, q, more, t) && NoRows(t) && PcOf(t, r) == Leasing
    ensures forall o: Pid :: o != r ==> PcOf(t, o) == PcOf(s, o)
  {
    var s1 := SysStep(settings, s, r, Env.Live(live));
    Extend(settings, p, q, turns, s, Turn(r, Env.Live(live)));
    var s2 := SysStep(settings, s1, r, Env.Live(live));
    Extend(settings, p, q, turns + [Turn(r, Env.Live(live))], s1, Turn(r, Env.Live(live)));
    var looped := turns + [Turn(r, Env.Live(live))] + [Turn(r, Env.Live(live))];
    var s3 := SysStep(settings, s2, r, Done);
    Extend(settings, p, q, looped, s2, Turn(r, Done));
    t := SysStep(settings, s3, r, Done);
    Extend(settings, p, q, looped + [Turn(r, Done)], s3, Turn(r, Done));
    more := looped + [Turn(r, Done)] + [Turn(r, Done)];
  }

  lemma Leases(settings: Settings, p: Pid, q: Pid, turns: seq<Turn>, s: Sys, r: Pid, command: Command,
               live: AccountIdentity)
    returns (more: seq<Turn>, t: Sys)
    requires Reaches(settings, p, q, turns, s) && (r == p || r == q) && PcOf(s, r) == Leasing && NoRows(s)
    requires BoundTo(settings, command) && SameAccount(settings, live)
    ensures Reaches(settings, p, q, more, t) && NoRows(t) && PcOf(t, r) == Beginning(command, live)
    ensures forall o: Pid :: o != r ==> PcOf(t, o) == PcOf(s, o)
  {
    var s1 := SysStep(settings, s, r, Leased(command));
    Extend(settings, p, q, turns, s, Turn(r, Leased(command)));
    t := SysStep(settings, s1, r, Env.Live(live));
    Extend(settings, p, q, turns + [Turn(r, Leased(command))], s1, Turn(r, Env.Live(live)));
    more := turns + [Turn(r, Leased(command))] + [Turn(r, Env.Live(live))];
  }

  lemma NothingYet(settings: Settings, p: Pid, q: Pid)
    ensures Reaches(settings, p, q, [], NoProcess)
  {
    assert Live(NoProcess) == {};
  }

  /** From the empty journal, two processes dispatch one command twice. */
  lemma TwoDispatchFromNothing(settings: Settings) returns (turns: seq<Turn>)
    ensures LiveAtMost(settings, 2, turns) && !AtMostOnce(SysRun(settings, NoProcess, turns).trace)
  {
    var command, live := SomeCommand(settings), PairedAccount(settings);
    NothingYet(settings, 0, 1);
    var one, s := ComesToBegin(settings, 0, 1, [], NoProcess, 0, command, live);
    var two, both := ComesToBegin(settings, 0, 1, one, s, 1, command, live);
    var looked := SysStep(settings, both, 0, Done);
    Extend(settings, 0, 1, two, both, Turn(0, Done));
    TwoProcessesDispatchTwice(settings, looked, 0, 1, command, live);
    var inserted := SysStep(settings, looked, 0, Done);
    Extend(settings, 0, 1, two + [Turn(0, Done)], looked, Turn(0, Done));
    var begun := two + [Turn(0, Done)] + [Turn(0, Done)];
    var adopted := SysStep(settings, inserted, 1, Done);
    Extend(settings, 0, 1, begun, inserted, Turn(1, Done));
    var first := SysStep(settings, adopted, 0, Done);
    Extend(settings, 0, 1, begun + [Turn(1, Done)], adopted, Turn(0, Done));
    Extend(settings, 0, 1, begun + [Turn(1, Done)] + [Turn(0, Done)], first, Turn(1, Done));
    turns := begun + [Turn(1, Done)] + [Turn(0, Done)] + [Turn(1, Done)];
    SysRunTwo(settings, adopted, Turn(0, Done), Turn(1, Done));
  }

  /** From the empty journal, a second process opening it makes a report contradict the journal. */
  lemma TwoDisagreeFromNothing(settings: Settings, value: Json) returns (turns: seq<Turn>)
    ensures LiveAtMost(settings, 2, turns)
    ensures var s := SysRun(settings, NoProcess, turns); !ReportsAgreeWith(s.store, s.trace)
  {
    var command, live := SomeCommand(settings), PairedAccount(settings);
    NothingYet(settings, 0, 1);
    var one, begun := ComesToBegin(settings, 0, 1, [], NoProcess, 0, command, live);
    assert PcOf(begun, 1) == PcOf(NoProcess, 1);
    var two, s := Completes(settings, one, begun, command, live, value);
    turns := Reopens(settings, two, s, command, value);
  }

  /** The second process opens the journal, and the first writes its success and reports it. */
  lemma Reopens(settings: Settings, before: seq<Turn>, s: Sys, command: Command, value: Json) returns (turns: seq<Turn>)
    requires Reaches(settings, 0, 1, before, s) && Owns(s, command, Completing(command, value))
    ensures LiveAtMost(settings, 2, turns)
    ensures var t := SysRun(settings, NoProcess, turns); !ReportsAgreeWith(t.store, t.trace)
  {
    SecondOpenBreaksReports(settings, s, 0, 1, command, value);
    var reopened := SysStep(settings, s, 1, Start);
    Extend(settings, 0, 1, before, s, Turn(1, Start));
    var written := SysStep(settings, reopened, 0, Done);
    Extend(settings, 0, 1, before + [Turn(1, Start)], reopened, Turn(0, Done));
    turns := before + [Turn(1, Start)] + [Turn(0, Done)];
    Extend(settings, 0, 1, turns, written, Turn(0, Done));
    turns := turns + [Turn(0, Done)];
  }

  /** Process 0 has inserted the row of `command` and is at `pc`. */
  ghost predicate Owns(s: Sys, command: Command, pc: Pc) {
    && PcOf(s, 0) == pc && PcOf(s, 1) == Down
    && command.commandId in s.store.rows
    && s.store.rows[command.commandId] == Row(command.commandId, command.idempotencyKey, Executing, None)
  }

  /** From `begin` to the terminal write of a success. */
  lemma Completes(settings: Settings, turns: seq<Turn>, s: Sys, command: Command, live: AccountIdentity, value: Json)
    returns (more: seq<Turn>, t: Sys)
    requires Reaches(settings, 0, 1, turns, s) && NoRows(s)
    requires PcOf(s, 0) == Beginning(command, live) && PcOf(s, 1) == Down
    ensures Reaches(settings, 0, 1, more, t) && Owns(t, command, Completing(command, value))
  {
    var begun, inserted := Inserts(settings, turns, s, command, live);
    more, t := Returns(settings, begun, inserted, command, live, value);
  }

  lemma Returns(settings: Settings, turns: seq<Turn>, s: Sys, command: Command, live: AccountIdentity, value: Json)
    returns (more: seq<Turn>, t: Sys)
    requires Reaches(settings, 0, 1, turns, s) && Owns(s, command, Dispatching(command, live))
    ensures Reaches(settings, 0, 1, more, t) && Owns(t, command, Completing(command, value))
  {
    var sent := SysStep(settings, s, 0, Done);
    Extend(settings, 0, 1, turns, s, Turn(0, Done));
    more := turns + [Turn(0, Done)];
    t := SysStep(settings, sent, 0, Value(value));
    Extend(settings, 0, 1, more, sent, Turn(0, Value(value)));
    more := more + [Turn(0, Value(value))];
  }

  lemma Inserts(settings: Settings, turns: seq<Turn>, s: Sys, command: Command, live: AccountIdentity)
    returns (more: seq<Turn>, t: Sys)
    requires Reaches(settings, 0, 1, turns, s) && NoRows(s)
    requires PcOf(s, 0) == Beginning(command, live) && PcOf(s, 1) == Down
    ensures Reaches(settings, 0, 1, more, t) && Owns(t, command, Dispatching(command, live))
  {
    var looked := SysStep(settings, s, 0, Done);
    Extend(settings, 0, 1, turns, s, Turn(0, Done));
    t := SysStep(settings, looked, 0, Done);
    Extend(settings, 0, 1, turns + [Turn(0, Done)], looked, Turn(0, Done));
    more := turns + [Turn(0, Done)] + [Turn(0, Done)];
  }

  lemma {:induction false} LiveAtMostMore(settings: Settings, j: nat, k: nat, turns: seq<Turn>)
    requires j <= k && LiveAtMost(settings, j, turns)
    ensures LiveAtMost(settings, k, turns)
    decreases |turns|
  {
    if turns != [] {
      LiveAtMostMore(settings, j, k, turns[..|turns| - 1]);
    }
  }

  /**
   * How many live processes at-most-once dispatch tolerates: with at most `k` live at any
   * time, every run dispatches each command and key at most once if and only if k <= 1.
   */
  lemma AtMostOnceIffOneLive(settings: Settings, k: nat)
    ensures (forall turns :: LiveAtMost(settings, k, turns) ==> AtMostOnce(SysRun(settings, NoProcess, turns).trace))
            <==> k <= 1
  {
    if k <= 1 {
      forall turns | LiveAtMost(settings, k, turns) ensures AtMostOnce(SysRun(settings, NoProcess, turns).trace) {
        LiveAtMostMore(settings, k, 1, turns);
        OneLiveIsExclusive(settings, turns);
        AtMostOnceWhenExclusive(settings, turns);
      }
    } else {
      var turns := TwoDispatchFromNothing(settings);
      LiveAtMostMore(settings, 2, k, turns);
    }
  }

  ghost predicate ReportsAgreeAfter(settings: Settings, turns: seq<Turn>) {
    var s := SysRun(settings, NoProcess, turns);
    ReportsAgreeWith(s.store, s.trace)
  }

  /** The same bound for the agreement of reports and journal. */
  lemma ReportsAgreeIffOneLive(settings: Settings, k: nat)
    ensures (forall turns :: LiveAtMost(settings, k, turns) ==> ReportsAgreeAfter(settings, turns)) <==> k <= 1
  {
    if k <= 1 {
      forall turns | LiveAtMost(settings, k, turns) ensures ReportsAgreeAfter(settings, turns) {
        LiveAtMostMore(settings, k, 1, turns);
        OneLiveIsExclusive(settings, turns);
        ReportsAgreeWhenExclusive(settings, turns);
      }
    } else {
      var turns := TwoDisagreeFromNothing(settings, "{}");
      LiveAtMostMore(settings, 2, k, turns);
      assert !ReportsAgreeAfter(settings, turns);
    }
  }
}
