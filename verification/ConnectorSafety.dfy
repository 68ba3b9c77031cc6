/**
 * What every run of the connector keeps, with one live process per journal.
 */
module ConnectorSafety {
  import opened Wrappers
  import opened Journal
  import opened Connector

  ghost predicate WasDispatched(trace: seq<Event>, id: CommandId) {
    exists i :: 0 <= i < |trace| && trace[i].Dispatched? && trace[i].command.commandId == id
  }

  /** What one event of the trace says about the journal as it is now. */
  ghost predicate EventOk(settings: Settings, store: Store, trace: seq<Event>, event: Event) {
    match event
    case Heartbeat(sequence, live) =>
      SameAccount(settings, live) && store.counter.Some? && sequence <= store.counter.value
    case Dispatched(command, live) =>
      && BoundTo(settings, command) && SameAccount(settings, live)
      && command.commandId in store.rows
      && store.rows[command.commandId].key == command.idempotencyKey
    case Returned(id, _) => WasDispatched(trace, id)
    case Raised(id, _) => WasDispatched(trace, id)
    case Interrupted(id) => id in store.rows
    case Reported(id, state, result) =>
      && id in store.rows && state != Executing
      && store.rows[id].state == state && store.rows[id].result == result
  }

  /** What one row of the journal says about the past. */
  ghost predicate RowOk(c: Conf, row: Row) {
    match row.state
    case Executing => row.result == None && (Owned(c.pc) == Some(row.commandId)
                                             || (c.pc == Down && Interrupted(row.commandId) in c.trace))
    case Succeeded => row.result.Some? && Returned(row.commandId, row.result.value) in c.trace
    case Failed => exists message ::
      Raised(row.commandId, message) in c.trace && row.result == Some(ErrorJson(message))
    case Uncertain => row.result == None && Interrupted(row.commandId) in c.trace
  }

  /** A heartbeat has been sent since the last dispatch. */
  ghost predicate FreshBeat(trace: seq<Event>) {
    exists i :: 0 <= i < |trace| && trace[i].Heartbeat?
      && forall j :: i < j < |trace| ==> !trace[j].Dispatched?
  }

  ghost predicate OwnsRow(c: Conf, command: Command) {
    && command.commandId in c.store.rows
    && c.store.rows[command.commandId] == Row(command.commandId, command.idempotencyKey, Executing, None)
  }

  ghost predicate PcOk(settings: Settings, c: Conf) {
    match c.pc
    case Down => true
    case Initialising => true
    case Looping => true
    case Counting(_) => true
    case Beating(_, sequence) =>
      && c.store.counter == Some(sequence)
      && (forall e <- c.trace :: e.Heartbeat? ==> e.sequence < sequence)
    case Leasing => FreshBeat(c.trace)
    case Rechecking(command) => FreshBeat(c.trace) && BoundTo(settings, command)
    case Beginning(command, live) =>
      FreshBeat(c.trace) && BoundTo(settings, command) && SameAccount(settings, live)
    case Inserting(command, live) =>
      FreshBeat(c.trace) && BoundTo(settings, command) && SameAccount(settings, live)
    case Dispatching(command, live) =>
      && FreshBeat(c.trace) && BoundTo(settings, command) && SameAccount(settings, live)
      && OwnsRow(c, command) && !WasDispatched(c.trace, command.commandId)
    case Awaiting(command) =>
      && OwnsRow(c, command) && WasDispatched(c.trace, command.commandId)
      && (forall e <- c.trace :: e.Returned? ==> e.commandId != command.commandId)
    case Completing(command, value) =>
      && OwnsRow(c, command) && WasDispatched(c.trace, command.commandId)
      && Returned(command.commandId, value) in c.trace
    case Failing(command, message) =>
      && OwnsRow(c, command) && WasDispatched(c.trace, command.commandId)
      && Raised(command.commandId, message) in c.trace
    case Reporting(id, state, result) =>
      && id in c.store.rows && state != Executing
      && c.store.rows[id].state == state && c.store.rows[id].result == result
  }

  /** No command id and no idempotency key is dispatched twice, and heartbeats separate dispatches. */
  ghost predicate AtMostOnce(trace: seq<Event>) {
    forall i, j :: 0 <= i < j < |trace| && trace[i].Dispatched? && trace[j].Dispatched? ==>
      && trace[i].command.commandId != trace[j].command.commandId
      && trace[i].command.idempotencyKey != trace[j].command.idempotencyKey
  }

  /** A dispatch returns one value. */
  ghost predicate OneReturn(trace: seq<Event>) {
    forall i, j :: 0 <= i < j < |trace| && trace[i].Returned? && trace[j].Returned? ==>
      trace[i].commandId != trace[j].commandId
  }

  ghost predicate BeatBetween(trace: seq<Event>, i: int, j: int) {
    exists k :: 0 <= i < k < j <= |trace| && trace[k].Heartbeat?
  }

  ghost predicate HeartbeatOrder(trace: seq<Event>) {
    && (forall i, j :: 0 <= i < j < |trace| && trace[i].Heartbeat? && trace[j].Heartbeat? ==>
          trace[i].sequence < trace[j].sequence)
    && (forall i, j :: 0 <= i < j < |trace| && trace[i].Dispatched? && trace[j].Dispatched? ==>
          BeatBetween(trace, i, j))
  }

  ghost predicate Inv(settings: Settings, c: Conf) {
    && ValidStore(c.store)
    && (forall e <- c.trace :: EventOk(settings, c.store, c.trace, e))
    && (forall id <- c.store.rows :: RowOk(c, c.store.rows[id]))
    && PcOk(settings, c)
    && AtMostOnce(c.trace)
    && OneReturn(c.trace)
    && HeartbeatOrder(c.trace)
  }

  // Preservation, by the kind of thing a step does.

  /** Rows a later journal must keep: every row stays, terminal rows stay as they are. */
  ghost predicate Later(s: Store, t: Store) {
    && (forall id <- s.rows :: id in t.rows && t.rows[id].key == s.rows[id].key
                               && (s.rows[id].state != Executing ==> t.rows[id] == s.rows[id]))
    && (s.counter.Some? ==> t.counter.Some? && s.counter.value <= t.counter.value)
  }

  lemma StatementsKeepTerminalRows(s: Store, id: CommandId, key: Key, state: State, result: Option<Json>)
    ensures Later(s, s) && Later(s, Recover(s)) && Later(s, Advance(s))
    ensures Later(s, Finish(s, id, state, result))
    ensures Later(s, Insert(s, id, key).0)
  {
  }

  /** The one statement a step may commit. */
  ghost predicate Commits(c: Conf, store: Store) {
    || store == c.store || store == Recover(c.store) || store == Advance(c.store)
    || (c.pc.Inserting? && store == Insert(c.store, c.pc.command.commandId, c.pc.command.idempotencyKey).0)
    || (c.pc.Completing? && store == Finish(c.store, c.pc.command.commandId, Succeeded, Some(c.pc.value)))
    || (c.pc.Failing? && store == Finish(c.store, c.pc.command.commandId, Failed, Some(ErrorJson(c.pc.message))))
  }

  lemma StepCommits(settings: Settings, c: Conf, e: Env)
    ensures Commits(c, Step(settings, c, e).store)
  {
  }

  lemma StepKeepsTerminalRows(settings: Settings, c: Conf, e: Env)
    ensures Later(c.store, Step(settings, c, e).store)
  {
    var t := Step(settings, c, e).store;
    StepCommits(settings, c, e);
    if t == Recover(c.store) || t == Advance(c.store) || t == c.store {
      StatementsKeepTerminalRows(c.store, "", "", Failed, None);
    } else if c.pc.Inserting? {
      StatementsKeepTerminalRows(c.store, c.pc.command.commandId, c.pc.command.idempotencyKey, Failed, None);
    } else if c.pc.Completing? {
      StatementsKeepTerminalRows(c.store, c.pc.command.commandId, "", Succeeded, Some(c.pc.value));
    } else {
      StatementsKeepTerminalRows(c.store, c.pc.command.commandId, "", Failed, Some(ErrorJson(c.pc.message)));
    }
  }

  /** A step adds at most one event, a dispatch only at `Dispatching`. */
  lemma StepEvents(settings: Settings, c: Conf, e: Env)
    ensures var d := Step(settings, c, e);
      && |c.trace| <= |d.trace| <= |c.trace| + 1 && d.trace[..|c.trace|] == c.trace
      && (|d.trace| > |c.trace| ==> d.trace == c.trace + [d.trace[|c.trace|]])
      && (|d.trace| > |c.trace| && d.trace[|c.trace|].Dispatched? ==>
            c.pc.Dispatching? && d.pc.Awaiting? && d.trace[|c.trace|].command == c.pc.command && d.store == c.store)
  {
  }

  lemma Remembered(trace: seq<Event>, event: Event)
    ensures forall id :: WasDispatched(trace, id) ==> WasDispatched(trace + [event], id)
    ensures forall id :: WasDispatched(trace + [event], id) && !(event.Dispatched? && event.command.commandId == id) ==>
                           WasDispatched(trace, id)
    ensures FreshBeat(trace) && !event.Dispatched? ==> FreshBeat(trace + [event])
    ensures event.Heartbeat? ==> FreshBeat(trace + [event])
    ensures event.Dispatched? ==> WasDispatched(trace + [event], event.command.commandId)
  {
    var longer := trace + [event];
    assert longer[|trace|] == event;
    forall id | WasDispatched(trace, id) ensures WasDispatched(longer, id) {
      var i :| 0 <= i < |trace| && trace[i].Dispatched? && trace[i].command.commandId == id;
      assert longer[i] == trace[i];
    }
    if FreshBeat(trace) && !event.Dispatched? {
      var i :| 0 <= i < |trace| && trace[i].Heartbeat? && forall j :: i < j < |trace| ==> !trace[j].Dispatched?;
      assert longer[i] == trace[i];
    }
  }

  /** What a terminal row says stays true. */
  lemma TerminalRowOk(c: Conf, d: Conf, row: Row)
    requires RowOk(c, row) && row.state != Executing && c.trace == d.trace
    ensures RowOk(d, row)
  {
  }

  lemma AppendKeepsEvents(settings: Settings, store: Store, trace: seq<Event>, event: Event)
    requires forall e <- trace :: EventOk(settings, store, trace, e)
    requires EventOk(settings, store, trace + [event], event)
    ensures forall e <- trace + [event] :: EventOk(settings, store, trace + [event], e)
  {
    Remembered(trace, event);
    forall e <- trace + [event] ensures EventOk(settings, store, trace + [event], e) {
      if e in trace {
        assert EventOk(settings, store, trace, e);
      }
    }
  }

  lemma AppendKeepsOrder(trace: seq<Event>, event: Event)
    requires HeartbeatOrder(trace)
    requires event.Heartbeat? ==> forall e <- trace :: e.Heartbeat? ==> e.sequence < event.sequence
    requires event.Dispatched? ==> FreshBeat(trace)
    ensures HeartbeatOrder(trace + [event])
  {
    var longer := trace + [event];
    forall i, j | 0 <= i < j < |longer| && longer[i].Dispatched? && longer[j].Dispatched?
      ensures BeatBetween(longer, i, j)
    {
      assert trace[i] == longer[i];
      if j == |trace| {
        var k :| 0 <= k < |trace| && trace[k].Heartbeat? && forall m :: k < m < |trace| ==> !trace[m].Dispatched?;
        assert longer[k].Heartbeat?;
      } else {
        assert trace[j] == longer[j];
        assert BeatBetween(trace, i, j);
        var k :| i < k < j && trace[k].Heartbeat?;
        assert longer[k].Heartbeat?;
      }
    }
  }

  lemma AppendKeepsOnce(settings: Settings, store: Store, trace: seq<Event>, event: Event)
    requires AtMostOnce(trace) && ValidStore(store)
    requires forall e <- trace + [event] :: EventOk(settings, store, trace + [event], e)
    requires event.Dispatched? ==> !WasDispatched(trace, event.command.commandId)
    ensures AtMostOnce(trace + [event])
  {
    var longer := trace + [event];
    forall i, j | 0 <= i < j < |longer| && longer[i].Dispatched? && longer[j].Dispatched?
      ensures longer[i].command.commandId != longer[j].command.commandId
              && longer[i].command.idempotencyKey != longer[j].command.idempotencyKey
    {
      assert longer[i] == trace[i];
      assert longer[i] in longer && EventOk(settings, store, longer, longer[i]);
      assert longer[j] in longer && EventOk(settings, store, longer, longer[j]);
    }
  }

  lemma AppendKeepsReturns(trace: seq<Event>, event: Event)
    requires OneReturn(trace)
    requires event.Returned? ==> forall e <- trace :: e.Returned? ==> e.commandId != event.commandId
    ensures OneReturn(trace + [event])
  {
  }

  /** A step that only appends `event` and moves to `pc`. */
  lemma AppendKeeps(settings: Settings, c: Conf, pc: Pc, event: Event)
    requires Inv(settings, c)
    requires EventOk(settings, c.store, c.trace + [event], event)
    requires PcOk(settings, Conf(c.store, pc, c.trace + [event]))
    requires Owned(c.pc).Some? ==>
               Owned(pc) == Owned(c.pc) || (pc == Down && event == Interrupted(Owned(c.pc).value))
    requires c.pc == Down ==> pc == Down
    requires event.Heartbeat? ==> forall e <- c.trace :: e.Heartbeat? ==> e.sequence < event.sequence
    requires event.Dispatched? ==> FreshBeat(c.trace) && !WasDispatched(c.trace, event.command.commandId)
    requires event.Returned? ==> forall e <- c.trace :: e.Returned? ==> e.commandId != event.commandId
    ensures Inv(settings, Conf(c.store, pc, c.trace + [event]))
  {
    AppendKeepsEvents(settings, c.store, c.trace, event);
    AppendKeepsOrder(c.trace, event);
    AppendKeepsOnce(settings, c.store, c.trace, event);
    AppendKeepsReturns(c.trace, event);
    AppendKeepsRows(c, pc, event);
  }

  lemma AppendKeepsRows(c: Conf, pc: Pc, event: Event)
    requires forall id <- c.store.rows :: RowOk(c, c.store.rows[id])
    requires Owned(c.pc).Some? ==>
               Owned(pc) == Owned(c.pc) || (pc == Down && event == Interrupted(Owned(c.pc).value))
    requires c.pc == Down ==> pc == Down
    ensures var d := Conf(c.store, pc, c.trace + [event]); forall id <- d.store.rows :: RowOk(d, d.store.rows[id])
  {
    var d := Conf(c.store, pc, c.trace + [event]);
    forall id <- d.store.rows ensures RowOk(d, d.store.rows[id]) {
      assert RowOk(c, c.store.rows[id]);
    }
  }

  /** A step that only changes the journal and moves to `pc`. */
  lemma CommitKeeps(settings: Settings, c: Conf, store: Store, pc: Pc)
    requires Inv(settings, c)
    requires ValidStore(store) && Later(c.store, store)
    requires var d := Conf(store, pc, c.trace);
             PcOk(settings, d) && forall id <- store.rows :: RowOk(d, store.rows[id])
    ensures Inv(settings, Conf(store, pc, c.trace))
  {
    forall e <- c.trace ensures EventOk(settings, store, c.trace, e) {
      assert EventOk(settings, c.store, c.trace, e);
    }
  }

  lemma EndKeeps(settings: Settings, c: Conf)
    requires Inv(settings, c)
    ensures Inv(settings, End(c))
  {
    match Owned(c.pc)
    case Some(id) => AppendKeeps(settings, c, Down, Interrupted(id));
    case None =>
  }

  /** Opening the journal: a row still EXECUTING belonged to a process that ended. */
  lemma RecoverKeeps(settings: Settings, c: Conf)
    requires Inv(settings, c) && c.pc == Down
    ensures Inv(settings, Conf(Recover(c.store), Initialising, c.trace))
  {
    StatementsKeepConstraints(c.store, "", "", Uncertain, None);
    var d := Conf(Recover(c.store), Initialising, c.trace);
    forall id <- d.store.rows ensures RowOk(d, d.store.rows[id]) {
      assert RowOk(c, c.store.rows[id]);
    }
    CommitKeeps(settings, c, d.store, d.pc);
  }

  lemma BeatKeeps(settings: Settings, c: Conf, e: Env)
    requires Inv(settings, c) && c.pc.Beating?
    ensures Inv(settings, Step(settings, c, e))
  {
    EndKeeps(settings, c);
    if !e.Crash? && SameAccount(settings, c.pc.live) && (e.Done? || (e.Raise? && e.delivered)) {
      var event := Heartbeat(c.pc.sequence, c.pc.live);
      Remembered(c.trace, event);
      AppendKeeps(settings, c, if e.Done? then Leasing else Down, event);
    }
  }

  lemma CountKeeps(settings: Settings, c: Conf, e: Env)
    requires Inv(settings, c) && c.pc.Counting?
    ensures Inv(settings, Step(settings, c, e))
  {
    EndKeeps(settings, c);
    if e.Done? {
      var d := Step(settings, c, e);
      forall event <- c.trace ensures event.Heartbeat? ==> event.sequence < d.pc.sequence {
        assert EventOk(settings, c.store, c.trace, event);
      }
      forall id <- d.store.rows ensures RowOk(d, d.store.rows[id]) {
        assert RowOk(c, c.store.rows[id]);
      }
      CommitKeeps(settings, c, d.store, d.pc);
    }
  }

  /** The lookups of `begin` find no row a live process is executing. */
  lemma LookupFindsTerminal(settings: Settings, c: Conf, id: CommandId, key: Key)
    requires Inv(settings, c) && c.pc != Down && Owned(c.pc).None?
    ensures var entry := Lookup(c.store, id, key);
      entry.Some? ==> entry.value.state != Executing && entry.value.commandId in c.store.rows
                      && c.store.rows[entry.value.commandId] == entry.value
  {
    forall i <- c.store.rows ensures c.store.rows[i].state != Executing {
      assert RowOk(c, c.store.rows[i]);
    }
  }

  lemma LookupKeeps(settings: Settings, c: Conf, e: Env)
    requires Inv(settings, c) && c.pc.Beginning?
    ensures Inv(settings, Step(settings, c, e))
  {
    if !e.Done? {
      EndKeeps(settings, c);
    } else {
      LookupFindsTerminal(settings, c, c.pc.command.commandId, c.pc.command.idempotencyKey);
    }
  }

  /** Whatever was dispatched is in the journal. */
  lemma DispatchedIsJournaled(settings: Settings, c: Conf, id: CommandId)
    requires Inv(settings, c)
    ensures WasDispatched(c.trace, id) ==> id in c.store.rows
  {
    if WasDispatched(c.trace, id) {
      var i :| 0 <= i < |c.trace| && c.trace[i].Dispatched? && c.trace[i].command.commandId == id;
      assert EventOk(settings, c.store, c.trace, c.trace[i]);
    }
  }

  lemma FreshInsertKeeps(settings: Settings, c: Conf)
    requires Inv(settings, c) && c.pc.Inserting?
    requires c.pc.command.commandId !in c.store.rows && !HasKey(c.store, c.pc.command.idempotencyKey)
    ensures Inv(settings, Step(settings, c, Done))
  {
    var id, key := c.pc.command.commandId, c.pc.command.idempotencyKey;
    StatementsKeepConstraints(c.store, id, key, Executing, None);
    DispatchedIsJournaled(settings, c, id);
    var d := Conf(Insert(c.store, id, key).0, Dispatching(c.pc.command, c.pc.live), c.trace);
    forall i <- d.store.rows ensures RowOk(d, d.store.rows[i]) {
      if i != id {
        assert RowOk(c, c.store.rows[i]);
      }
    }
    CommitKeeps(settings, c, d.store, d.pc);
  }

  lemma InsertKeeps(settings: Settings, c: Conf, e: Env)
    requires Inv(settings, c) && c.pc.Inserting?
    ensures Inv(settings, Step(settings, c, e))
  {
    var id, key := c.pc.command.commandId, c.pc.command.idempotencyKey;
    if !e.Done? {
      EndKeeps(settings, c);
    } else if id in c.store.rows || HasKey(c.store, key) {
      LookupFindsTerminal(settings, c, id, key);
      InsertAnswersFromJournal(c.store, id, key);
    } else {
      FreshInsertKeeps(settings, c);
    }
  }

  lemma DispatchKeeps(settings: Settings, c: Conf, e: Env)
    requires Inv(settings, c) && c.pc.Dispatching?
    ensures Inv(settings, Step(settings, c, e))
  {
    if e.Crash? {
      EndKeeps(settings, c);
    } else {
      var event := Dispatched(c.pc.command, c.pc.live);
      Remembered(c.trace, event);
      forall e <- c.trace ensures e.Returned? ==> e.commandId != c.pc.command.commandId {
        assert EventOk(settings, c.store, c.trace, e);
      }
      AppendKeeps(settings, c, Awaiting(c.pc.command), event);
    }
  }

  lemma AwaitKeeps(settings: Settings, c: Conf, e: Env)
    requires Inv(settings, c) && c.pc.Awaiting?
    ensures Inv(settings, Step(settings, c, e))
  {
    if e.Crash? {
      EndKeeps(settings, c);
    } else {
      var id := c.pc.command.commandId;
      var event := if e.Value? then Returned(id, e.result) else Raised(id, MessageOf(e));
      Remembered(c.trace, event);
      AppendKeeps(settings, c, Step(settings, c, e).pc, event);
    }
  }

  lemma WrittenRowOk(c: Conf, d: Conf, id: CommandId, state: State, result: Json)
    requires id in c.store.rows && c.store.rows[id].state == Executing && c.store.rows[id].commandId == id
    requires d.store == Finish(c.store, id, state, Some(result)) && d.trace == c.trace
    requires state == Succeeded ==> Returned(id, result) in c.trace
    requires state == Failed ==> exists message :: Raised(id, message) in c.trace && result == ErrorJson(message)
    requires state == Succeeded || state == Failed
    ensures id in d.store.rows && RowOk(d, d.store.rows[id])
  {
  }

  lemma WrittenRowsOk(c: Conf, d: Conf, id: CommandId, state: State, result: Json)
    requires ValidStore(c.store) && forall i <- c.store.rows :: RowOk(c, c.store.rows[i])
    requires id in c.store.rows && c.store.rows[id].state == Executing && Owned(c.pc) == Some(id)
    requires d.store == Finish(c.store, id, state, Some(result)) && d.trace == c.trace
    requires state == Succeeded ==> Returned(id, result) in c.trace
    requires state == Failed ==> exists message :: Raised(id, message) in c.trace && result == ErrorJson(message)
    requires state == Succeeded || state == Failed
    ensures forall i <- d.store.rows :: RowOk(d, d.store.rows[i])
  {
    WrittenRowOk(c, d, id, state, result);
    forall i <- d.store.rows ensures RowOk(d, d.store.rows[i]) {
      assert RowOk(c, c.store.rows[i]);
      if i != id {
        TerminalRowOk(c, d, c.store.rows[i]);
      }
    }
  }

  /** The terminal write of the command the process owns. */
  lemma TerminalWriteKeeps(settings: Settings, c: Conf, state: State, result: Json)
    requires Inv(settings, c) && (c.pc.Completing? || c.pc.Failing?)
    requires c.pc.Completing? ==> state == Succeeded && result == c.pc.value
    requires c.pc.Failing? ==> state == Failed && result == ErrorJson(c.pc.message)
    ensures var id := c.pc.command.commandId;
      Inv(settings, Conf(Finish(c.store, id, state, Some(result)), Reporting(id, state, Some(result)), c.trace))
  {
    var id := c.pc.command.commandId;
    var d := Conf(Finish(c.store, id, state, Some(result)), Reporting(id, state, Some(result)), c.trace);
    assert PcOk(settings, c);
    OwnedWrite(settings, c.store, c.pc.command, c.trace, state, result);
    WrittenRowsOk(c, d, id, state, result);
    CommitKeeps(settings, c, d.store, d.pc);
  }

  lemma OwnedWrite(settings: Settings, store: Store, command: Command, trace: seq<Event>, state: State, result: Json)
    requires ValidStore(store) && state != Executing && command.commandId in store.rows
    requires store.rows[command.commandId] == Row(command.commandId, command.idempotencyKey, Executing, None)
    ensures var id := command.commandId;
      var after := Finish(store, id, state, Some(result));
      && ValidStore(after) && Later(store, after)
      && PcOk(settings, Conf(after, Reporting(id, state, Some(result)), trace))
  {
    StatementsKeepConstraints(store, command.commandId, "", state, Some(result));
    StatementsKeepTerminalRows(store, command.commandId, "", state, Some(result));
  }

  lemma CompleteKeeps(settings: Settings, c: Conf, e: Env)
    requires Inv(settings, c) && c.pc.Completing?
    ensures Inv(settings, Step(settings, c, e))
  {
    if e.Crash? {
      EndKeeps(settings, c);
    } else if e.Done? {
      TerminalWriteKeeps(settings, c, Succeeded, c.pc.value);
    } else {
      var event := Raised(c.pc.command.commandId, MessageOf(e));
      Remembered(c.trace, event);
      AppendKeeps(settings, c, Failing(c.pc.command, MessageOf(e)), event);
    }
  }

  lemma FailKeeps(settings: Settings, c: Conf, e: Env)
    requires Inv(settings, c) && c.pc.Failing?
    ensures Inv(settings, Step(settings, c, e))
  {
    if e.Done? {
      TerminalWriteKeeps(settings, c, Failed, ErrorJson(c.pc.message));
    } else {
      EndKeeps(settings, c);
    }
  }

  lemma ReportKeeps(settings: Settings, c: Conf, e: Env)
    requires Inv(settings, c) && c.pc.Reporting?
    ensures Inv(settings, Step(settings, c, e))
  {
    EndKeeps(settings, c);
    if e.Done? || (e.Raise? && e.delivered) {
      var event := Reported(c.pc.commandId, c.pc.state, c.pc.result);
      Remembered(c.trace, event);
      AppendKeeps(settings, c, if e.Done? then Looping else Down, event);
    }
  }

  lemma DownKeeps(settings: Settings, c: Conf, e: Env)
    requires Inv(settings, c) && c.pc.Down?
    ensures Inv(settings, Step(settings, c, e))
  {
    EndKeeps(settings, c);
    if e.Start? {
      RecoverKeeps(settings, c);
    }
  }

  /** The steps that neither write the journal nor become visible. */
  lemma QuietKeeps(settings: Settings, c: Conf, e: Env)
    requires Inv(settings, c) && (c.pc.Initialising? || c.pc.Looping? || c.pc.Leasing? || c.pc.Rechecking?)
    ensures Inv(settings, Step(settings, c, e))
  {
    EndKeeps(settings, c);
  }

  lemma InvStep(settings: Settings, c: Conf, e: Env)
    requires Inv(settings, c)
    ensures Inv(settings, Step(settings, c, e))
  {
    match c.pc
    case Down => DownKeeps(settings, c, e);
    case Counting(_) => CountKeeps(settings, c, e);
    case Beating(_, _) => BeatKeeps(settings, c, e);
    case Beginning(_, _) => LookupKeeps(settings, c, e);
    case Inserting(_, _) => InsertKeeps(settings, c, e);
    case Dispatching(_, _) => DispatchKeeps(settings, c, e);
    case Awaiting(_) => AwaitKeeps(settings, c, e);
    case Completing(_, _) => CompleteKeeps(settings, c, e);
    case Failing(_, _) => FailKeeps(settings, c, e);
    case Reporting(_, _, _) => ReportKeeps(settings, c, e);
    case _ => QuietKeeps(settings, c, e);
  }

  lemma {:induction false} InvRun(settings: Settings, input: seq<Env>)
    ensures Inv(settings, Run(settings, Initial, input))
    decreases |input|
  {
    if input != [] {
      InvRun(settings, input[..|input| - 1]);
      InvStep(settings, Run(settings, Initial, input[..|input| - 1]), input[|input| - 1]);
    }
  }

  // The theorems, over every run from an empty journal.

  /**
   * At-most-once dispatch: whatever is leased, whatever fails and wherever the
   * process crashes and restarts, no command id and no idempotency key is
   * handed to the terminal twice.
   */
  lemma AtMostOnceDispatch(settings: Settings, input: seq<Env>)
    ensures AtMostOnce(Run(settings, Initial, input).trace)
  {
    InvRun(settings, input);
  }

  /**
   * All results ever submitted for one command agree with each other and with
   * its journal row, and EXECUTING is never submitted.
   */
  lemma ReportsAgree(settings: Settings, input: seq<Env>, i: int, j: int)
    requires var trace := Run(settings, Initial, input).trace;
      && 0 <= i < |trace| && trace[i].Reported?
      && 0 <= j < |trace| && trace[j].Reported? && trace[i].commandId == trace[j].commandId
    ensures var c := Run(settings, Initial, input);
      && c.trace[i] == c.trace[j] && c.trace[i].state != Executing
      && c.trace[i].commandId in c.store.rows
      && c.store.rows[c.trace[i].commandId].state == c.trace[i].state
      && c.store.rows[c.trace[i].commandId].result == c.trace[i].result
  {
    InvRun(settings, input);
    var c := Run(settings, Initial, input);
    assert EventOk(settings, c.store, c.trace, c.trace[i]) && EventOk(settings, c.store, c.trace, c.trace[j]);
  }

  /** Every submitted result is the one in the journal. */
  ghost predicate ReportsAgreeWith(store: Store, trace: seq<Event>) {
    forall e <- trace :: e.Reported? ==>
      && e.commandId in store.rows && e.state != Executing
      && store.rows[e.commandId].state == e.state && store.rows[e.commandId].result == e.result
  }

  /** Terminal rows never change again, so no upload failure turns SUCCEEDED into FAILED. */
  lemma {:induction false} TerminalRowsAbsorb(settings: Settings, c: Conf, more: seq<Env>, id: CommandId)
    requires id in c.store.rows && c.store.rows[id].state != Executing
    ensures var d := Run(settings, c, more);
      id in d.store.rows && d.store.rows[id] == c.store.rows[id]
    decreases |more|
  {
    if more != [] {
      TerminalRowsAbsorb(settings, c, more[..|more| - 1], id);
      StepKeepsTerminalRows(settings, Run(settings, c, more[..|more| - 1]), more[|more| - 1]);
    }
  }

  /**
   * The journal tells the truth: a SUCCEEDED row holds the one value the
   * dispatch returned, a FAILED row the message of an exception, UNCERTAIN
   * means that a process ended while it owned the row, and a command without a
   * row was never dispatched.
   */
  lemma JournalTruth(settings: Settings, input: seq<Env>, id: CommandId)
    ensures var c := Run(settings, Initial, input);
      && (WasDispatched(c.trace, id) ==> id in c.store.rows)
      && (id in c.store.rows ==> RowOk(c, c.store.rows[id]))
      && (id in c.store.rows && c.store.rows[id].state == Succeeded ==>
            forall value :: Returned(id, value) in c.trace ==> c.store.rows[id].result == Some(value))
  {
    InvRun(settings, input);
    var c := Run(settings, Initial, input);
    DispatchedIsJournaled(settings, c, id);
    if id in c.store.rows && c.store.rows[id].state == Succeeded {
      assert RowOk(c, c.store.rows[id]);
      forall value | Returned(id, value) in c.trace ensures c.store.rows[id].result == Some(value) {
        var i :| 0 <= i < |c.trace| && c.trace[i] == Returned(id, value);
        var j :| 0 <= j < |c.trace| && c.trace[j] == Returned(id, c.store.rows[id].result.value);
      }
    }
  }

  /** No EXECUTING row is left while the loop is between two commands. */
  lemma NothingExecutingBetweenCommands(settings: Settings, input: seq<Env>, id: CommandId)
    requires var c := Run(settings, Initial, input);
      c.pc != Down && Owned(c.pc).None? && id in c.store.rows
    ensures Run(settings, Initial, input).store.rows[id].state != Executing
  {
    InvRun(settings, input);
    var c := Run(settings, Initial, input);
    assert RowOk(c, c.store.rows[id]);
  }

  /**
   * Heartbeat sequences increase over the whole run, restarts included; a
   * heartbeat is sent between any two dispatches; and every dispatch carries
   * the paired identity, on a terminal logged into the paired account.
   */
  lemma GuardedDispatch(settings: Settings, input: seq<Env>)
    ensures var trace := Run(settings, Initial, input).trace;
      && HeartbeatOrder(trace)
      && (forall e <- trace :: e.Dispatched? ==>
            && e.command.connectorId == settings.connectorId
            && e.command.brokerConnectionId == settings.brokerConnectionId
            && e.command.accountLogin == settings.accountLogin
            && e.command.brokerServer == settings.brokerServer
            && e.command.accountType == settings.accountType)
      && (forall e <- trace :: e.Dispatched? || e.Heartbeat? ==>
            && e.identity.login == settings.accountLogin
            && e.identity.server == settings.brokerServer
            && e.identity.accountType == settings.accountType)
  {
    InvRun(settings, input);
    var c := Run(settings, Initial, input);
    forall e <- c.trace ensures EventOk(settings, c.store, c.trace, e) {
    }
  }

  /**
   * FAILED does not mean that the broker was not touched: when the terminal
   * write of a success raises, the command ends FAILED although its dispatch
   * returned, and this is what is reported from then on.
   */
  lemma FailedAfterSuccess(settings: Settings, input: seq<Env>, value: Json, message: string)
    requires Run(settings, Initial, input).pc.Awaiting?
    ensures var c := Run(settings, Initial, input);
      var id := c.pc.command.commandId;
      var d := Run(settings, c, [Value(value), Raise(false, message), Done, Done]);
      && Returned(id, value) in d.trace
      && id in d.store.rows && d.store.rows[id].state == Failed
      && Reported(id, Failed, Some(ErrorJson(message))) in d.trace
  {
    InvRun(settings, input);
    var c := Run(settings, Initial, input);
    var four := [Value(value), Raise(false, message), Done, Done];
    assert four[..3] == [Value(value), Raise(false, message), Done];
    assert four[..3][..2] == [Value(value), Raise(false, message)];
    assert four[..3][..2][..1] == [Value(value)];
    var c1 := Step(settings, c, four[0]);
    assert Run(settings, c, four[..3][..2][..1][..0]) == c;
    assert Run(settings, c, four[..3][..2][..1]) == c1;
    var c2 := Step(settings, c1, four[1]);
    assert Run(settings, c, four[..3][..2]) == c2;
    var c3 := Step(settings, c2, four[2]);
    assert Run(settings, c, four[..3]) == c3;
    assert Returned(c.pc.command.commandId, value) in c1.trace;
  }

  /** Some command and some live account the connector accepts. */
  ghost function SomeCommand(settings: Settings): (command: Command)
    ensures BoundTo(settings, command)
  {
    Command("c", "k", settings.connectorId, settings.brokerConnectionId, settings.accountLogin, settings.brokerServer,
            settings.accountType, "CLOSE_ALL", "{}")
  }

  ghost function PairedAccount(settings: Settings): (live: AccountIdentity)
    ensures SameAccount(settings, live)
  {
    AccountIdentity(settings.accountLogin, settings.brokerServer, settings.accountType)
  }

  ghost predicate HasReturned(trace: seq<Event>, id: CommandId) {
    exists value :: Returned(id, value) in trace
  }

  /** At input `n` the terminal write of a success of `id` raises. */
  ghost predicate CompletionRaises(settings: Settings, input: seq<Env>, id: CommandId, n: nat) {
    && n < |input| && !input[n].Done? && !input[n].Crash?
    && var c := Run(settings, Initial, input[..n]);
       c.pc.Completing? && c.pc.command.commandId == id
  }

  ghost predicate CompletionRaised(settings: Settings, input: seq<Env>, id: CommandId) {
    exists n: nat :: CompletionRaises(settings, input, id, n)
  }

  /** `id` has returned, and is FAILED or about to be. */
  ghost predicate Hides(c: Conf, id: CommandId) {
    && HasReturned(c.trace, id)
    && ((id in c.store.rows && c.store.rows[id].state == Failed)
        || (c.pc.Failing? && c.pc.command.commandId == id))
  }

  lemma RowFails(settings: Settings, c: Conf, e: Env, id: CommandId)
    requires Inv(settings, c)
    ensures var d := Step(settings, c, e);
      id in d.store.rows && d.store.rows[id].state == Failed ==>
        (id in c.store.rows && c.store.rows[id].state == Failed)
        || (c.pc.Failing? && c.pc.command.commandId == id)
  {
    StepCommits(settings, c, e);
  }

  lemma StartsFailing(settings: Settings, c: Conf, e: Env, id: CommandId)
    requires Inv(settings, c)
    ensures var d := Step(settings, c, e);
      d.pc.Failing? && d.pc.command.commandId == id ==>
        (c.pc.Awaiting? && d.trace == c.trace + [Raised(id, d.pc.message)] && c.pc.command.commandId == id)
        || (c.pc.Completing? && c.pc.command.commandId == id && !e.Done? && !e.Crash?)
  {
  }

  lemma ReturnsOnlyAwaiting(settings: Settings, c: Conf, e: Env, id: CommandId)
    ensures HasReturned(Step(settings, c, e).trace, id) ==>
      HasReturned(c.trace, id)
      || (c.pc.Awaiting? && c.pc.command.commandId == id && Step(settings, c, e).pc.Completing?)
  {
    var d := Step(settings, c, e);
    if HasReturned(d.trace, id) && !HasReturned(c.trace, id) {
      var value :| Returned(id, value) in d.trace;
      StepEvents(settings, c, e);
      StepReturns(settings, c, e);
      assert Returned(id, value) !in c.trace;
      assert d.trace == c.trace + [Returned(id, value)];
    }
  }

  lemma StepReturns(settings: Settings, c: Conf, e: Env)
    ensures var d := Step(settings, c, e);
      |d.trace| > |c.trace| && d.trace[|c.trace|].Returned? ==>
        c.pc.Awaiting? && d.pc.Completing? && d.trace[|c.trace|].commandId == c.pc.command.commandId
  {
  }

  lemma HidesStep(settings: Settings, c: Conf, e: Env, id: CommandId)
    requires Inv(settings, c) && Hides(Step(settings, c, e), id)
    ensures Hides(c, id) || (c.pc.Completing? && c.pc.command.commandId == id && !e.Done? && !e.Crash?)
  {
    RowFails(settings, c, e, id);
    StartsFailing(settings, c, e, id);
    ReturnsOnlyAwaiting(settings, c, e, id);
  }

  lemma RaisesLater(settings: Settings, front: seq<Env>, last: Env, id: CommandId)
    requires CompletionRaised(settings, front, id)
    ensures CompletionRaised(settings, front + [last], id)
  {
    var n: nat :| CompletionRaises(settings, front, id, n);
    assert front[..n] == (front + [last])[..n];
    assert CompletionRaises(settings, front + [last], id, n);
  }

  lemma {:induction false} HidesOnlyAfterRaise(settings: Settings, input: seq<Env>, id: CommandId)
    requires Hides(Run(settings, Initial, input), id)
    ensures CompletionRaised(settings, input, id)
    decreases |input|
  {
    if input != [] {
      var front, last := input[..|input| - 1], input[|input| - 1];
      var c := Run(settings, Initial, front);
      InvRun(settings, front);
      HidesStep(settings, c, last, id);
      if Hides(c, id) {
        HidesOnlyAfterRaise(settings, front, id);
        RaisesLater(settings, front, last, id);
        assert input == front + [last];
      } else {
        assert CompletionRaises(settings, input, id, |front|);
      }
    }
  }

  lemma {:induction false} TraceGrows(settings: Settings, c: Conf, input: seq<Env>, n: nat, event: Event)
    requires n <= |input| && event in Run(settings, c, input[..n]).trace
    ensures event in Run(settings, c, input).trace
    decreases |input|
  {
    if n == |input| {
      assert input[..n] == input;
    } else {
      var front := input[..|input| - 1];
      assert front[..n] == input[..n];
      TraceGrows(settings, c, front, n, event);
      StepEvents(settings, Run(settings, c, front), input[|input| - 1]);
    }
  }

  /**
   * Exactly when FAILED hides a success: over every run, the dispatch of a command
   * whose row is FAILED had returned if and only if the terminal write of its success
   * raised.
   */
  lemma FailedHidesReturnIff(settings: Settings, input: seq<Env>, id: CommandId)
    requires var c := Run(settings, Initial, input); id in c.store.rows && c.store.rows[id].state == Failed
    ensures HasReturned(Run(settings, Initial, input).trace, id) <==> CompletionRaised(settings, input, id)
  {
    if HasReturned(Run(settings, Initial, input).trace, id) {
      HidesOnlyAfterRaise(settings, input, id);
    }
    if CompletionRaised(settings, input, id) {
      var n: nat :| CompletionRaises(settings, input, id, n);
      InvRun(settings, input[..n]);
      var c := Run(settings, Initial, input[..n]);
      TraceGrows(settings, Initial, input, n, Returned(id, c.pc.value));
    }
  }

  /** Where `begin` leads when no statement raises: its lookups, and the insert if they find nothing. */
  ghost function AfterBegun(settings: Settings, c: Conf): Conf {
    var looked := Step(settings, c, Done);
    if looked.pc.Inserting? then Step(settings, looked, Done) else looked
  }

  /**
   * A command that leaves `begin` is dispatched, or reported under its own id, exactly
   * if its id is in the journal or its key is not; otherwise the row that has the key is
   * reported, under another id.
   */
  lemma AnsweredUnderOwnIdIff(settings: Settings, input: seq<Env>)
    requires Run(settings, Initial, input).pc.Beginning?
    ensures var c := Run(settings, Initial, input); var command := c.pc.command;
      var d := AfterBegun(settings, c);
      && ((d.pc.Dispatching? && d.pc.command == command) || (d.pc.Reporting? && d.pc.commandId == command.commandId)
          <==> command.commandId in c.store.rows || !HasKey(c.store, command.idempotencyKey))
      && (command.commandId !in c.store.rows && HasKey(c.store, command.idempotencyKey) ==>
            && d.pc.Reporting? && d.pc.commandId != command.commandId && d.pc.commandId in c.store.rows
            && c.store.rows[d.pc.commandId].key == command.idempotencyKey)
  {
    InvRun(settings, input);
    var c := Run(settings, Initial, input);
    LookupFindsTerminal(settings, c, c.pc.command.commandId, c.pc.command.idempotencyKey);
  }

  /** Every lease of `id` in `input` carries the key `key`. */
  ghost predicate LeasedOnlyWith(input: seq<Env>, id: CommandId, key: Key) {
    forall e <- input :: e.Leased? && e.command.commandId == id ==> e.command.idempotencyKey == key
  }

  /** What a step of the process needs to answer for `id` with another key. */
  ghost predicate Unanswerable(c: Conf, id: CommandId, key: Key) {
    && id !in c.store.rows && HasKey(c.store, key)
    && match c.pc
       case Rechecking(command) => command.commandId == id ==> command.idempotencyKey == key
       case Beginning(command, _) => command.commandId == id ==> command.idempotencyKey == key
       case Inserting(command, _) => command.commandId == id ==> command.idempotencyKey == key
       case _ => true
  }

  lemma StepStaysUnanswerable(settings: Settings, c: Conf, e: Env, id: CommandId, key: Key)
    requires Unanswerable(c, id, key)
    requires e.Leased? && e.command.commandId == id ==> e.command.idempotencyKey == key
    ensures Unanswerable(Step(settings, c, e), id, key)
  {
    var d := Step(settings, c, e);
    assert HasKey(d.store, key) by {
      StepKeepsTerminalRows(settings, c, e);
      var owner :| owner in c.store.rows && c.store.rows[owner].key == key;
      assert owner in d.store.rows;
    }
  }

  lemma {:induction false} StaysUnanswerable(settings: Settings, c: Conf, more: seq<Env>, id: CommandId, key: Key)
    requires Inv(settings, c) && Unanswerable(c, id, key) && LeasedOnlyWith(more, id, key)
    ensures var d := Run(settings, c, more); Inv(settings, d) && Unanswerable(d, id, key)
    decreases |more|
  {
    if more != [] {
      var before := more[..|more| - 1];
      StaysUnanswerable(settings, c, before, id, key);
      InvStep(settings, Run(settings, c, before), more[|more| - 1]);
      StepStaysUnanswerable(settings, Run(settings, c, before), more[|more| - 1], id, key);
    }
  }

  /**
   * A hit by idempotency key is reported under the old command id only: once
   * the key of `id` belongs to another command, the lease on `id` is never
   * answered, however often it is leased again.
   */
  lemma KeyHitIsNeverAnswered(settings: Settings, input: seq<Env>, more: seq<Env>, id: CommandId, key: Key)
    requires Run(settings, Initial, input).pc.Looping? || Run(settings, Initial, input).pc.Down?
    requires var c := Run(settings, Initial, input); id !in c.store.rows && HasKey(c.store, key)
    requires LeasedOnlyWith(more, id, key)
    ensures forall e <- Run(settings, Run(settings, Initial, input), more).trace ::
      (e.Reported? ==> e.commandId != id) && (e.Dispatched? ==> e.command.commandId != id)
  {
    InvRun(settings, input);
    StaysUnanswerable(settings, Run(settings, Initial, input), more, id, key);
    var d := Run(settings, Run(settings, Initial, input), more);
    forall e <- d.trace ensures EventOk(settings, d.store, d.trace, e) {
    }
  }
}
