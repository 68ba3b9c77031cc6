/**
 * The hosted worker supervisor (host_worker.py): a table of active sessions of
 * bounded size, filled by leasing assignments, emptied by reaping exited
 * children.
 *
 * A child process is known by its handle, a fresh number for every launch.  The
 * ghost sets of `Ledger` follow all handles ever launched.
 */
module HostWorker {
  import opened Wrappers

  type ConnectorId = string
  type Handle = nat

  datatype Session = Session(process: Handle, lastHeartbeat: real)

  /**
   * How `_launch_assignment` goes: the child runs and is entered in the table; nothing
   * was started; or the child was started and then handing it its payload raised.
   */
  datatype Launch = Launches | NotStarted | StartedThenRaised

  /** What lease_assignment answers; an exhausted backlog answers 204. */
  datatype Lease = ApiError | NoAssignment | Assignment(connectorId: ConnectorId, launch: Launch)

  /** Everything outside that one tick meets. */
  datatype Tick = Tick(
    now: real,
    exited: set<Handle>,                 // children whose poll() is not None
    renewalFails: set<ConnectorId>,      // heartbeat_assignment raises for these
    backlog: seq<Lease>,                 // the answers to successive lease requests
    presenceFails: bool)

  /**
   * Where the started children went.  `lost` are those whose table entry was
   * overwritten by leasing a connector that was already active, `orphaned` those whose
   * launch raised after they had started, so that they never had an entry.
   */
  datatype Ledger = Ledger(launched: set<Handle>, reaped: set<Handle>, lost: set<Handle>, orphaned: set<Handle>)

  type Table = map<ConnectorId, Session>

  ghost function Handles(active: Table): set<Handle> {
    set id <- active :: active[id].process
  }

  /** The handles of the entries `ids`. */
  ghost function HandlesOf(active: Table, ids: set<ConnectorId>): set<Handle>
    requires ids <= active.Keys
  {
    set id <- ids :: active[id].process
  }

  lemma AllHandles(active: Table, ids: set<ConnectorId>)
    requires ids == active.Keys
    ensures HandlesOf(active, ids) == Handles(active)
  {
  }

  lemma HandlesOfOneMore(active: Table, ids: set<ConnectorId>, id: ConnectorId)
    requires ids <= active.Keys && id in active
    ensures HandlesOf(active, ids + {id}) == HandlesOf(active, ids) + {active[id].process}
  {
  }

  /** Every child started is active, reaped, lost or orphaned, exactly one of these, and no two entries share one. */
  ghost predicate Accounted(active: Table, ledger: Ledger, next: Handle) {
    && (forall i <- active, j <- active :: active[i].process == active[j].process ==> i == j)
    && ledger.launched == Handles(active) + ledger.reaped + ledger.lost + ledger.orphaned
    && Handles(active) !! ledger.reaped !! ledger.lost !! ledger.orphaned
    && (forall h <- ledger.launched :: h < next)
  }

  lemma {:induction false} CountedByTable(active: Table)
    requires forall i <- active, j <- active :: active[i].process == active[j].process ==> i == j
    ensures |Handles(active)| == |active|
    decreases |active|
  {
    if active != map[] {
      var id :| id in active;
      var rest := active - {id};
      CountedByTable(rest);
      HandlesWithout(active, id);
      assert active[id].process in Handles(active);
      assert active.Keys == rest.Keys + {id};
      assert |active.Keys| == |active| && |rest.Keys| == |rest|;
    }
  }

  /** Counting children instead of naming them. */
  lemma StartedAreAccountedFor(active: Table, ledger: Ledger, next: Handle)
    requires Accounted(active, ledger, next)
    ensures |ledger.launched| == |active| + |ledger.reaped| + |ledger.lost| + |ledger.orphaned|
    ensures |ledger.launched| == |active| + |ledger.reaped| <==> ledger.lost == {} && ledger.orphaned == {}
  {
    CountedByTable(active);
    assert |Handles(active) + ledger.reaped| == |Handles(active)| + |ledger.reaped|;
    assert |Handles(active) + ledger.reaped + ledger.lost| == |Handles(active) + ledger.reaped| + |ledger.lost|;
  }

  lemma HandlesWithout(active: Table, id: ConnectorId)
    requires forall i <- active, j <- active :: active[i].process == active[j].process ==> i == j
    requires id in active
    ensures Handles(active - {id}) == Handles(active) - {active[id].process}
  {
    var rest := active - {id};
    assert forall i <- rest :: i in active && rest[i] == active[i];
    assert forall i <- active :: i != id ==> i in rest;
  }

  lemma RemoveKeepsAccount(active: Table, ledger: Ledger, next: Handle, id: ConnectorId)
    requires Accounted(active, ledger, next) && id in active
    ensures Accounted(active - {id}, ledger.(reaped := ledger.reaped + {active[id].process}), next)
  {
    HandlesWithout(active, id);
    assert active[id].process in Handles(active);
  }

  lemma LaunchKeepsAccount(active: Table, ledger: Ledger, next: Handle, id: ConnectorId, now: real)
    requires Accounted(active, ledger, next)
    ensures var lost := if id in active then {active[id].process} else {};
      Accounted(active[id := Session(next, now)],
                ledger.(launched := ledger.launched + {next}, lost := ledger.lost + lost), next + 1)
  {
    var rest := active - {id};
    var after := active[id := Session(next, now)];
    if id in active {
      HandlesWithout(active, id);
      assert active[id].process in Handles(active);
    } else {
      assert rest == active;
    }
    assert Handles(after) == Handles(rest) + {next} by {
      assert forall i <- after :: i != id ==> i in rest && rest[i] == after[i];
      assert forall i <- rest :: i in after && rest[i] == after[i];
      assert id in after && after[id].process == next;
    }
    assert next !in ledger.launched;
  }

  lemma OrphanKeepsAccount(active: Table, ledger: Ledger, next: Handle)
    requires Accounted(active, ledger, next)
    ensures Accounted(active, ledger.(launched := ledger.launched + {next}, orphaned := ledger.orphaned + {next}),
                      next + 1)
  {
    assert next !in ledger.launched;
  }

  lemma RenewKeepsAccount(active: Table, ledger: Ledger, next: Handle, renewed: Table)
    requires Accounted(active, ledger, next)
    requires renewed.Keys == active.Keys && forall i <- active :: renewed[i].process == active[i].process
    ensures Accounted(renewed, ledger, next)
  {
    assert Handles(renewed) == Handles(active) by {
      assert forall i <- renewed :: i in active && renewed[i].process == active[i].process;
      assert forall i <- active :: i in renewed && renewed[i].process == active[i].process;
    }
  }

  // What the parts of a tick do to the table.

  ghost function Reaped(active: Table, exited: set<Handle>): Table {
    map id | id in active && active[id].process !in exited :: active[id]
  }

  /** The children of the table that have exited. */
  ghost function Exited(active: Table, exited: set<Handle>): set<Handle> {
    Handles(active) * exited
  }

  ghost function Renewed(active: Table, now: real, interval: real, fails: set<ConnectorId>): Table {
    map id | id in active ::
      if now - active[id].lastHeartbeat >= interval && id !in fails
      then active[id].(lastHeartbeat := now) else active[id]
  }

  /** The table, the ledger and the next handle after one launch. */
  ghost function Launched(active: Table, ledger: Ledger, next: Handle, id: ConnectorId, launch: Launch, now: real)
    : (Table, Ledger, Handle)
  {
    match launch
    case Launches =>
      (active[id := Session(next, now)],
       ledger.(launched := ledger.launched + {next},
               lost := ledger.lost + if id in active then {active[id].process} else {}),
       next + 1)
    case NotStarted => (active, ledger, next)
    case StartedThenRaised =>
      (active, ledger.(launched := ledger.launched + {next}, orphaned := ledger.orphaned + {next}), next + 1)
  }

  /** What a launch does to the table and to the ledger. */
  lemma LaunchDecides(active: Table, ledger: Ledger, next: Handle, id: ConnectorId, launch: Launch, now: real)
    ensures var (a, l, n) := Launched(active, ledger, next, id, launch, now);
      && a == (if launch == Launches then active[id := Session(next, now)] else active)
      && l.launched == ledger.launched + (if launch == NotStarted then {} else {next})
      && l.reaped == ledger.reaped
      && l.lost == ledger.lost + (if launch == Launches && id in active then {active[id].process} else {})
      && l.orphaned == ledger.orphaned + (if launch == StartedThenRaised then {next} else {})
      && n == next + (if launch == NotStarted then 0 else 1)
  {
  }

  /**
   * The lease loop: while there is room, take the next answer; an error or an
   * empty answer ends it, a failed launch does not.
   */
  ghost function Filled(active: Table, ledger: Ledger, max: nat, backlog: seq<Lease>, next: Handle, now: real)
    : (Table, Ledger, Handle)
    decreases |backlog|
  {
    if |active| >= max || backlog == [] || !backlog[0].Assignment? then
      (active, ledger, next)
    else
      var (a, l, n) := Launched(active, ledger, next, backlog[0].connectorId, backlog[0].launch, now);
      Filled(a, l, max, backlog[1..], n, now)
  }

  /** The table, the ledger and the next handle after one tick. */
  ghost function AfterTick(active: Table, ledger: Ledger, next: Handle, max: nat, interval: real, tick: Tick)
    : (Table, Ledger, Handle)
  {
    Filled(Renewed(Reaped(active, tick.exited), tick.now, interval, tick.renewalFails),
           ledger.(reaped := ledger.reaped + Exited(active, tick.exited)), max, tick.backlog, next, tick.now)
  }

  lemma LaunchedIsAccounted(active: Table, ledger: Ledger, next: Handle, id: ConnectorId, launch: Launch, now: real)
    requires Accounted(active, ledger, next)
    ensures var (a, l, n) := Launched(active, ledger, next, id, launch, now);
      Accounted(a, l, n) && next <= n
  {
    match launch
    case Launches => LaunchKeepsAccount(active, ledger, next, id, now);
    case NotStarted =>
    case StartedThenRaised => OrphanKeepsAccount(active, ledger, next);
  }

  lemma OneMoreSession(active: Table, id: ConnectorId, session: Session)
    ensures |active[id := session]| <= |active| + 1
  {
    var after := active[id := session];
    assert |after.Keys| == |after| && |active.Keys| == |active|;
    assert after.Keys == active.Keys + {id};
  }

  /** What one launch loses or orphans. */
  lemma OneLaunchLoses(active: Table, ledger: Ledger, next: Handle, id: ConnectorId, launch: Launch, now: real)
    requires Accounted(active, ledger, next)
    ensures var (a, l, n) := Launched(active, ledger, next, id, launch, now);
      && a.Keys == (if launch.Launches? then active.Keys + {id} else active.Keys)
      && ledger.lost <= l.lost && (l.lost == ledger.lost <==> !(launch.Launches? && id in active))
      && ledger.orphaned <= l.orphaned && (l.orphaned == ledger.orphaned <==> !launch.StartedThenRaised?)
  {
    if launch.Launches? && id in active {
      assert active[id].process in Handles(active);
    }
    assert next !in ledger.launched;
  }

  /** The loop loses a child exactly when it leases an active connector, and orphans one when a launch raises late. */
  lemma {:induction false} LosesIff(active: Table, ledger: Ledger, max: nat, backlog: seq<Lease>, next: Handle,
                                    now: real)
    requires Accounted(active, ledger, next)
    ensures var l := Filled(active, ledger, max, backlog, next, now).1;
      && ledger.lost <= l.lost && (l.lost == ledger.lost <==> NoActiveLeased(active.Keys, max, backlog))
      && ledger.orphaned <= l.orphaned && (l.orphaned == ledger.orphaned <==> NoneOrphaned(active.Keys, max, backlog))
    decreases |backlog|
  {
    assert |active.Keys| == |active|;
    if |active| < max && backlog != [] && backlog[0].Assignment? {
      var id, launch := backlog[0].connectorId, backlog[0].launch;
      var (a, l, n) := Launched(active, ledger, next, id, launch, now);
      LaunchedIsAccounted(active, ledger, next, id, launch, now);
      OneLaunchLoses(active, ledger, next, id, launch, now);
      LosesIff(a, l, max, backlog[1..], n, now);
    }
  }

  class Supervisor {
    const maxSessions: nat
    const heartbeatSeconds: real
    var active: Table
    var lastPresence: Option<real>
    var nextHandle: Handle
    ghost var ledger: Ledger

    ghost predicate Valid()
      reads this
    {
      && 1 <= maxSessions && |active| <= maxSessions
      && Accounted(active, ledger, nextHandle)
    }

    constructor (maxSessions: nat, heartbeatSeconds: real)
      requires 1 <= maxSessions
      ensures Valid() && active == map[] && nextHandle == 0 && lastPresence == None
      ensures this.maxSessions == maxSessions && this.heartbeatSeconds == heartbeatSeconds
      ensures ledger == Ledger({}, {}, {}, {})
    {
      this.maxSessions := maxSessions;
      this.heartbeatSeconds := heartbeatSeconds;
      active := map[];
      lastPresence := None;
      nextHandle := 0;
      ledger := Ledger({}, {}, {}, {});
    }

    /** `_reap_exited`: exactly the exited children leave the table. */
    method ReapExited(exited: set<Handle>)
      requires Valid()
      modifies this`active, this`ledger
      ensures Valid()
      ensures active == Reaped(old(active), exited)
      ensures forall id :: id in active <==> id in old(active) && old(active)[id].process !in exited
      ensures forall id <- active :: active[id] == old(active)[id]
      ensures ledger == old(ledger).(reaped := old(ledger).reaped + Exited(old(active), exited))
    {
      var todo := active.Keys;
      while todo != {}
        invariant Accounted(active, ledger, nextHandle)
        invariant todo <= active.Keys <= old(active).Keys
        invariant forall id <- active :: active[id] == old(active)[id] && (id in todo || active[id].process !in exited)
        invariant forall id <- old(active) :: id !in active ==> old(active)[id].process in exited
        invariant ledger == old(ledger).(reaped := ledger.reaped)
        invariant ledger.reaped == old(ledger).reaped + (Handles(old(active)) - Handles(active))
        decreases todo
      {
        var id :| id in todo;
        if active[id].process in exited {
          RemoveKeepsAccount(active, ledger, nextHandle, id);
          ledger := ledger.(reaped := ledger.reaped + {active[id].process});
          active := active - {id};
        }
        todo := todo - {id};
      }
      assert active.Keys <= old(active).Keys;
      SubsetSize(active.Keys, old(active).Keys);
      assert |active.Keys| == |active| && |old(active).Keys| == |old(active)|;
    }

    /** The renewal loop: a failed renewal leaves its session as it was. */
    method RenewLeases(now: real, fails: set<ConnectorId>)
      requires Valid()
      modifies this`active
      ensures Valid()
      ensures active == Renewed(old(active), now, heartbeatSeconds, fails)
      ensures active.Keys == old(active).Keys
      ensures forall id <- active :: active[id].process == old(active)[id].process
      ensures forall id <- active ::
        active[id].lastHeartbeat == (if now - old(active)[id].lastHeartbeat >= heartbeatSeconds && id !in fails
                                     then now else old(active)[id].lastHeartbeat)
    {
      var todo := active.Keys;
      while todo != {}
        invariant todo <= active.Keys == old(active).Keys
        invariant forall id <- active ::
          active[id] == (if id in todo then old(active) else Renewed(old(active), now, heartbeatSeconds, fails))[id]
        decreases todo
      {
        var id :| id in todo;
        if now - active[id].lastHeartbeat >= heartbeatSeconds && id !in fails {
          active := active[id := active[id].(lastHeartbeat := now)];
        }
        todo := todo - {id};
      }
      RenewKeepsAccount(old(active), ledger, nextHandle, active);
      assert |active.Keys| == |active| && |old(active).Keys| == |old(active)|;
    }

    /** `_launch_assignment`: a failed launch changes nothing in the table, but may leave a child running. */
    method LaunchAssignment(id: ConnectorId, launch: Launch, now: real) returns (launched: bool)
      requires Valid() && |active| < maxSessions
      modifies this`active, this`nextHandle, this`ledger
      ensures Valid() && launched == launch.Launches?
      ensures (active, ledger, nextHandle) == Launched(old(active), old(ledger), old(nextHandle), id, launch, now)
    {
      LaunchedIsAccounted(active, ledger, nextHandle, id, launch, now);
      OneMoreSession(active, id, Session(nextHandle, now));
      ledger := Launched(active, ledger, nextHandle, id, launch, now).1;
      launched := launch.Launches?;
      if launched {
        active := active[id := Session(nextHandle, now)];
      }
      if !launch.NotStarted? {
        nextHandle := nextHandle + 1;
      }
    }

    /** The lease loop. */
    method LeaseAssignments(backlog: seq<Lease>, now: real)
      requires Valid()
      modifies this`active, this`nextHandle, this`ledger
      ensures Valid()
      ensures (active, ledger, nextHandle)
           == Filled(old(active), old(ledger), maxSessions, backlog, old(nextHandle), now)
      ensures NoActiveLeased(old(active).Keys, maxSessions, backlog) <==> ledger.lost == old(ledger).lost
      ensures NoneOrphaned(old(active).Keys, maxSessions, backlog) <==> ledger.orphaned == old(ledger).orphaned
    {
      LosesIff(active, ledger, maxSessions, backlog, nextHandle, now);
      var i := 0;
      while |active| < maxSessions
        invariant 0 <= i <= |backlog| && Valid()
        invariant Filled(active, ledger, maxSessions, backlog[i..], nextHandle, now)
               == Filled(old(active), old(ledger), maxSessions, backlog, old(nextHandle), now)
        decreases |backlog| - i
      {
        if i == |backlog| || !backlog[i].Assignment? {
          break;
        }
        assert backlog[i..][0] == backlog[i] && backlog[i..][1..] == backlog[i + 1..];
        var _ := LaunchAssignment(backlog[i].connectorId, backlog[i].launch, now);
        i := i + 1;
      }
    }

    /** One tick; the presence heartbeat is sent at most once per interval. */
    method TickOnce(tick: Tick) returns (presenceSent: bool)
      requires Valid()
      modifies this
      ensures Valid()
      ensures (active, ledger, nextHandle)
           == AfterTick(old(active), old(ledger), old(nextHandle), maxSessions, heartbeatSeconds, tick)
      ensures presenceSent <==> old(lastPresence).None? || tick.now - old(lastPresence).value >= heartbeatSeconds
      ensures lastPresence == if presenceSent then Some(tick.now) else old(lastPresence)
      ensures ledger.lost == old(ledger).lost <==>
        NoActiveLeased(Reaped(old(active), tick.exited).Keys, maxSessions, tick.backlog)
      ensures ledger.orphaned == old(ledger).orphaned <==>
        NoneOrphaned(Reaped(old(active), tick.exited).Keys, maxSessions, tick.backlog)
    {
      ReapExited(tick.exited);
      RenewLeases(tick.now, tick.renewalFails);
      assert active.Keys == Reaped(old(active), tick.exited).Keys;
      LeaseAssignments(tick.backlog, tick.now);
      presenceSent := lastPresence.None? || tick.now - lastPresence.value >= heartbeatSeconds;
      if presenceSent {
        lastPresence := Some(tick.now);
      }
    }

    /** The first loop of `shutdown`. */
    method TerminateRunning(exited: set<Handle>) returns (terminated: set<Handle>)
      ensures terminated == Handles(active) - exited
    {
      terminated := {};
      var todo := active.Keys;
      ghost var done := {};
      while todo != {}
        invariant done + todo == active.Keys
        invariant terminated == HandlesOf(active, done) - exited
        decreases todo
      {
        var id :| id in todo;
        HandlesOfOneMore(active, done, id);
        if active[id].process !in exited {
          terminated := terminated + {active[id].process};
        }
        todo, done := todo - {id}, done + {id};
      }
      AllHandles(active, done);
    }

    /** The second loop of `shutdown`. */
    method AwaitRunning(exited: set<Handle>, stubborn: set<Handle>) returns (awaited: set<Handle>, killed: set<Handle>)
      ensures awaited == Handles(active) - exited && killed == awaited * stubborn
    {
      awaited, killed := {}, {};
      var todo := active.Keys;
      ghost var done := {};
      while todo != {}
        invariant done + todo == active.Keys
        invariant awaited == HandlesOf(active, done) - exited && killed == awaited * stubborn
        decreases todo
      {
        var id :| id in todo;
        HandlesOfOneMore(active, done, id);
        if active[id].process !in exited {
          awaited := awaited + {active[id].process};
          if active[id].process in stubborn {
            killed := killed + {active[id].process};
          }
        }
        todo, done := todo - {id}, done + {id};
      }
      AllHandles(active, done);
    }

    /**
     * `shutdown`: a child that is running is terminated; one that is still running at a second
     * look is waited for, and killed if the wait raises.  `exited` have exited before the first
     * look, `later` between the two, and the wait raises for `stubborn`.
     */
    method Shutdown(exited: set<Handle>, later: set<Handle>, stubborn: set<Handle>)
      returns (terminated: set<Handle>, awaited: set<Handle>, killed: set<Handle>)
      requires Valid()
      modifies this`active, this`ledger
      ensures Valid() && active == map[]
      ensures ledger == old(ledger).(reaped := old(ledger).reaped + Handles(old(active)))
      ensures terminated == Handles(old(active)) - exited
      ensures awaited == terminated - later && killed == awaited * stubborn
      ensures Handles(old(active)) <= exited + later + (awaited - stubborn) + killed
    {
      terminated := TerminateRunning(exited);
      awaited, killed := AwaitRunning(exited + later, stubborn);
      ledger := ledger.(reaped := ledger.reaped + Handles(active));
      active := map[];
    }
  }

  /** Of the answers the loop uses, none leases a connector that is active at that moment and launches it. */
  ghost predicate NoActiveLeased(ids: set<ConnectorId>, max: nat, backlog: seq<Lease>)
    decreases |backlog|
  {
    |ids| < max && backlog != [] && backlog[0].Assignment? ==>
      var id := backlog[0].connectorId;
      if backlog[0].launch.Launches? then id !in ids && NoActiveLeased(ids + {id}, max, backlog[1..])
      else NoActiveLeased(ids, max, backlog[1..])
  }

  /** Of the answers the loop uses, none starts a child and then raises. */
  ghost predicate NoneOrphaned(ids: set<ConnectorId>, max: nat, backlog: seq<Lease>)
    decreases |backlog|
  {
    |ids| < max && backlog != [] && backlog[0].Assignment? ==>
      && !backlog[0].launch.StartedThenRaised?
      && NoneOrphaned(if backlog[0].launch.Launches? then ids + {backlog[0].connectorId} else ids, max, backlog[1..])
  }

  /** When every API call of a tick fails, the tick only removes the exited children. */
  lemma OutageOnlyReaps(active: Table, ledger: Ledger, tick: Tick, max: nat, interval: real, next: Handle)
    requires Reaped(active, tick.exited).Keys <= tick.renewalFails
    requires tick.backlog == [] || !tick.backlog[0].Assignment?
    ensures Filled(Renewed(Reaped(active, tick.exited), tick.now, interval, tick.renewalFails),
                   ledger, max, tick.backlog, next, tick.now)
         == (Reaped(active, tick.exited), ledger, next)
  {
    assert Renewed(Reaped(active, tick.exited), tick.now, interval, tick.renewalFails) == Reaped(active, tick.exited);
  }

  /**
   * A healthy child survives every tick: its session can only leave the table by
   * its connector being leased again.
   */
  lemma {:induction false} FillingKeepsSessions(active: Table, ledger: Ledger, max: nat, backlog: seq<Lease>,
                                                next: Handle, now: real, id: ConnectorId)
    requires id in active
    requires forall lease <- backlog :: lease.Assignment? && lease.launch.Launches? ==> lease.connectorId != id
    ensures var after := Filled(active, ledger, max, backlog, next, now).0; id in after && after[id] == active[id]
    decreases |backlog|
  {
    if |active| < max && backlog != [] && backlog[0].Assignment? {
      assert forall lease <- backlog[1..] :: lease in backlog;
      var (a, l, n) := Launched(active, ledger, next, backlog[0].connectorId, backlog[0].launch, now);
      FillingKeepsSessions(a, l, max, backlog[1..], n, now, id);
    }
  }

  /** Connector `id` is among the answers, to be launched. */
  ghost predicate Offered(backlog: seq<Lease>, id: ConnectorId) {
    Assignment(id, Launches) in backlog
  }

  /** Every session after the lease loop was there before, or has just been launched; none is gone. */
  lemma {:induction false} FillingAddsOnlyOffered(active: Table, ledger: Ledger, max: nat, backlog: seq<Lease>,
                                                  next: Handle, now: real)
    ensures var after := Filled(active, ledger, max, backlog, next, now).0;
      && (forall id <- active :: id in after)
      && (forall id <- after ::
            || (id in active && after[id] == active[id])
            || (Offered(backlog, id) && after[id].lastHeartbeat == now && after[id].process >= next))
    decreases |backlog|
  {
    if |active| < max && backlog != [] && backlog[0].Assignment? {
      assert forall lease <- backlog[1..] :: lease in backlog;
      var (a, l, n) := Launched(active, ledger, next, backlog[0].connectorId, backlog[0].launch, now);
      FillingAddsOnlyOffered(a, l, max, backlog[1..], n, now);
    }
  }

  /**
   * The lease loop goes on as long as there is room and an assignment: when it ends, the table
   * is full, or every connector is in it whose launch works and that is offered before an
   * error or an empty answer.
   */
  lemma {:induction false} FillingUsesTheBacklog(active: Table, ledger: Ledger, max: nat, backlog: seq<Lease>,
                                                 next: Handle, now: real, i: nat)
    requires i < |backlog| && backlog[i].Assignment? && backlog[i].launch == Launches
    requires forall j :: 0 <= j < i ==> backlog[j].Assignment?
    ensures var after := Filled(active, ledger, max, backlog, next, now).0;
      |after| >= max || backlog[i].connectorId in after
    decreases |backlog|
  {
    if |active| < max {
      assert backlog[0].Assignment?;
      var (a, l, n) := Launched(active, ledger, next, backlog[0].connectorId, backlog[0].launch, now);
      if i == 0 {
        FillingAddsOnlyOffered(a, l, max, backlog[1..], n, now);
      } else {
        assert forall j :: 0 <= j < i - 1 ==> backlog[1..][j] == backlog[j + 1];
        FillingUsesTheBacklog(a, l, max, backlog[1..], n, now, i - 1);
      }
    }
  }

  /**
   * After a tick every session is one that was there, its child not exited, renewed exactly
   * if its last heartbeat was due and the renewal worked, or one just launched.  So no
   * session whose renewals work ever goes an interval without a heartbeat.
   */
  lemma TickRenewsWhatIsDue(active: Table, ledger: Ledger, next: Handle, max: nat, interval: real, tick: Tick)
    ensures var after := AfterTick(active, ledger, next, max, interval, tick).0;
      && (forall id <- active :: active[id].process !in tick.exited ==> id in after)
      && (forall id <- after ::
            || (&& id in active && active[id].process !in tick.exited && after[id].process == active[id].process
                && after[id].lastHeartbeat == (if tick.now - active[id].lastHeartbeat >= interval
                                                  && id !in tick.renewalFails
                                               then tick.now else active[id].lastHeartbeat))
            || (Offered(tick.backlog, id) && after[id].lastHeartbeat == tick.now && after[id].process >= next))
      && (interval > 0.0 ==> forall id <- after ::
            id in tick.renewalFails || tick.now - after[id].lastHeartbeat < interval)
  {
    FillingAddsOnlyOffered(Renewed(Reaped(active, tick.exited), tick.now, interval, tick.renewalFails),
                           ledger.(reaped := ledger.reaped + Exited(active, tick.exited)), max, tick.backlog, next,
                           tick.now);
  }

  // Whole runs.

  /** What the supervisor holds: the table, the ledger and the next handle. */
  type State = (Table, Ledger, Handle)

  /** Tick `i` of a run leads from one state to the next. */
  ghost predicate Ticks(max: nat, interval: real, ticks: seq<Tick>, states: seq<State>, i: nat) {
    && i < |ticks| && i + 1 < |states|
    && states[i + 1] == AfterTick(states[i].0, states[i].1, states[i].2, max, interval, ticks[i])
  }

  /** The states a run goes through, the first included. */
  ghost predicate IsRun(max: nat, interval: real, ticks: seq<Tick>, states: seq<State>) {
    && |states| == |ticks| + 1 && states[0] == (map[], Ledger({}, {}, {}, {}), 0)
    && forall i: nat :: i < |ticks| ==> Ticks(max, interval, ticks, states, i)
  }

  /** In this state the tick leases no connector that is active at that moment, to launch it. */
  ghost predicate LosesNone(max: nat, state: State, tick: Tick) {
    NoActiveLeased(Reaped(state.0, tick.exited).Keys, max, tick.backlog)
  }

  /** In this state the tick starts no child whose launch then raises. */
  ghost predicate OrphansNone(max: nat, state: State, tick: Tick) {
    NoneOrphaned(Reaped(state.0, tick.exited).Keys, max, tick.backlog)
  }

  ghost predicate LosesNoneIn(max: nat, ticks: seq<Tick>, states: seq<State>) {
    |ticks| <= |states| && forall i :: 0 <= i < |ticks| ==> LosesNone(max, states[i], ticks[i])
  }

  ghost predicate OrphansNoneIn(max: nat, ticks: seq<Tick>, states: seq<State>) {
    |ticks| <= |states| && forall i :: 0 <= i < |ticks| ==> OrphansNone(max, states[i], ticks[i])
  }

  lemma OneMoreTick(max: nat, ticks: seq<Tick>, states: seq<State>, n: nat)
    requires n < |ticks| < |states|
    ensures LosesNoneIn(max, ticks[..n + 1], states)
         <==> LosesNoneIn(max, ticks[..n], states) && LosesNone(max, states[n], ticks[n])
    ensures OrphansNoneIn(max, ticks[..n + 1], states)
         <==> OrphansNoneIn(max, ticks[..n], states) && OrphansNone(max, states[n], ticks[n])
  {
    assert ticks[..n + 1] == ticks[..n] + [ticks[n]];
  }

  /** Reaping and renewing keep the account; the children that exited have been reaped. */
  lemma ReapAndRenewKeepAccount(active: Table, ledger: Ledger, next: Handle, interval: real, tick: Tick)
    requires Accounted(active, ledger, next)
    ensures var rest := Renewed(Reaped(active, tick.exited), tick.now, interval, tick.renewalFails);
      && rest.Keys == Reaped(active, tick.exited).Keys && |rest| <= |active|
      && Accounted(rest, ledger.(reaped := ledger.reaped + Exited(active, tick.exited)), next)
  {
    var reaped := Reaped(active, tick.exited);
    var rest := Renewed(reaped, tick.now, interval, tick.renewalFails);
    assert Handles(reaped) == Handles(active) - tick.exited by {
      assert forall i <- active :: active[i].process !in tick.exited ==> i in reaped;
    }
    RenewKeepsAccount(reaped, ledger.(reaped := ledger.reaped + Exited(active, tick.exited)), next, rest);
    SubsetSize(rest.Keys, active.Keys);
    assert |rest.Keys| == |rest| && |active.Keys| == |active|;
  }

  lemma {:induction false} FilledIsAccounted(active: Table, ledger: Ledger, max: nat, backlog: seq<Lease>,
                                             next: Handle, now: real)
    requires Accounted(active, ledger, next) && |active| <= max
    ensures var (a, l, n) := Filled(active, ledger, max, backlog, next, now); Accounted(a, l, n) && |a| <= max
    decreases |backlog|
  {
    if |active| < max && backlog != [] && backlog[0].Assignment? {
      var id, launch := backlog[0].connectorId, backlog[0].launch;
      var (a, l, n) := Launched(active, ledger, next, id, launch, now);
      LaunchedIsAccounted(active, ledger, next, id, launch, now);
      OneMoreSession(active, id, Session(next, now));
      FilledIsAccounted(a, l, max, backlog[1..], n, now);
    }
  }

  /** What one tick does to the account, the bound, and the children nobody looks after. */
  lemma TickLosesIff(state: State, max: nat, interval: real, tick: Tick, after: State)
    requires Accounted(state.0, state.1, state.2) && |state.0| <= max
    requires after == AfterTick(state.0, state.1, state.2, max, interval, tick)
    ensures Accounted(after.0, after.1, after.2) && |after.0| <= max
    ensures state.1.lost <= after.1.lost && (after.1.lost == state.1.lost <==> LosesNone(max, state, tick))
    ensures state.1.orphaned <= after.1.orphaned
         && (after.1.orphaned == state.1.orphaned <==> OrphansNone(max, state, tick))
  {
    var (active, ledger, next) := state;
    ReapAndRenewKeepAccount(active, ledger, next, interval, tick);
    var rest := Renewed(Reaped(active, tick.exited), tick.now, interval, tick.renewalFails);
    var before := ledger.(reaped := ledger.reaped + Exited(active, tick.exited));
    FilledIsAccounted(rest, before, max, tick.backlog, next, tick.now);
    LosesIff(rest, before, max, tick.backlog, next, tick.now);
  }

  lemma RunTickLosesIff(max: nat, interval: real, ticks: seq<Tick>, states: seq<State>, i: nat)
    requires IsRun(max, interval, ticks, states) && i < |ticks|
    requires Accounted(states[i].0, states[i].1, states[i].2) && |states[i].0| <= max
    ensures Accounted(states[i + 1].0, states[i + 1].1, states[i + 1].2) && |states[i + 1].0| <= max
    ensures states[i + 1].1.lost == {} <==> states[i].1.lost == {} && LosesNone(max, states[i], ticks[i])
    ensures states[i + 1].1.orphaned == {} <==> states[i].1.orphaned == {} && OrphansNone(max, states[i], ticks[i])
  {
    assert Ticks(max, interval, ticks, states, i);
    TickLosesIff(states[i], max, interval, ticks[i], states[i + 1]);
  }

  /** What holds after the first `n` ticks. */
  ghost predicate RunOk(max: nat, ticks: seq<Tick>, states: seq<State>, n: nat)
    requires n <= |ticks| && n < |states|
  {
    && Accounted(states[n].0, states[n].1, states[n].2) && |states[n].0| <= max
    && (states[n].1.lost == {} <==> LosesNoneIn(max, ticks[..n], states))
    && (states[n].1.orphaned == {} <==> OrphansNoneIn(max, ticks[..n], states))
  }

  lemma OneMoreOk(max: nat, interval: real, ticks: seq<Tick>, states: seq<State>, n: nat)
    requires IsRun(max, interval, ticks, states) && n < |ticks| && RunOk(max, ticks, states, n)
    ensures RunOk(max, ticks, states, n + 1)
  {
    RunTickLosesIff(max, interval, ticks, states, n);
    OneMoreTick(max, ticks, states, n);
  }

  lemma {:induction false} RunIsOk(max: nat, interval: real, ticks: seq<Tick>, states: seq<State>, n: nat)
    requires IsRun(max, interval, ticks, states) && n <= |ticks|
    ensures RunOk(max, ticks, states, n)
  {
    if n > 0 {
      RunIsOk(max, interval, ticks, states, n - 1);
      OneMoreOk(max, interval, ticks, states, n - 1);
    }
  }

  /**
   * At every moment of every run: each child started is active, reaped, lost or orphaned, the
   * table keeps its bound, and no child is lost, or orphaned, exactly if no tick so far has
   * leased an active connector, or had a launch raise late.
   */
  lemma RunLosesIff(max: nat, interval: real, ticks: seq<Tick>, states: seq<State>, n: nat)
    requires IsRun(max, interval, ticks, states) && n <= |ticks|
    ensures Accounted(states[n].0, states[n].1, states[n].2) && |states[n].0| <= max
    ensures states[n].1.lost == {} <==> LosesNoneIn(max, ticks[..n], states)
    ensures states[n].1.orphaned == {} <==> OrphansNoneIn(max, ticks[..n], states)
  {
    RunIsOk(max, interval, ticks, states, n);
  }

  /** The shutdown after a run leaves nobody running exactly if no child was lost or orphaned. */
  lemma NobodyLeftIff(max: nat, interval: real, ticks: seq<Tick>, states: seq<State>, ledger: Ledger)
    requires IsRun(max, interval, ticks, states)
    requires var (active, before, _) := states[|ticks|]; ledger == before.(reaped := before.reaped + Handles(active))
    ensures ledger.launched == ledger.reaped + ledger.lost + ledger.orphaned
    ensures ledger.reaped !! ledger.lost !! ledger.orphaned
    ensures ledger.launched == ledger.reaped <==> LosesNoneIn(max, ticks, states) && OrphansNoneIn(max, ticks, states)
  {
    assert ticks[..|ticks|] == ticks;
    RunLosesIff(max, interval, ticks, states, |ticks|);
  }

  lemma RunGrows(max: nat, interval: real, ticks: seq<Tick>, states: seq<State>, i: nat, after: State)
    requires i < |ticks| && IsRun(max, interval, ticks[..i], states)
    requires after == AfterTick(states[i].0, states[i].1, states[i].2, max, interval, ticks[i])
    ensures IsRun(max, interval, ticks[..i + 1], states + [after])
  {
    var more, longer := ticks[..i + 1], states + [after];
    forall j: nat | j < |more| ensures Ticks(max, interval, more, longer, j) {
      assert j < i ==> Ticks(max, interval, ticks[..i], states, j);
    }
  }

  /**
   * `run_forever` over any ticks, then `shutdown`; `states` are those the ticks lead to.
   * The table never outgrows its bound, whoever is still in it is terminated or has exited,
   * and the children started that nobody reaped or shut down are the lost and the orphaned
   * ones: there are none exactly if no tick leased an active connector or orphaned a child.
   */
  method RunForever(maxSessions: nat, heartbeatSeconds: real, ticks: seq<Tick>, exited: set<Handle>,
                    later: set<Handle>, stubborn: set<Handle>)
    returns (terminated: set<Handle>, killed: set<Handle>, ghost states: seq<State>, ghost ledger: Ledger)
    requires 1 <= maxSessions
    ensures IsRun(maxSessions, heartbeatSeconds, ticks, states)
    ensures forall state <- states :: |state.0| <= maxSessions
    ensures terminated == Handles(states[|ticks|].0) - exited && killed == (terminated - later) * stubborn
    ensures ledger.launched == ledger.reaped + ledger.lost + ledger.orphaned
    ensures ledger.reaped !! ledger.lost !! ledger.orphaned
    ensures ledger.launched == ledger.reaped
       <==> LosesNoneIn(maxSessions, ticks, states) && OrphansNoneIn(maxSessions, ticks, states)
  {
    var supervisor := new Supervisor(maxSessions, heartbeatSeconds);
    states := [(supervisor.active, supervisor.ledger, supervisor.nextHandle)];
    for i := 0 to |ticks|
      invariant fresh(supervisor) && supervisor.Valid()
      invariant supervisor.maxSessions == maxSessions && supervisor.heartbeatSeconds == heartbeatSeconds
      invariant IsRun(maxSessions, heartbeatSeconds, ticks[..i], states)
      invariant states[i] == (supervisor.active, supervisor.ledger, supervisor.nextHandle)
      invariant forall state <- states :: |state.0| <= maxSessions
    {
      var _ := supervisor.TickOnce(ticks[i]);
      ghost var after := (supervisor.active, supervisor.ledger, supervisor.nextHandle);
      RunGrows(maxSessions, heartbeatSeconds, ticks, states, i, after);
      states := states + [after];
    }
    assert ticks[..|ticks|] == ticks;
    var awaited;
    terminated, awaited, killed := supervisor.Shutdown(exited, later, stubborn);
    ledger := supervisor.ledger;
    NobodyLeftIff(maxSessions, heartbeatSeconds, ticks, states, ledger);
  }

  // The error code of an exited session.

  function Digit(d: nat): char
    requires d < 10
  {
    "0123456789"[d]
  }

  function Decimal(n: nat): string {
    if n < 10 then [Digit(n)] else Decimal(n / 10) + [Digit(n % 10)]
  }

  function DigitValue(c: char): nat {
    if '0' <= c <= '9' then c as nat - '0' as nat else 0
  }

  /** The number a decimal stands for. */
  function Number(digits: string): nat {
    if digits == [] then 0 else 10 * Number(digits[..|digits| - 1]) + DigitValue(digits[|digits| - 1])
  }

  lemma DigitIs(d: nat)
    requires d < 10
    ensures DigitValue(Digit(d)) == d
  {
  }

  lemma NumberOfMore(digits: string, c: char)
    ensures Number(digits + [c]) == 10 * Number(digits) + DigitValue(c)
  {
    assert (digits + [c])[..|digits|] == digits;
  }

  lemma {:induction false} DecimalIsNumber(n: nat)
    ensures Number(Decimal(n)) == n
    decreases n
  {
    DigitIs(n % 10);
    if n < 10 {
      NumberOfMore([], Digit(n));
      assert [] + [Digit(n)] == [Digit(n)];
    } else {
      DecimalIsNumber(n / 10);
      NumberOfMore(Decimal(n / 10), Digit(n % 10));
    }
  }

  /** `_exit_error_code`. */
  function ExitErrorCode(returncode: int): string {
    var normalized := if returncode < -999999 then -999999 else if returncode > 999999 then 999999 else returncode;
    "SESSION_EXITED:" + if normalized < 0 then "-" + Decimal(-normalized) else Decimal(normalized)
  }

  predicate CodeHead(c: char) { 'A' <= c <= 'Z' || '0' <= c <= '9' }

  predicate CodeTail(c: char) { CodeHead(c) || c == '_' || c == ':' || c == '-' }

  /** The pattern heartbeat_assignment demands: `[A-Z0-9][A-Z0-9_:-]{0,63}`. */
  ghost predicate AcceptedCode(code: string) {
    && 1 <= |code| <= 64 && CodeHead(code[0])
    && forall i :: 1 <= i < |code| ==> CodeTail(code[i])
  }

  lemma {:induction false} DecimalDigits(n: nat, width: nat)
    requires 1 <= width <= 6 && n < [1, 10, 100, 1000, 10000, 100000, 1000000][width]
    ensures 1 <= |Decimal(n)| <= width
    ensures forall i :: 0 <= i < |Decimal(n)| ==> '0' <= Decimal(n)[i] <= '9'
    decreases n
  {
    if n >= 10 {
      DecimalDigits(n / 10, width - 1);
    }
  }

  /** A number with or without a minus sign. */
  function Signed(text: string): int {
    if text != [] && text[0] == '-' then 0 - Number(text[1..]) else Number(text)
  }

  /** Every return code a process can have gives a code the API client accepts. */
  lemma ExitCodeIsAccepted(returncode: int)
    ensures AcceptedCode(ExitErrorCode(returncode))
  {
    var normalized := if returncode < -999999 then -999999 else if returncode > 999999 then 999999 else returncode;
    DecimalDigits(if normalized < 0 then -normalized else normalized, 6);
  }

  lemma SignedIs(n: int)
    ensures Signed(if n < 0 then "-" + Decimal(-n) else Decimal(n)) == n
  {
    var size := if n < 0 then -n else n;
    DecimalIsNumber(size);
    if n < 0 {
      assert ("-" + Decimal(size))[1..] == Decimal(size);
    } else {
      DecimalStartsWithDigit(n);
    }
  }

  lemma {:induction false} DecimalStartsWithDigit(n: nat)
    ensures Decimal(n) != [] && Decimal(n)[0] != '-'
    decreases n
  {
    if n >= 10 {
      DecimalStartsWithDigit(n / 10);
    }
  }

  /** The code tells the return code, up to six digits. */
  lemma ExitCodeTells(returncode: int) returns (text: string)
    ensures ExitErrorCode(returncode) == "SESSION_EXITED:" + text
    ensures Signed(text) == if returncode < -999999 then -999999 else if returncode > 999999 then 999999 else returncode
  {
    var normalized := if returncode < -999999 then -999999 else if returncode > 999999 then 999999 else returncode;
    text := if normalized < 0 then "-" + Decimal(-normalized) else Decimal(normalized);
    SignedIs(normalized);
  }
}
