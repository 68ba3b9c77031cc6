/**
 * The durable command journal of the Direct MT5 connector (journal.py).
 *
 * `Store` is the committed content of the SQLite file: the rows of
 * command_journal, indexed by their primary key, and the heartbeat counter of
 * connector_state.  The functions say what each statement commits; the class
 * `CommandJournal` executes them on its own fields.
 */
module Journal {
  import opened Wrappers

  type CommandId = string
  type Key = string
  type Json = string

  datatype State = Executing | Succeeded | Failed | Uncertain

  datatype Row = Row(commandId: CommandId, key: Key, state: State, result: Option<Json>)

  datatype Store = Store(rows: map<CommandId, Row>, counter: Option<nat>)

  const EmptyStore := Store(map[], None)

  /** The primary key and the UNIQUE constraint on idempotency_key. */
  ghost predicate ValidStore(s: Store) {
    && (forall id <- s.rows :: s.rows[id].commandId == id)
    && (forall i <- s.rows, j <- s.rows :: s.rows[i].key == s.rows[j].key ==> i == j)
  }

  ghost predicate HasKey(s: Store, key: Key) {
    exists id <- s.rows :: s.rows[id].key == key
  }

  function ById(s: Store, id: CommandId): Option<Row> {
    if id in s.rows then Some(s.rows[id]) else None
  }

  ghost function ByKey(s: Store, key: Key): Option<Row> {
    if HasKey(s, key) then
      var id :| id in s.rows && s.rows[id].key == key;
      Some(s.rows[id])
    else
      None
  }

  /** What the two lookups at the start of `begin` find. */
  ghost function Lookup(s: Store, id: CommandId, key: Key): Option<Row> {
    if id in s.rows then Some(s.rows[id]) else ByKey(s, key)
  }

  /** The insert of `begin`, and the row it answers with; a constraint violation rolls back. */
  ghost function Insert(s: Store, id: CommandId, key: Key): (Store, Row) {
    if id in s.rows || HasKey(s, key) then
      (s, match Lookup(s, id, key) case Some(row) => row case None => Row(id, key, Uncertain, None))
    else
      var row := Row(id, key, Executing, None);
      (s.(rows := s.rows[id := row]), row)
  }

  /** `UPDATE ... WHERE command_id = ? AND state = 'EXECUTING'`. */
  function Finish(s: Store, id: CommandId, state: State, result: Option<Json>): Store {
    if id in s.rows && s.rows[id].state == Executing then
      s.(rows := s.rows[id := s.rows[id].(state := state, result := result)])
    else
      s
  }

  /** The update run when the journal is opened. */
  function Recover(s: Store): Store {
    s.(rows := map id | id in s.rows ::
         if s.rows[id].state == Executing then s.rows[id].(state := Uncertain) else s.rows[id])
  }

  function NextCounter(s: Store): nat {
    match s.counter case None => 1 case Some(n) => n + 1
  }

  function Advance(s: Store): Store {
    s.(counter := Some(NextCounter(s)))
  }

  /** Every statement keeps the table constraints. */
  lemma StatementsKeepConstraints(s: Store, id: CommandId, key: Key, state: State, result: Option<Json>)
    requires ValidStore(s)
    ensures ValidStore(Insert(s, id, key).0)
    ensures ValidStore(Finish(s, id, state, result))
    ensures ValidStore(Recover(s))
    ensures ValidStore(Advance(s))
  {
    var t := Insert(s, id, key).0;
    assert t != s ==> forall i <- s.rows :: s.rows[i].key != key;
  }

  /** A key lookup has exactly one possible answer. */
  lemma ByKeyIs(s: Store, id: CommandId)
    requires ValidStore(s) && id in s.rows
    ensures ByKey(s, s.rows[id].key) == Some(s.rows[id])
  {
    assert HasKey(s, s.rows[id].key);
  }

  /**
   * `begin` never answers with the fallback row written for a vanished
   * conflict: what it returns is in the journal, under the command id or the
   * key asked for, and it is a fresh EXECUTING row exactly when neither was
   * there before.
   */
  lemma InsertAnswersFromJournal(s: Store, id: CommandId, key: Key)
    requires ValidStore(s)
    ensures var (t, row) := Insert(s, id, key);
      && row.commandId in t.rows && t.rows[row.commandId] == row
      && (row.commandId == id || row.key == key)
      && (t != s <==> id !in s.rows && !HasKey(s, key))
      && (t != s ==> row == Row(id, key, Executing, None))
  {
    if id !in s.rows && HasKey(s, key) {
      var other :| other in s.rows && s.rows[other].key == key;
      ByKeyIs(s, other);
    }
    var (t, row) := Insert(s, id, key);
    if id !in s.rows && !HasKey(s, key) {
      assert id in t.rows;
    }
  }

  /** The journal object: each method commits the statement it stands for. */
  class CommandJournal {
    var rows: map<CommandId, Row>
    var counter: Option<nat>

    function Contents(): Store
      reads this
    {
      Store(rows, counter)
    }

    ghost predicate Valid()
      reads this
    {
      ValidStore(Contents())
    }

    /** Opening the file: `disk` is what an earlier process left committed. */
    constructor (disk: Store)
      requires ValidStore(disk)
      ensures Valid() && Contents() == Recover(disk)
      ensures rows.Keys == disk.rows.Keys && counter == disk.counter
      ensures forall id <- rows ::
        rows[id] == if disk.rows[id].state == Executing then disk.rows[id].(state := Uncertain) else disk.rows[id]
    {
      rows := map id | id in disk.rows ::
        if disk.rows[id].state == Executing then disk.rows[id].(state := Uncertain) else disk.rows[id];
      counter := disk.counter;
      new;
      StatementsKeepConstraints(disk, "", "", Uncertain, None);
    }

    method NextHeartbeatSequence() returns (sequence: nat)
      requires Valid()
      modifies this`counter
      ensures Valid() && Contents() == Advance(old(Contents()))
      ensures counter == Some(sequence) && rows == old(rows)
      ensures sequence == if old(counter).None? then 1 else old(counter).value + 1
    {
      counter := match counter case None => Some(1) case Some(n) => Some(n + 1);
      sequence := counter.value;
    }

    method GetByIdempotencyKey(key: Key) returns (entry: Option<Row>)
      requires Valid()
      ensures entry == ByKey(Contents(), key)
    {
      if id :| id in rows && rows[id].key == key {
        ByKeyIs(Contents(), id);
        entry := Some(rows[id]);
      } else {
        entry := None;
      }
    }

    method FindExisting(id: CommandId, key: Key) returns (entry: Option<Row>)
      requires Valid()
      ensures entry == Lookup(Contents(), id, key)
      ensures id in rows ==> entry == Some(rows[id])
      ensures id !in rows && entry.Some? ==> entry.value in rows.Values && entry.value.key == key
      ensures id !in rows && entry.None? ==> forall i <- rows :: rows[i].key != key
    {
      if id in rows {
        entry := Some(rows[id]);
      } else {
        entry := GetByIdempotencyKey(key);
      }
    }

    method InsertExecuting(id: CommandId, key: Key) returns (entry: Row)
      requires Valid()
      modifies this`rows
      ensures Valid() && (Contents(), entry) == Insert(old(Contents()), id, key)
    {
      StatementsKeepConstraints(Contents(), id, key, Executing, None);
      var existing := FindExisting(id, key);
      if existing.Some? {
        entry := existing.value;
      } else {
        entry := Row(id, key, Executing, None);
        rows := rows[id := entry];
      }
    }

    /** `complete`, `fail` and `mark_uncertain`; no answer stands for the KeyError. */
    method FinishCommand(id: CommandId, state: State, result: Option<Json>) returns (entry: Option<Row>)
      requires Valid()
      modifies this`rows
      ensures Valid() && Contents() == Finish(old(Contents()), id, state, result)
      ensures entry == ById(Contents(), id)
    {
      StatementsKeepConstraints(Contents(), id, "", state, result);
      if id in rows && rows[id].state == Executing {
        rows := rows[id := rows[id].(state := state, result := result)];
      }
      entry := if id in rows then Some(rows[id]) else None;
    }
  }
}
