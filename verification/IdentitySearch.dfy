/**
 * `_find_connector_identity_payload` (client.py): a breadth-first search through
 * the dictionaries of a pairing response for one that carries the connector
 * identity, at most six dictionaries deep.
 *
 * Dictionaries are objects on a heap, known by their `id`; they may be shared or
 * refer to each other in cycles.
 */
module IdentitySearch {
  import opened Wrappers

  type Node = nat

  datatype Value = Text(text: string) | Dict(node: Node) | Other

  datatype Field = Field(key: string, value: Value)

  type Heap = map<Node, seq<Field>>

  datatype ConnectorIdentity = ConnectorIdentity(token: string, connectorId: string, brokerConnectionId: string)

  const MaxDepth: nat := 6

  ghost predicate Closed(heap: Heap) {
    forall n <- heap, i :: 0 <= i < |heap[n]| && heap[n][i].value.Dict? ==> heap[n][i].value.node in heap
  }

  /** `payload.get(name)` when it is a non-empty string. */
  function NonEmptyText(fields: seq<Field>, name: string): Option<string> {
    if fields == [] then None
    else if fields[0].key == name then
      if fields[0].value.Text? && fields[0].value.text != "" then Some(fields[0].value.text) else None
    else NonEmptyText(fields[1..], name)
  }

  /** The first of the two names that holds a non-empty string. */
  function FirstAlias(fields: seq<Field>, name: string, other: string): Option<string> {
    if NonEmptyText(fields, name).Some? then NonEmptyText(fields, name) else NonEmptyText(fields, other)
  }

  /** All three aliases of one dictionary. */
  function Carried(fields: seq<Field>): Option<ConnectorIdentity> {
    var token := FirstAlias(fields, "connectorToken", "connector_token");
    var connector := FirstAlias(fields, "connectorId", "connector_id");
    var broker := FirstAlias(fields, "brokerConnectionId", "broker_connection_id");
    if token.Some? && connector.Some? && broker.Some? then
      Some(ConnectorIdentity(token.value, connector.value, broker.value))
    else
      None
  }

  /** Under `name` the dictionary holds the non-empty string `v`; the keys of a dictionary are distinct. */
  ghost predicate Holds(fields: seq<Field>, name: string, v: string) {
    && v != ""
    && exists k :: 0 <= k < |fields| && fields[k] == Field(name, Text(v))
         && forall j :: 0 <= j < k ==> fields[j].key != name
  }

  /** The value of an alias: that of `name`, or of `other` when `name` holds no non-empty string. */
  ghost predicate HoldsAlias(fields: seq<Field>, name: string, other: string, v: string) {
    Holds(fields, name, v) || (Holds(fields, other, v) && forall w :: !Holds(fields, name, w))
  }

  /** Which entries of a dictionary make the identity. */
  ghost predicate IsIdentity(fields: seq<Field>, identity: ConnectorIdentity) {
    && HoldsAlias(fields, "connectorToken", "connector_token", identity.token)
    && HoldsAlias(fields, "connectorId", "connector_id", identity.connectorId)
    && HoldsAlias(fields, "brokerConnectionId", "broker_connection_id", identity.brokerConnectionId)
  }

  lemma {:induction false} NonEmptyTextIs(fields: seq<Field>, name: string, v: string)
    ensures NonEmptyText(fields, name) == Some(v) <==> Holds(fields, name, v)
  {
    if fields != [] && fields[0].key != name {
      NonEmptyTextIs(fields[1..], name, v);
      if Holds(fields[1..], name, v) {
        var k :| 0 <= k < |fields| - 1 && fields[1..][k] == Field(name, Text(v))
          && forall j :: 0 <= j < k ==> fields[1..][j].key != name;
        assert fields[k + 1] == Field(name, Text(v));
        assert forall j :: 0 < j < k + 1 ==> fields[j] == fields[1..][j - 1];
      }
      if Holds(fields, name, v) {
        var k :| 0 <= k < |fields| && fields[k] == Field(name, Text(v))
          && forall j :: 0 <= j < k ==> fields[j].key != name;
        assert fields[1..][k - 1] == Field(name, Text(v));
      }
    }
  }

  lemma FirstAliasIs(fields: seq<Field>, name: string, other: string, v: string)
    ensures FirstAlias(fields, name, other) == Some(v) <==> HoldsAlias(fields, name, other, v)
  {
    NonEmptyTextIs(fields, name, v);
    NonEmptyTextIs(fields, other, v);
    forall w ensures NonEmptyText(fields, name) == Some(w) <==> Holds(fields, name, w) {
      NonEmptyTextIs(fields, name, w);
    }
    assert NonEmptyText(fields, name).Some? ==> Holds(fields, name, NonEmptyText(fields, name).value);
  }

  /** Exactly which identity a dictionary carries. */
  lemma CarriedIsIdentity(fields: seq<Field>, identity: ConnectorIdentity)
    ensures Carried(fields) == Some(identity) <==> IsIdentity(fields, identity)
  {
    FirstAliasIs(fields, "connectorToken", "connector_token", identity.token);
    FirstAliasIs(fields, "connectorId", "connector_id", identity.connectorId);
    FirstAliasIs(fields, "brokerConnectionId", "broker_connection_id", identity.brokerConnectionId);
  }

  /** The nested dictionaries, in the order of `payload.values()`. */
  function Nested(fields: seq<Field>): (nodes: seq<Node>)
    ensures forall n :: n in nodes <==> exists i :: 0 <= i < |fields| && fields[i].value == Dict(n)
  {
    if fields == [] then []
    else (if fields[0].value.Dict? then [fields[0].value.node] else []) + Nested(fields[1..])
  }

  /** The dictionaries reached by exactly `d` nested steps. */
  ghost function Level(heap: Heap, root: Node, d: nat): set<Node> {
    if d == 0 then {root} else set n | n in heap && exists p :: p in Level(heap, root, d - 1) && Child(heap, p, n)
  }

  ghost predicate Child(heap: Heap, p: Node, n: Node) {
    p in heap && n in Nested(heap[p])
  }

  ghost predicate Carries(heap: Heap, n: Node) {
    n in heap && Carried(heap[n]).Some?
  }

  // The state of the search.

  datatype Search = Search(queue: seq<(Node, nat)>, seen: set<Node>)

  ghost predicate Queued(queue: seq<(Node, nat)>, n: Node) {
    exists i :: 0 <= i < |queue| && queue[i].0 == n
  }

  /** The queue holds nodes of this level and then of the next, none beyond the depth cut. */
  ghost predicate QueueOk(heap: Heap, root: Node, queue: seq<(Node, nat)>, depth: nat) {
    && (forall i :: 0 <= i < |queue| ==>
          depth <= queue[i].1 <= depth + 1 && queue[i].1 <= MaxDepth && queue[i].0 in Level(heap, root, queue[i].1))
    && (forall i, j :: 0 <= i < j < |queue| ==> queue[i].1 <= queue[j].1)
  }

  /** All lower levels have been seen; this level is seen or queued. */
  ghost predicate LevelsOk(heap: Heap, root: Node, queue: seq<(Node, nat)>, seen: set<Node>, depth: nat) {
    && (forall m: nat :: m < depth ==> Level(heap, root, m) <= seen)
    && (forall n <- Level(heap, root, depth) :: n in seen || (n, depth) in queue)
  }

  /** The children of everything expanded are seen or queued. */
  ghost predicate ExpandedOk(heap: Heap, queue: seq<(Node, nat)>, seen: set<Node>, expanded: set<Node>) {
    forall p <- expanded, n <- heap :: Child(heap, p, n) ==> n in seen || Queued(queue, n)
  }

  /** The search works on level `depth`. */
  ghost predicate Searching(heap: Heap, root: Node, s: Search, depth: nat, expanded: set<Node>) {
    && depth <= MaxDepth && s.seen <= heap.Keys
    && QueueOk(heap, root, s.queue, depth)
    && LevelsOk(heap, root, s.queue, s.seen, depth)
    && ExpandedOk(heap, s.queue, s.seen, expanded)
    && expanded <= s.seen && (depth < MaxDepth ==> expanded == s.seen)
    && (forall n <- s.seen :: !Carries(heap, n))
  }

  lemma LevelStep(heap: Heap, root: Node, d: nat, n: Node)
    ensures n in Level(heap, root, d + 1) <==> n in heap && exists p :: p in Level(heap, root, d) && Child(heap, p, n)
  {
  }

  /** Every node of the next level is the child of an expanded node, so it is seen or queued. */
  lemma NextLevelNode(heap: Heap, root: Node, queue: seq<(Node, nat)>, seen: set<Node>, depth: nat,
                      expanded: set<Node>, n: Node)
    requires ExpandedOk(heap, queue, seen, expanded) && Level(heap, root, depth) <= expanded
    requires forall i :: 0 <= i < |queue| ==> queue[i].1 == depth + 1
    requires n in Level(heap, root, depth + 1)
    ensures n in seen || (n, depth + 1) in queue
  {
    LevelStep(heap, root, depth, n);
    var p :| p in Level(heap, root, depth) && Child(heap, p, n);
    if n !in seen {
      assert p in expanded && n in heap;
      var i :| 0 <= i < |queue| && queue[i].0 == n;
      assert queue[i] == (n, depth + 1);
    }
  }

  /** When the queue's head belongs to the next level, this level is exhausted. */
  lemma NextLevel(heap: Heap, root: Node, s: Search, depth: nat, expanded: set<Node>)
    requires Searching(heap, root, s, depth, expanded)
    requires s.queue != [] && s.queue[0].1 == depth + 1
    ensures Searching(heap, root, s, depth + 1, expanded)
  {
    forall i | 0 <= i < |s.queue| ensures s.queue[i].1 == depth + 1 <= MaxDepth {
      assert s.queue[0].1 <= s.queue[i].1;
    }
    LevelExhausted(heap, root, s.queue, s.seen, depth);
    forall n <- Level(heap, root, depth + 1) ensures n in s.seen || (n, depth + 1) in s.queue {
      NextLevelNode(heap, root, s.queue, s.seen, depth, expanded, n);
    }
  }

  lemma LevelExhausted(heap: Heap, root: Node, queue: seq<(Node, nat)>, seen: set<Node>, depth: nat)
    requires LevelsOk(heap, root, queue, seen, depth)
    requires forall i :: 0 <= i < |queue| ==> queue[i].1 == depth + 1
    ensures forall m: nat :: m <= depth ==> Level(heap, root, m) <= seen
  {
    forall n <- Level(heap, root, depth) ensures n in seen {
      assert (n, depth) !in queue;
    }
  }

  lemma LevelsAreOnTheHeap(heap: Heap, root: Node, d: nat)
    requires root in heap
    ensures Level(heap, root, d) <= heap.Keys
  {
  }

  /** A node popped again changes nothing: its children went into the queue the first time. */
  lemma PopSeen(heap: Heap, root: Node, s: Search, depth: nat, expanded: set<Node>)
    requires Searching(heap, root, s, depth, expanded)
    requires s.queue != [] && s.queue[0].1 == depth && s.queue[0].0 in s.seen
    ensures Searching(heap, root, s.(queue := s.queue[1..]), depth, expanded)
  {
    StillQueued(s.queue);
    assert forall i :: 0 <= i < |s.queue[1..]| ==> s.queue[1..][i] == s.queue[i + 1];
  }

  lemma StillQueued(queue: seq<(Node, nat)>)
    requires queue != []
    ensures forall n :: Queued(queue, n) && n != queue[0].0 ==> Queued(queue[1..], n)
    ensures forall x :: x in queue && x != queue[0] ==> x in queue[1..]
  {
    forall n | Queued(queue, n) && n != queue[0].0 ensures Queued(queue[1..], n) {
      var i :| 0 <= i < |queue| && queue[i].0 == n;
      assert queue[1..][i - 1].0 == n;
    }
  }

  function WithDepth(nodes: seq<Node>, d: nat): (r: seq<(Node, nat)>)
    ensures |r| == |nodes| && forall i :: 0 <= i < |r| ==> r[i] == (nodes[i], d)
  {
    if nodes == [] then [] else [(nodes[0], d)] + WithDepth(nodes[1..], d)
  }

  lemma ChildIsOnNextLevel(heap: Heap, root: Node, d: nat, p: Node, c: Node)
    requires Closed(heap) && p in Level(heap, root, d) && p in heap && c in Nested(heap[p])
    ensures c in Level(heap, root, d + 1)
  {
    var k :| 0 <= k < |heap[p]| && heap[p][k].value == Dict(c);
    assert Child(heap, p, c);
    LevelStep(heap, root, d, c);
  }

  /** What is appended when `n`, of level `depth`, is expanded. */
  function Appended(heap: Heap, n: Node, depth: nat): seq<(Node, nat)>
    requires n in heap
  {
    if depth < MaxDepth then WithDepth(Nested(heap[n]), depth + 1) else []
  }

  lemma AppendedOk(heap: Heap, root: Node, n: Node, depth: nat, i: nat)
    requires Closed(heap) && n in heap && n in Level(heap, root, depth) && depth <= MaxDepth
    requires i < |Appended(heap, n, depth)|
    ensures var item := Appended(heap, n, depth)[i];
      item.1 == depth + 1 <= MaxDepth && item.0 in Level(heap, root, depth + 1)
  {
    ChildIsOnNextLevel(heap, root, depth, n, Nested(heap[n])[i]);
  }

  lemma QueueAppend(heap: Heap, root: Node, queue: seq<(Node, nat)>, more: seq<(Node, nat)>, depth: nat)
    requires queue != [] && QueueOk(heap, root, queue, depth)
    requires forall i :: 0 <= i < |more| ==>
      more[i].1 == depth + 1 <= MaxDepth && more[i].0 in Level(heap, root, depth + 1)
    ensures QueueOk(heap, root, queue[1..] + more, depth)
  {
    var after := queue[1..] + more;
    forall i | 0 <= i < |after|
      ensures depth <= after[i].1 <= depth + 1 && after[i].1 <= MaxDepth && after[i].0 in Level(heap, root, after[i].1)
      ensures i < |queue| - 1 ==> after[i] == queue[i + 1]
      ensures i >= |queue| - 1 ==> after[i].1 == depth + 1
    {
      if i < |queue| - 1 {
        assert after[i] == queue[i + 1];
      } else {
        assert after[i] == more[i - (|queue| - 1)];
      }
    }
  }

  lemma PopNewQueue(heap: Heap, root: Node, queue: seq<(Node, nat)>, depth: nat)
    requires Closed(heap) && queue != [] && QueueOk(heap, root, queue, depth) && depth <= MaxDepth
    requires queue[0].1 == depth && queue[0].0 in heap
    ensures QueueOk(heap, root, queue[1..] + Appended(heap, queue[0].0, depth), depth)
  {
    var more := Appended(heap, queue[0].0, depth);
    forall i | 0 <= i < |more|
      ensures more[i].1 == depth + 1 <= MaxDepth && more[i].0 in Level(heap, root, depth + 1)
    {
      AppendedOk(heap, root, queue[0].0, depth, i);
    }
    QueueAppend(heap, root, queue, more, depth);
  }

  lemma PopNewExpanded(heap: Heap, queue: seq<(Node, nat)>, seen: set<Node>, depth: nat, expanded: set<Node>)
    requires queue != [] && queue[0].0 in heap && ExpandedOk(heap, queue, seen, expanded)
    ensures ExpandedOk(heap, queue[1..] + Appended(heap, queue[0].0, depth), seen + {queue[0].0},
                       if depth < MaxDepth then expanded + {queue[0].0} else expanded)
  {
    var n := queue[0].0;
    var rest, more := queue[1..], Appended(heap, n, depth);
    StillQueued(queue);
    forall c | Queued(rest, c) ensures Queued(rest + more, c) {
      var i :| 0 <= i < |rest| && rest[i].0 == c;
      assert (rest + more)[i].0 == c;
    }
    forall c | depth < MaxDepth && c in Nested(heap[n]) ensures Queued(rest + more, c) {
      var i :| 0 <= i < |Nested(heap[n])| && Nested(heap[n])[i] == c;
      assert (rest + more)[|rest| + i].0 == c;
    }
  }

  /** A new node that does not carry the identity is expanded, unless it lies at the depth cut. */
  lemma PopNew(heap: Heap, root: Node, s: Search, depth: nat, expanded: set<Node>)
    requires Closed(heap) && Searching(heap, root, s, depth, expanded)
    requires s.queue != [] && s.queue[0].1 == depth
    requires var n := s.queue[0].0; n in heap && !Carries(heap, n)
    ensures var n := s.queue[0].0;
      Searching(heap, root, Search(s.queue[1..] + Appended(heap, n, depth), s.seen + {n}), depth,
                if depth < MaxDepth then expanded + {n} else expanded)
  {
    PopNewQueue(heap, root, s.queue, depth);
    PopNewExpanded(heap, s.queue, s.seen, depth, expanded);
    StillQueued(s.queue);
  }

  lemma ExhaustedStep(heap: Heap, root: Node, seen: set<Node>, m: nat)
    requires ExpandedOk(heap, [], seen, seen) && Level(heap, root, m) <= seen
    ensures Level(heap, root, m + 1) <= seen
  {
    forall n <- Level(heap, root, m + 1) ensures n in seen {
      LevelStep(heap, root, m, n);
      var p :| p in Level(heap, root, m) && Child(heap, p, n);
      assert p in seen;
    }
  }

  /** With an empty queue everything within the depth cut has been seen. */
  lemma {:induction false} Exhausted(heap: Heap, root: Node, s: Search, depth: nat, expanded: set<Node>, m: nat)
    requires Searching(heap, root, s, depth, expanded) && s.queue == [] && m <= MaxDepth
    ensures Level(heap, root, m) <= s.seen
    decreases m
  {
    if m > depth {
      Exhausted(heap, root, s, depth, expanded, m - 1);
      ExhaustedStep(heap, root, s.seen, m - 1);
    }
  }

  // The order of the search.

  /** The nested dictionaries of several, one after the other. */
  function Children(heap: Heap, nodes: seq<Node>): seq<Node> {
    if nodes == [] then []
    else Children(heap, nodes[..|nodes| - 1])
         + if nodes[|nodes| - 1] in heap then Nested(heap[nodes[|nodes| - 1]]) else []
  }

  /** The dictionaries `d` steps down in breadth-first order, each as often as it is nested there. */
  ghost function Row(heap: Heap, root: Node, d: nat): seq<Node> {
    if d == 0 then [root] else Children(heap, Row(heap, root, d - 1))
  }

  ghost function Members(nodes: seq<Node>): set<Node> { set n <- nodes }

  /** The nodes not seen before, each at its first place. */
  ghost function Fresh(nodes: seq<Node>, seen: set<Node>): seq<Node> {
    if nodes == [] then []
    else
      var front, last := nodes[..|nodes| - 1], nodes[|nodes| - 1];
      Fresh(front, seen) + if last in seen || last in front then [] else [last]
  }

  /** The entries of a dictionary are read in order. */
  lemma {:induction false} NestedInOrder(fields: seq<Field>, f: Field)
    ensures Nested(fields + [f]) == Nested(fields) + if f.value.Dict? then [f.value.node] else []
    ensures Nested([]) == []
  {
    if fields == [] {
      assert fields + [f] == [f] && [f][1..] == [];
    } else {
      NestedInOrder(fields[1..], f);
      assert (fields + [f])[1..] == fields[1..] + [f];
    }
  }

  lemma {:induction false} FreshAre(nodes: seq<Node>, seen: set<Node>)
    ensures forall n :: n in Fresh(nodes, seen) <==> n in nodes && n !in seen
  {
    if nodes != [] {
      FreshAre(nodes[..|nodes| - 1], seen);
      assert nodes == nodes[..|nodes| - 1] + [nodes[|nodes| - 1]];
    }
  }

  lemma {:induction false} FreshAppend(a: seq<Node>, b: seq<Node>, seen: set<Node>)
    ensures Fresh(a + b, seen) == Fresh(a, seen) + Fresh(b, seen + Members(a))
    decreases |b|
  {
    if b == [] {
      assert a + b == a;
    } else {
      var front, last := b[..|b| - 1], b[|b| - 1];
      FreshAppend(a, front, seen);
      assert (a + b)[..|a + b| - 1] == a + front;
      assert last in a + front <==> last in a || last in front;
    }
  }

  lemma {:induction false} ChildrenAre(heap: Heap, nodes: seq<Node>, c: Node)
    ensures c in Children(heap, nodes) <==> exists p <- nodes :: Child(heap, p, c)
  {
    if nodes != [] {
      var front, last := nodes[..|nodes| - 1], nodes[|nodes| - 1];
      ChildrenAre(heap, front, c);
      assert nodes == front + [last];
      assert c in Children(heap, nodes) <==> c in Children(heap, front) || Child(heap, last, c);
      if p :| p in nodes && Child(heap, p, c) {
        assert p == last || p in front;
      }
    }
  }

  lemma NothingFresh(nodes: seq<Node>, seen: set<Node>)
    requires forall n <- nodes :: n in seen
    ensures Fresh(nodes, seen) == []
  {
    FreshAre(nodes, seen);
    assert forall n :: n !in Fresh(nodes, seen);
  }

  /** The next row may be taken from the fresh nodes of this one: the others bring nothing new. */
  lemma {:induction false} FreshChildren(heap: Heap, nodes: seq<Node>, seen: set<Node>, low: set<Node>)
    requires forall p <- seen, c :: Child(heap, p, c) ==> c in low
    ensures Fresh(Children(heap, nodes), low) == Fresh(Children(heap, Fresh(nodes, seen)), low)
  {
    if nodes != [] {
      var front, last := nodes[..|nodes| - 1], nodes[|nodes| - 1];
      var here := if last in heap then Nested(heap[last]) else [];
      FreshChildren(heap, front, seen, low);
      FreshAppend(Children(heap, front), here, low);
      FreshAre(front, seen);
      var kept := Children(heap, Fresh(front, seen));
      FreshAppend(kept, here, low);
      SameChildren(heap, front, seen, low);
      if last in seen || last in front {
        forall c <- here ensures c in low + Members(Children(heap, front)) {
          assert Child(heap, last, c);
          ChildrenAre(heap, front, c);
        }
        NothingFresh(here, low + Members(Children(heap, front)));
        assert Fresh(front, seen) + [] == Fresh(front, seen);
      } else {
        assert (Fresh(front, seen) + [last])[..|Fresh(front, seen)|] == Fresh(front, seen);
      }
      assert low + Members(Children(heap, front)) == low + Members(kept);
    }
  }

  lemma SameChildren(heap: Heap, nodes: seq<Node>, seen: set<Node>, low: set<Node>)
    requires forall p <- seen, c :: Child(heap, p, c) ==> c in low
    ensures low + Members(Children(heap, nodes)) == low + Members(Children(heap, Fresh(nodes, seen)))
  {
    FreshAre(nodes, seen);
    forall c ensures c in low || (c in Children(heap, nodes) <==> c in Children(heap, Fresh(nodes, seen))) {
      ChildrenAre(heap, nodes, c);
      ChildrenAre(heap, Fresh(nodes, seen), c);
    }
  }

  /**
   * The search in order: `here` is queued of this level, `next` of the next one; `start` had
   * been seen when this level began, and `done` has been expanded since, in this order.
   */
  datatype Order = Order(here: seq<Node>, next: seq<Node>, start: set<Node>, done: seq<Node>)

  ghost predicate InOrder(heap: Heap, root: Node, s: Search, depth: nat, o: Order) {
    && s.queue == WithDepth(o.here, depth) + WithDepth(o.next, depth + 1)
    && s.seen == o.start + Members(o.done)
    && RowLeft(heap, root, depth, s.seen, o)
    && o.next == (if depth < MaxDepth then Children(heap, o.done) else [])
    && (forall p <- o.start :: OnLevelBefore(heap, root, depth, p))
  }

  /** The fresh nodes of the row are those done and then the fresh ones of those still queued. */
  ghost predicate RowLeft(heap: Heap, root: Node, depth: nat, seen: set<Node>, o: Order) {
    Fresh(Row(heap, root, depth), o.start) == o.done + Fresh(o.here, seen)
  }

  ghost predicate OnLevelBefore(heap: Heap, root: Node, depth: nat, p: Node) {
    exists m: nat :: m < depth && p in Level(heap, root, m)
  }

  lemma QueueHead(o: Order, queue: seq<(Node, nat)>, depth: nat)
    requires queue == WithDepth(o.here, depth) + WithDepth(o.next, depth + 1) && queue != []
    ensures o.here != [] ==>
      queue[0] == (o.here[0], depth) && queue[1..] == WithDepth(o.here[1..], depth) + WithDepth(o.next, depth + 1)
    ensures o.here == [] ==> o.next != [] && queue[0] == (o.next[0], depth + 1)
  {
  }

  /** The next level begins: its row is what the expanded nodes have queued, as far as it is fresh. */
  lemma NextLevelInOrder(heap: Heap, root: Node, s: Search, depth: nat, expanded: set<Node>, o: Order)
    requires Closed(heap) && root in heap
    requires Searching(heap, root, s, depth, expanded) && InOrder(heap, root, s, depth, o)
    requires s.queue != [] && s.queue[0].1 == depth + 1
    ensures InOrder(heap, root, s, depth + 1, Order(o.next, [], s.seen, []))
  {
    QueueHead(o, s.queue, depth);
    LevelIsOver(heap, root, s, depth, expanded);
    OrderGoesOn(heap, root, s, depth, o);
  }

  lemma OrderGoesOn(heap: Heap, root: Node, s: Search, depth: nat, o: Order)
    requires Closed(heap) && root in heap && InOrder(heap, root, s, depth, o)
    requires depth < MaxDepth && o.here == []
    requires forall m: nat :: m <= depth ==> Level(heap, root, m) <= s.seen
    ensures InOrder(heap, root, s, depth + 1, Order(o.next, [], s.seen, []))
  {
    StartChildrenSeen(heap, root, s.seen, depth, o.start);
    DoneAreOnLevels(heap, root, s, depth, o);
    NextRow(heap, root, depth, s.seen, o);
    NextQueue(s.queue, depth, o);
    BeginsInOrder(heap, root, s, depth + 1, o.next);
  }

  lemma BeginsInOrder(heap: Heap, root: Node, s: Search, depth: nat, here: seq<Node>)
    requires s.queue == WithDepth(here, depth) + WithDepth([], depth + 1)
    requires RowLeft(heap, root, depth, s.seen, Order(here, [], s.seen, []))
    requires forall p <- s.seen :: OnLevelBefore(heap, root, depth, p)
    ensures InOrder(heap, root, s, depth, Order(here, [], s.seen, []))
  {
    var none: seq<Node> := [];
    assert Members(none) == {} && s.seen + {} == s.seen;
  }

  lemma LevelIsOver(heap: Heap, root: Node, s: Search, depth: nat, expanded: set<Node>)
    requires Searching(heap, root, s, depth, expanded) && s.queue != [] && s.queue[0].1 == depth + 1
    ensures depth < MaxDepth && forall m: nat :: m <= depth ==> Level(heap, root, m) <= s.seen
  {
    forall i | 0 <= i < |s.queue| ensures s.queue[i].1 == depth + 1 {
      assert s.queue[0].1 <= s.queue[i].1;
    }
    LevelExhausted(heap, root, s.queue, s.seen, depth);
  }

  lemma StartChildrenSeen(heap: Heap, root: Node, seen: set<Node>, depth: nat, start: set<Node>)
    requires Closed(heap) && forall p <- start :: OnLevelBefore(heap, root, depth, p)
    requires forall m: nat :: m <= depth ==> Level(heap, root, m) <= seen
    ensures forall p <- start, c :: Child(heap, p, c) ==> c in seen
  {
    forall p <- start, c | Child(heap, p, c) ensures c in seen {
      StartChildSeen(heap, root, seen, depth, p, c);
    }
  }

  lemma NextRow(heap: Heap, root: Node, depth: nat, seen: set<Node>, o: Order)
    requires RowLeft(heap, root, depth, seen, o) && o.here == [] && o.next == Children(heap, o.done)
    requires forall p <- o.start, c :: Child(heap, p, c) ==> c in seen
    ensures RowLeft(heap, root, depth + 1, seen, Order(o.next, [], seen, []))
  {
    FreshChildren(heap, Row(heap, root, depth), o.start, seen);
    assert Fresh(o.here, seen) == [] && o.done + [] == o.done;
    assert Row(heap, root, depth + 1) == Children(heap, Row(heap, root, depth));
  }

  lemma NextQueue(queue: seq<(Node, nat)>, depth: nat, o: Order)
    requires queue == WithDepth(o.here, depth) + WithDepth(o.next, depth + 1) && o.here == []
    ensures queue == WithDepth(o.next, depth + 1) + WithDepth([], depth + 2)
  {
  }

  lemma StartChildSeen(heap: Heap, root: Node, seen: set<Node>, depth: nat, p: Node, c: Node)
    requires Closed(heap) && Child(heap, p, c) && OnLevelBefore(heap, root, depth, p)
    requires forall m: nat :: m <= depth ==> Level(heap, root, m) <= seen
    ensures c in seen
  {
    var m: nat :| m < depth && p in Level(heap, root, m);
    ChildIsOnNextLevel(heap, root, m, p, c);
  }

  lemma ParentInRow(heap: Heap, root: Node, d: nat, n: Node) returns (p: Node)
    requires d > 0 && n in Row(heap, root, d)
    ensures p in Row(heap, root, d - 1) && Child(heap, p, n)
  {
    var row := Row(heap, root, d - 1);
    ChildrenAre(heap, row, n);
    p :| p in row && Child(heap, p, n);
  }

  lemma {:induction false} RowIsLevel(heap: Heap, root: Node, d: nat, n: Node)
    requires Closed(heap) && root in heap && n in Row(heap, root, d)
    ensures n in Level(heap, root, d)
  {
    if d > 0 {
      var p := ParentInRow(heap, root, d, n);
      RowIsLevel(heap, root, d - 1, p);
      ChildIsOnNextLevel(heap, root, d - 1, p, n);
    }
  }

  lemma SeenIsOnLevel(heap: Heap, root: Node, s: Search, depth: nat, o: Order, p: Node)
    requires Closed(heap) && root in heap && InOrder(heap, root, s, depth, o) && p in s.seen
    ensures OnLevelBefore(heap, root, depth + 1, p)
  {
    if p in o.start {
      var m: nat :| m < depth && p in Level(heap, root, m);
      assert m < depth + 1;
    } else {
      assert p in o.done + Fresh(o.here, s.seen);
      FreshAre(Row(heap, root, depth), o.start);
      RowIsLevel(heap, root, depth, p);
    }
  }

  lemma DoneAreOnLevels(heap: Heap, root: Node, s: Search, depth: nat, o: Order)
    requires Closed(heap) && root in heap && InOrder(heap, root, s, depth, o)
    ensures forall p <- s.seen :: OnLevelBefore(heap, root, depth + 1, p)
  {
    forall p <- s.seen ensures OnLevelBefore(heap, root, depth + 1, p) {
      SeenIsOnLevel(heap, root, s, depth, o, p);
    }
  }

  lemma FreshOne(n: Node, seen: set<Node>)
    ensures Fresh([n], seen) == if n in seen then [] else [n]
  {
    assert [n][..0] == [];
  }

  /** Taking the first of some nodes: it is fresh, or it makes no difference. */
  lemma FreshHead(n: Node, nodes: seq<Node>, seen: set<Node>)
    ensures Fresh([n] + nodes, seen)
         == if n in seen then Fresh(nodes, seen) else [n] + Fresh(nodes, seen + {n})
  {
    FreshAppend([n], nodes, seen);
    FreshOne(n, seen);
    OneMember(n);
    assert n in seen ==> seen + {n} == seen;
  }

  lemma OneMember(n: Node)
    ensures Members([n]) == {n}
  {
  }

  lemma PopSeenInOrder(heap: Heap, root: Node, s: Search, depth: nat, o: Order)
    requires InOrder(heap, root, s, depth, o) && o.here != [] && o.here[0] in s.seen && s.queue != []
    ensures InOrder(heap, root, s.(queue := s.queue[1..]), depth, o.(here := o.here[1..]))
  {
    QueueHead(o, s.queue, depth);
    assert o.here == [o.here[0]] + o.here[1..];
    FreshHead(o.here[0], o.here[1..], s.seen);
  }

  lemma WithDepthAppend(a: seq<Node>, b: seq<Node>, d: nat)
    ensures WithDepth(a + b, d) == WithDepth(a, d) + WithDepth(b, d)
  {
  }

  lemma ChildrenOfMore(heap: Heap, nodes: seq<Node>, n: Node)
    ensures Children(heap, nodes + [n]) == Children(heap, nodes) + if n in heap then Nested(heap[n]) else []
  {
    assert (nodes + [n])[..|nodes|] == nodes;
  }

  /** What is appended when the head is expanded keeps the order. */
  lemma PopNewQueueInOrder(heap: Heap, s: Search, depth: nat, o: Order)
    requires s.queue == WithDepth(o.here, depth) + WithDepth(o.next, depth + 1)
    requires o.here != [] && o.here[0] in heap
    ensures var more := if depth < MaxDepth then Nested(heap[o.here[0]]) else [];
      s.queue[1..] + Appended(heap, o.here[0], depth)
      == WithDepth(o.here[1..], depth) + WithDepth(o.next + more, depth + 1)
  {
    QueueHead(o, s.queue, depth);
    var more := if depth < MaxDepth then Nested(heap[o.here[0]]) else [];
    WithDepthAppend(o.next, more, depth + 1);
    Associates(WithDepth(o.here[1..], depth), WithDepth(o.next, depth + 1), WithDepth(more, depth + 1));
  }

  lemma Associates<T>(a: seq<T>, b: seq<T>, c: seq<T>)
    ensures a + (b + c) == (a + b) + c
  {
  }

  lemma PopNewInOrder(heap: Heap, root: Node, s: Search, depth: nat, o: Order) returns (after: Order)
    requires InOrder(heap, root, s, depth, o) && o.here != [] && o.here[0] !in s.seen && o.here[0] in heap
    ensures InOrder(heap, root, Search(s.queue[1..] + Appended(heap, o.here[0], depth), s.seen + {o.here[0]}), depth,
                    after)
  {
    var n := o.here[0];
    var more := if depth < MaxDepth then Nested(heap[n]) else [];
    after := Order(o.here[1..], o.next + more, o.start, o.done + [n]);
    PopNewQueueInOrder(heap, s, depth, o);
    OneDone(heap, root, depth, s.seen, o, n);
    ChildrenOfMore(heap, o.done, n);
    MembersOfMore(o.done, n);
    assert o.done + [n] == after.done && after.start == o.start;
  }

  lemma MembersOfMore(nodes: seq<Node>, n: Node)
    ensures Members(nodes + [n]) == Members(nodes) + {n}
  {
  }

  lemma OneDone(heap: Heap, root: Node, depth: nat, seen: set<Node>, o: Order, n: Node)
    requires RowLeft(heap, root, depth, seen, o) && o.here != [] && o.here[0] == n && n !in seen
    ensures Fresh(Row(heap, root, depth), o.start) == (o.done + [n]) + Fresh(o.here[1..], seen + {n})
  {
    assert o.here == [n] + o.here[1..];
    FreshHead(n, o.here[1..], seen);
    Associates(o.done, [n], Fresh(o.here[1..], seen + {n}));
  }

  /** `n` is the first in breadth-first order, at depth `d`, that carries an identity. */
  ghost predicate FirstCarrier(heap: Heap, root: Node, d: nat, n: Node) {
    exists i :: 0 <= i < |Row(heap, root, d)| && Row(heap, root, d)[i] == n && Carries(heap, n)
      && forall j :: 0 <= j < i ==> !Carries(heap, Row(heap, root, d)[j])
  }

  /** The first fresh node that is not among `done` stands behind nothing but seen ones and these. */
  lemma {:induction false} FreshPlace(nodes: seq<Node>, seen: set<Node>, done: seq<Node>, n: Node, rest: seq<Node>)
    returns (i: nat)
    requires Fresh(nodes, seen) == done + ([n] + rest)
    ensures i < |nodes| && nodes[i] == n && forall j :: 0 <= j < i ==> nodes[j] in seen || nodes[j] in done
    decreases |nodes|
  {
    var front, last := nodes[..|nodes| - 1], nodes[|nodes| - 1];
    if Fresh(front, seen) == done {
      FreshLast(nodes, seen, done, n, rest);
      i := |nodes| - 1;
    } else if last in seen || last in front {
      assert Fresh(front, seen) + [] == Fresh(front, seen);
      i := FreshPlace(front, seen, done, n, rest);
    } else {
      FreshCut(front, last, seen, done, n, rest);
      i := FreshPlace(front, seen, done, n, rest[..|rest| - 1]);
    }
  }

  lemma FreshLast(nodes: seq<Node>, seen: set<Node>, done: seq<Node>, n: Node, rest: seq<Node>)
    requires nodes != [] && Fresh(nodes, seen) == done + ([n] + rest) && Fresh(nodes[..|nodes| - 1], seen) == done
    ensures nodes[|nodes| - 1] == n && forall j :: 0 <= j < |nodes| - 1 ==> nodes[j] in seen || nodes[j] in done
  {
    var front := nodes[..|nodes| - 1];
    FreshAre(front, seen);
    assert Fresh(nodes, seen)[|done|] == n;
    forall j | 0 <= j < |nodes| - 1 ensures nodes[j] in seen || nodes[j] in done {
      assert front[j] in front;
    }
  }

  lemma FreshCut(front: seq<Node>, last: Node, seen: set<Node>, done: seq<Node>, n: Node, rest: seq<Node>)
    requires Fresh(front, seen) + [last] == done + ([n] + rest) && Fresh(front, seen) != done
    ensures rest != [] && Fresh(front, seen) == done + ([n] + rest[..|rest| - 1])
  {
    var all := Fresh(front, seen) + [last];
    assert all[..|all| - 1] == Fresh(front, seen);
    assert (done + ([n] + rest))[..|done|] == done;
    if rest != [] {
      assert (done + ([n] + rest))[..|all| - 1] == done + ([n] + rest[..|rest| - 1]);
    }
  }

  lemma FoundIsFirst(heap: Heap, root: Node, s: Search, depth: nat, expanded: set<Node>, o: Order)
    requires Searching(heap, root, s, depth, expanded) && InOrder(heap, root, s, depth, o)
    requires o.here != [] && o.here[0] !in s.seen && Carries(heap, o.here[0])
    ensures FirstCarrier(heap, root, depth, o.here[0])
  {
    var n := o.here[0];
    OneDone(heap, root, depth, s.seen, o, n);
    var rest := Fresh(o.here[1..], s.seen + {n});
    Associates(o.done, [n], rest);
    var i := FreshPlace(Row(heap, root, depth), o.start, o.done, n, rest);
    forall j | 0 <= j < i ensures !Carries(heap, Row(heap, root, depth)[j]) {
      assert Row(heap, root, depth)[j] in s.seen;
    }
  }

  /**
   * The search ends on every heap.  It finds an identity exactly when a dictionary
   * within six nested steps carries one, no dictionary nearer to the root carries any, and
   * of those as near it is that of the first in breadth-first order.
   */
  method FindConnectorIdentity(heap: Heap, root: Node) returns (found: Option<ConnectorIdentity>, ghost at: nat)
    requires Closed(heap) && root in heap
    ensures found.Some? <==> exists d: nat, n :: d <= 6 && n in Level(heap, root, d) && Carries(heap, n)
    ensures found.Some? ==> at <= 6 && exists n <- Level(heap, root, at) ::
      n in heap && Carried(heap[n]) == found && IsIdentity(heap[n], found.value) && FirstCarrier(heap, root, at, n)
    ensures found.Some? ==> forall d: nat, n :: d < at && n in Level(heap, root, d) ==> !Carries(heap, n)
  {
    var queue, seen := [(root, 0)], {};
    ghost var depth, expanded, o := 0, {}, Order([root], [], {}, []);
    StartsInOrder(heap, root);
    while queue != []
      invariant Sweeping(heap, root, Search(queue, seen), depth, expanded, o)
      decreases heap.Keys - seen, |queue|
    {
      if queue[0].1 == depth + 1 {
        SweepOn(heap, root, Search(queue, seen), depth, expanded, o);
        depth, o := depth + 1, Order(o.next, [], seen, []);
      }
      ghost var before := Search(queue, seen);
      HeadOfSweep(heap, root, before, depth, expanded, o);
      var (payload, d) := queue[0];
      queue := queue[1..];
      if payload in seen {
        SweepSeen(heap, root, before, depth, expanded, o);
        o := o.(here := o.here[1..]);
        continue;
      }
      var normalized := Carried(heap[payload]);
      if normalized.Some? {
        FoundIsNearest(heap, root, before, depth, expanded);
        FoundIsFirst(heap, root, before, depth, expanded, o);
        CarriedIsIdentity(heap[payload], normalized.value);
        return normalized, depth;
      }
      o := SweepNew(heap, root, before, depth, expanded, o);
      seen := seen + {payload};
      queue := queue + Appended(heap, payload, d);
      expanded := if d < MaxDepth then expanded + {payload} else expanded;
    }
    NothingFound(heap, root, Search(queue, seen), depth, expanded);
    found, at := None, 0;
  }

  /** What the loop knows. */
  ghost predicate Sweeping(heap: Heap, root: Node, s: Search, depth: nat, expanded: set<Node>, o: Order) {
    Searching(heap, root, s, depth, expanded) && InOrder(heap, root, s, depth, o)
  }

  lemma SweepOn(heap: Heap, root: Node, s: Search, depth: nat, expanded: set<Node>, o: Order)
    requires Closed(heap) && root in heap && Sweeping(heap, root, s, depth, expanded, o)
    requires s.queue != [] && s.queue[0].1 == depth + 1
    ensures Sweeping(heap, root, s, depth + 1, expanded, Order(o.next, [], s.seen, []))
  {
    NextLevelInOrder(heap, root, s, depth, expanded, o);
    NextLevel(heap, root, s, depth, expanded);
  }

  /** The head of the queue, once the level is right. */
  lemma HeadOfSweep(heap: Heap, root: Node, s: Search, depth: nat, expanded: set<Node>, o: Order)
    requires root in heap && Sweeping(heap, root, s, depth, expanded, o)
    requires s.queue != [] && s.queue[0].1 != depth + 1
    ensures o.here != [] && s.queue[0] == (o.here[0], depth) && o.here[0] in heap
    ensures o.here[0] in Level(heap, root, depth)
  {
    QueueHead(o, s.queue, depth);
    LevelsAreOnTheHeap(heap, root, depth);
  }

  lemma SweepSeen(heap: Heap, root: Node, s: Search, depth: nat, expanded: set<Node>, o: Order)
    requires Sweeping(heap, root, s, depth, expanded, o) && s.queue != [] && o.here != []
    requires s.queue[0] == (o.here[0], depth) && o.here[0] in s.seen
    ensures Sweeping(heap, root, s.(queue := s.queue[1..]), depth, expanded, o.(here := o.here[1..]))
  {
    PopSeen(heap, root, s, depth, expanded);
    PopSeenInOrder(heap, root, s, depth, o);
  }

  lemma SweepNew(heap: Heap, root: Node, s: Search, depth: nat, expanded: set<Node>, o: Order) returns (after: Order)
    requires Closed(heap) && Sweeping(heap, root, s, depth, expanded, o) && s.queue != [] && o.here != []
    requires s.queue[0] == (o.here[0], depth) && o.here[0] !in s.seen
    requires o.here[0] in heap && !Carries(heap, o.here[0])
    ensures Sweeping(heap, root, Search(s.queue[1..] + Appended(heap, o.here[0], depth), s.seen + {o.here[0]}), depth,
                     if depth < MaxDepth then expanded + {o.here[0]} else expanded, after)
  {
    PopNew(heap, root, s, depth, expanded);
    after := PopNewInOrder(heap, root, s, depth, o);
  }

  lemma StartsInOrder(heap: Heap, root: Node)
    requires root in heap
    ensures Sweeping(heap, root, Search([(root, 0)], {}), 0, {}, Order([root], [], {}, []))
  {
    assert (root, 0) in [(root, 0)];
    var none: seq<Node> := [];
    assert Members(none) == {};
    assert [root][1..] == [];
  }

  lemma FoundIsNearest(heap: Heap, root: Node, s: Search, depth: nat, expanded: set<Node>)
    requires Searching(heap, root, s, depth, expanded) && s.queue != [] && s.queue[0].1 == depth
    ensures s.queue[0].0 in Level(heap, root, depth)
    ensures forall d: nat, n :: d < depth && n in Level(heap, root, d) ==> !Carries(heap, n)
  {
    forall d: nat, n | d < depth && n in Level(heap, root, d) ensures !Carries(heap, n) {
      assert Level(heap, root, d) <= s.seen;
    }
  }

  lemma NothingFound(heap: Heap, root: Node, s: Search, depth: nat, expanded: set<Node>)
    requires Searching(heap, root, s, depth, expanded) && s.queue == []
    ensures forall d: nat, n :: d <= MaxDepth && n in Level(heap, root, d) ==> !Carries(heap, n)
  {
    forall d: nat, n | d <= MaxDepth && n in Level(heap, root, d) ensures !Carries(heap, n) {
      Exhausted(heap, root, s, depth, expanded, d);
    }
  }
}
