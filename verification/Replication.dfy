/** Event replication: one node runs a storage actor and a network actor over one
    `events` table; the nodes of a mesh exchange events through gossip. Each actor
    inserts under the table's mutex, releases it, and only then forwards, so
    "inserted, not yet forwarded" is a state of its own (`Hand`). */
module Replication {
  import opened Wrappers
  import opened Events

  type NodeId = string
  type Table = map<string, Event>

  /** What an actor holds between releasing the table and sending. */
  datatype Hand = Empty | Holding(event: Event)

  /** One node. `taken`, `attempted`, `toApp`, `lost` and `seen` are histories:
      events taken from the application, taken for broadcast, delivered to the
      application, dropped by a failed send, and received from gossip. */
  datatype Node = Node(
    initial: Table,
    events: Table,
    appQueue: seq<Event>,
    storage: Hand,
    outbound: seq<Event>,
    network: Hand,
    taken: seq<Event>,
    attempted: seq<Event>,
    toApp: seq<Event>,
    lost: seq<Event>,
    seen: set<Event>)
  {
    /** Everything the application ever submitted here, in order. */
    function Submitted(): seq<Event> { taken + appQueue }

    /** Everything the storage actor ever handed to the network actor, in order. */
    function ToNetwork(): seq<Event> { attempted + outbound }

    predicate Quiescent() {
      appQueue == [] && storage == Empty && outbound == [] && network == Empty
    }
  }

  /** `INSERT OR IGNORE`: the first row with an id stays. */
  function InsertOrIgnore(t: Table, e: Event): Table {
    if e.id in t then t else t[e.id := e]
  }

  // ---------- one node, one atomic step at a time ----------

  function Submit(n: Node, e: Event): Node { n.(appQueue := n.appQueue + [e]) }

  /** The storage actor receives an event and executes its insert. */
  function StorageTake(n: Node, ok: bool): Node
    requires n.appQueue != [] && n.storage == Empty
  {
    var e := n.appQueue[0];
    var n' := n.(appQueue := n.appQueue[1..], taken := n.taken + [e]);
    if ok && e.id !in n.events
    then n'.(events := InsertOrIgnore(n.events, e), storage := Holding(e))
    else n'
  }

  function StorageSend(n: Node, ok: bool): Node
    requires n.storage.Holding?
  {
    var e := n.storage.event;
    if ok then n.(storage := Empty, outbound := n.outbound + [e])
    else n.(storage := Empty, lost := n.lost + [e])
  }

  /** The network actor receives an event from gossip; its own are skipped. */
  function NetworkReceive(n: Node, self: NodeId, e: Event, ok: bool): Node
    requires n.network == Empty
  {
    var n' := n.(seen := n.seen + {e});
    if e.source != self && ok && e.id !in n.events
    then n'.(events := InsertOrIgnore(n.events, e), network := Holding(e))
    else n'
  }

  function NetworkForward(n: Node, ok: bool): Node
    requires n.network.Holding?
  {
    var e := n.network.event;
    if ok then n.(network := Empty, toApp := n.toApp + [e])
    else n.(network := Empty, lost := n.lost + [e])
  }

  /** The outbound arm takes the next event; whether the broadcast succeeds is
      recorded by the mesh. */
  function NetworkTakeOutbound(n: Node): Node
    requires n.outbound != [] && n.network == Empty
  {
    n.(outbound := n.outbound[1..], attempted := n.attempted + [n.outbound[0]])
  }

  // ---------- the mesh ----------

  /** `gossip` holds every event ever broadcast: delivering any of them at any
      time, any number of times or never, covers delay, duplication, reordering
      and loss. */
  datatype Mesh = Mesh(nodes: map<NodeId, Node>, gossip: set<Event>)

  datatype Step =
    | App(at: NodeId, event: Event)
    | Take(at: NodeId, ok: bool)
    | Send(at: NodeId, ok: bool)
    | Receive(at: NodeId, event: Event, ok: bool)
    | Forward(at: NodeId, ok: bool)
    | Broadcast(at: NodeId, ok: bool)
  {
    /** No statement, channel or broadcast fails in this step. */
    predicate Clean() { App? || ok }
  }

  predicate Enabled(m: Mesh, step: Step) {
    && step.at in m.nodes
    && var n := m.nodes[step.at];
       match step
       case App(_, _) => true
       case Take(_, _) => n.appQueue != [] && n.storage == Empty
       case Send(_, _) => n.storage.Holding?
       case Receive(_, e, _) => n.network == Empty && e in m.gossip
       case Forward(_, _) => n.network.Holding?
       case Broadcast(_, _) => n.outbound != [] && n.network == Empty
  }

  function StepNode(n: Node, step: Step, gossip: set<Event>): Node
    requires Enabled(Mesh(map[step.at := n], gossip), step)
  {
    match step
    case App(_, e) => Submit(n, e)
    case Take(_, ok) => StorageTake(n, ok)
    case Send(_, ok) => StorageSend(n, ok)
    case Receive(at, e, ok) => NetworkReceive(n, at, e, ok)
    case Forward(_, ok) => NetworkForward(n, ok)
    case Broadcast(_, _) => NetworkTakeOutbound(n)
  }

  function Apply(m: Mesh, step: Step): Mesh
    requires Enabled(m, step)
  {
    var n := m.nodes[step.at];
    Mesh(
      m.nodes[step.at := StepNode(n, step, m.gossip)],
      if step.Broadcast? && step.ok then m.gossip + {n.outbound[0]} else m.gossip)
  }

  /** The state after a schedule, or None when some step is not enabled. */
  function Exec(m: Mesh, steps: seq<Step>): Option<Mesh> {
    if steps == [] then Some(m)
    else
      match Exec(m, steps[..|steps| - 1])
      case None => None
      case Some(m') =>
        var step := steps[|steps| - 1];
        if Enabled(m', step) then Some(Apply(m', step)) else None
  }

  predicate Clean(steps: seq<Step>) { forall i :: 0 <= i < |steps| ==> steps[i].Clean() }

  /** A freshly started node over the table it finds on disk. */
  function Started(t: Table): Node { Node(t, t, [], Empty, [], Empty, [], [], [], [], {}) }

  ghost predicate Keyed(t: Table) { forall id :: id in t ==> t[id].id == id }

  ghost predicate Init(m: Mesh) {
    && m.gossip == {}
    && forall id :: id in m.nodes ==> m.nodes[id] == Started(m.nodes[id].initial) && Keyed(m.nodes[id].initial)
  }

  /** Every node starts with an empty table. */
  ghost predicate EmptyTables(m: Mesh) { forall id :: id in m.nodes ==> m.nodes[id].initial == map[] }
}

/** The two actors of a node as the program runs them, step by step over shared
    state; each step is proved to be the step function of the protocol. */
module Actors {
  import opened Wrappers
  import opened Events
  import opened Replication

  /** The wiring of `from_config`: one table, three channels, two actors. */
  class NodeProcess {
    const nodeId: NodeId
    var events: Table
    var appRx: seq<Event>
    var networkTx: seq<Event>
    var inboundTx: seq<Event>
    var storageHand: Hand
    var networkHand: Hand
    ghost const initial: Table
    ghost var taken: seq<Event>
    ghost var attempted: seq<Event>
    ghost var lost: seq<Event>
    ghost var seen: set<Event>

    ghost function State(): Node
      reads this
    {
      Node(initial, events, appRx, storageHand, networkTx, networkHand, taken, attempted, inboundTx, lost, seen)
    }

    constructor (nodeId: NodeId, onDisk: Table)
      ensures State() == Started(onDisk) && this.nodeId == nodeId
    {
      this.nodeId, events, initial := nodeId, onDisk, onDisk;
      appRx, networkTx, inboundTx := [], [], [];
      storageHand, networkHand := Empty, Empty;
      taken, attempted, lost, seen := [], [], [], {};
    }

    /** `rows` is the number of rows the statement inserted; None when it failed. */
    method Insert(event: Event, ok: bool) returns (rows: Option<nat>)
      modifies this`events
      ensures rows == if !ok then None else if event.id in old(events) then Some(0) else Some(1)
      ensures events == if ok then InsertOrIgnore(old(events), event) else old(events)
    {
      if !ok { return None; }
      if event.id in events { return Some(0); }
      events := events[event.id := event];
      rows := Some(1);
    }

    method StorageReceive(ok: bool)
      requires appRx != [] && storageHand == Empty
      modifies this
      ensures State() == StorageTake(old(State()), ok)
    {
      var event := appRx[0];
      appRx := appRx[1..];
      taken := taken + [event];
      var rows := Insert(event, ok);
      if rows.Some? && rows.value > 0 {
        storageHand := Holding(event);
      }
    }

    method StorageForward(ok: bool)
      requires storageHand.Holding?
      modifies this
      ensures State() == StorageSend(old(State()), ok)
      ensures networkTx == old(networkTx) + if ok then [old(storageHand).event] else []
    {
      var event := storageHand.event;
      storageHand := Empty;
      if ok { networkTx := networkTx + [event]; } else { lost := lost + [event]; }
    }

    method GossipReceive(event: Event, ok: bool)
      requires networkHand == Empty
      modifies this
      ensures State() == NetworkReceive(old(State()), nodeId, event, ok)
    {
      seen := seen + {event};
      if event.source != nodeId {
        var rows := Insert(event, ok);
        if rows.Some? && rows.value > 0 {
          networkHand := Holding(event);
        }
      }
    }

    method GossipForward(ok: bool)
      requires networkHand.Holding?
      modifies this
      ensures State() == NetworkForward(old(State()), ok)
      ensures inboundTx == old(inboundTx) + if ok then [old(networkHand).event] else []
    {
      var event := networkHand.event;
      networkHand := Empty;
      if ok { inboundTx := inboundTx + [event]; } else { lost := lost + [event]; }
    }

    method OutboundReceive() returns (event: Event)
      requires networkTx != [] && networkHand == Empty
      modifies this
      ensures State() == NetworkTakeOutbound(old(State()))
      ensures event == old(networkTx)[0]
    {
      event := networkTx[0];
      networkTx := networkTx[1..];
      attempted := attempted + [event];
    }

    /** One turn of the storage loop with no failure. */
    method StorageTurn()
      requires appRx != [] && storageHand == Empty
      modifies this
      ensures appRx == old(appRx)[1..] && storageHand == Empty
      ensures events == InsertOrIgnore(old(events), old(appRx)[0])
      ensures networkTx == old(networkTx) + if old(appRx)[0].id in old(events) then [] else [old(appRx)[0]]
      ensures inboundTx == old(inboundTx) && networkHand == old(networkHand) && lost == old(lost)
    {
      StorageReceive(true);
      if storageHand.Holding? {
        StorageForward(true);
      }
    }

    /** The storage loop running alone until its queue is empty, nothing failing:
        exactly the first event of each new id is handed on, in order. */
    method RunStorage()
      requires storageHand == Empty
      modifies this
      ensures appRx == [] && storageHand == Empty
      ensures networkTx == old(networkTx) + FirstNew(old(events).Keys, old(appRx))
      ensures events == StoreAll(old(events), old(appRx))
      ensures inboundTx == old(inboundTx) && networkHand == old(networkHand) && lost == old(lost)
    {
      while appRx != []
        invariant storageHand == Empty
        invariant networkTx + FirstNew(events.Keys, appRx) == old(networkTx) + FirstNew(old(events).Keys, old(appRx))
        invariant StoreAll(events, appRx) == StoreAll(old(events), old(appRx))
        invariant inboundTx == old(inboundTx) && networkHand == old(networkHand) && lost == old(lost)
        decreases |appRx|
      {
        assert InsertOrIgnore(events, appRx[0]).Keys == events.Keys + {appRx[0].id};
        StorageTurn();
      }
    }
  }

  /** A table after inserting events in order. */
  ghost function StoreAll(t: Table, es: seq<Event>): Table
    decreases |es|
  {
    if es == [] then t else StoreAll(InsertOrIgnore(t, es[0]), es[1..])
  }

  /** The events whose id is not known and not carried by an earlier event. */
  ghost function FirstNew(known: set<string>, es: seq<Event>): seq<Event>
    decreases |es|
  {
    if es == [] then []
    else (if es[0].id in known then [] else [es[0]]) + FirstNew(known + {es[0].id}, es[1..])
  }

  /** What storing a queue means: old rows stay, every id of the queue is stored,
      and the row of a new id is the first event that carried it. */
  lemma {:induction false} StoreAllKeepsFirst(t: Table, es: seq<Event>, id: string)
    ensures id in t ==> id in StoreAll(t, es) && StoreAll(t, es)[id] == t[id]
    ensures id in StoreAll(t, es) ==> id in t || exists i :: 0 <= i < |es| && es[i].id == id
    ensures forall i :: 0 <= i < |es| && es[i].id == id && id !in t && (forall k :: 0 <= k < i ==> es[k].id != id) ==>
              id in StoreAll(t, es) && StoreAll(t, es)[id] == es[i]
    decreases |es|
  {
    if es != [] {
      StoreAllKeepsFirst(InsertOrIgnore(t, es[0]), es[1..], id);
      forall i | 0 <= i < |es| && es[i].id == id && id !in t && (forall k :: 0 <= k < i ==> es[k].id != id)
        ensures id in StoreAll(t, es) && StoreAll(t, es)[id] == es[i]
      {
        if i > 0 { assert es[1..][i - 1] == es[i]; assert es[0].id != id; }
      }
    }
  }

  /** The i-th event is the first of an id that is not known. */
  ghost predicate IsFirst(known: set<string>, es: seq<Event>, i: nat) {
    i < |es| && es[i].id !in known && forall k :: 0 <= k < i ==> es[k].id != es[i].id
  }

  lemma IsFirstInRest(known: set<string>, es: seq<Event>, i: nat)
    requires i + 1 < |es|
    ensures IsFirst(known + {es[0].id}, es[1..], i) <==> IsFirst(known, es, i + 1)
  {
    assert forall k :: 0 <= k < i ==> es[1..][k] == es[k + 1];
    if IsFirst(known + {es[0].id}, es[1..], i) {
      assert forall k :: 0 < k < i + 1 ==> es[k] == es[1..][k - 1];
    }
  }

  /** The j-th event handed on is the i-th of the queue. */
  ghost predicate HandsOn(known: set<string>, es: seq<Event>, j: nat, i: nat) {
    IsFirst(known, es, i) && j < |FirstNew(known, es)| && FirstNew(known, es)[j] == es[i]
  }

  lemma {:induction false} PositionOf(known: set<string>, es: seq<Event>, j: nat) returns (i: nat)
    requires j < |FirstNew(known, es)|
    ensures HandsOn(known, es, j, i)
    decreases |es|
  {
    var skipped := if es[0].id in known then 0 else 1;
    if j < skipped { return 0; }
    var k := PositionOf(known + {es[0].id}, es[1..], j - skipped);
    IsFirstInRest(known, es, k);
    i := k + 1;
  }

  lemma {:induction false} FirstIsHandedOn(known: set<string>, es: seq<Event>, i: nat)
    requires IsFirst(known, es, i)
    ensures es[i] in FirstNew(known, es)
    decreases |es|
  {
    if i > 0 {
      IsFirstInRest(known, es, i - 1);
      FirstIsHandedOn(known + {es[0].id}, es[1..], i - 1);
    }
  }

  lemma {:induction false} HandedOnInOrder(known: set<string>, es: seq<Event>, j: nat, k: nat, i: nat, i': nat)
    requires j < k && HandsOn(known, es, j, i) && HandsOn(known, es, k, i')
    ensures i < i'
    decreases |es|
  {
    var skipped := if es[0].id in known then 0 else 1;
    if i > 0 && i' > 0 {
      IsFirstInRest(known, es, i - 1);
      IsFirstInRest(known, es, i' - 1);
      HandedOnInOrder(known + {es[0].id}, es[1..], j - skipped, k - skipped, i - 1, i' - 1);
    } else if i' == 0 {
      var _ := PositionOf(known + {es[0].id}, es[1..], k - skipped);
    }
  }

  /** What is handed on are exactly the events that are the first of a new id, each
      once, in the order of the queue. */
  lemma FirstNewIsFirst(known: set<string>, es: seq<Event>)
    ensures forall e :: e in FirstNew(known, es) <==> exists i: nat :: IsFirst(known, es, i) && es[i] == e
    ensures forall j: nat, k: nat, i: nat, i': nat ::
              j < k && HandsOn(known, es, j, i) && HandsOn(known, es, k, i') ==> i < i'
  {
    forall e ensures e in FirstNew(known, es) <==> exists i: nat :: IsFirst(known, es, i) && es[i] == e {
      if e in FirstNew(known, es) {
        var j :| 0 <= j < |FirstNew(known, es)| && FirstNew(known, es)[j] == e;
        var i := PositionOf(known, es, j);
      }
      if i: nat :| IsFirst(known, es, i) && es[i] == e { FirstIsHandedOn(known, es, i); }
    }
    forall j: nat, k: nat, i: nat, i': nat | j < k && HandsOn(known, es, j, i) && HandsOn(known, es, k, i')
      ensures i < i'
    {
      HandedOnInOrder(known, es, j, k, i, i');
    }
  }
}
