/** What every step of the replication protocol keeps, whatever fails and however
    the steps of the nodes interleave. */
module ReplicationSafety {
  import opened Wrappers
  import opened Events
  import opened Replication

  /** How often a list of events carries an id. */
  ghost function Count(es: seq<Event>, id: string): nat {
    if es == [] then 0
    else Count(es[..|es| - 1], id) + if es[|es| - 1].id == id then 1 else 0
  }

  ghost function InHand(h: Hand, id: string): nat {
    if h.Holding? && h.event.id == id then 1 else 0
  }

  ghost function InTable(t: Table, id: string): nat { if id in t then 1 else 0 }

  /** All the places where a node accounts for an id. */
  ghost function Accounted(n: Node, id: string): nat {
    InTable(n.initial, id) + Count(n.ToNetwork(), id) + Count(n.toApp, id) + Count(n.lost, id)
    + InHand(n.storage, id) + InHand(n.network, id)
  }

  /** Conservation: every id of the table is exactly once an initial id, an id
      handed to the network, an id delivered to the application, an id lost by a
      failed send, or in the hand of an actor; no other id is in any of these. */
  ghost predicate Conserved(n: Node) {
    forall id: string :: InTable(n.events, id) == Accounted(n, id)
  }

  /** The event came to node `self` from gossip and is not its own. */
  ghost predicate Foreign(self: NodeId, gossip: set<Event>, e: Event) {
    e in gossip && e.source != self
  }

  /** Where the events of a node come from. */
  ghost predicate Provenance(self: NodeId, n: Node, gossip: set<Event>) {
    && Keyed(n.events)
    && n.initial.Items <= n.events.Items
    && (forall id :: id in n.events ==>
          || (id in n.initial && n.initial[id] == n.events[id])
          || n.events[id] in n.taken
          || Foreign(self, gossip, n.events[id]))
    && (forall e :: e in n.ToNetwork() ==> e in n.taken)
    && (n.storage.Holding? ==> n.storage.event in n.taken)
    && (forall e :: e in n.toApp ==> Foreign(self, gossip, e))
    && (n.network.Holding? ==> Foreign(self, gossip, n.network.event))
    && n.seen <= gossip
  }

  ghost predicate Broadcasters(m: Mesh) {
    forall e :: e in m.gossip ==> exists id :: id in m.nodes && e in m.nodes[id].attempted
  }

  ghost predicate Safe(m: Mesh) {
    && (forall id :: id in m.nodes ==> Conserved(m.nodes[id]) && Provenance(id, m.nodes[id], m.gossip))
    && Broadcasters(m)
  }

  // ---------- one step ----------

  lemma CountSnoc(es: seq<Event>, e: Event, id: string)
    ensures Count(es + [e], id) == Count(es, id) + if e.id == id then 1 else 0
  {
    assert (es + [e])[..|es|] == es;
  }

  lemma SendConserves(n: Node, ok: bool, id: string)
    requires n.storage.Holding?
    ensures Accounted(StorageSend(n, ok), id) == Accounted(n, id)
  {
    var e, n' := n.storage.event, StorageSend(n, ok);
    if ok {
      CountSnoc(n.ToNetwork(), e, id);
      assert n'.ToNetwork() == n.ToNetwork() + [e];
    } else {
      CountSnoc(n.lost, e, id);
      assert n'.ToNetwork() == n.ToNetwork();
    }
  }

  lemma ForwardConserves(n: Node, ok: bool, id: string)
    requires n.network.Holding?
    ensures Accounted(NetworkForward(n, ok), id) == Accounted(n, id)
  {
    var e, n' := n.network.event, NetworkForward(n, ok);
    assert n'.attempted == n.attempted && n'.outbound == n.outbound;
    if ok {
      CountSnoc(n.toApp, e, id);
    } else {
      CountSnoc(n.lost, e, id);
    }
  }

  lemma TakeConserves(n: Node, ok: bool, id: string)
    requires n.appQueue != [] && n.storage == Empty
    ensures Accounted(StorageTake(n, ok), id) - Accounted(n, id)
         == InTable(StorageTake(n, ok).events, id) - InTable(n.events, id)
  {
    assert StorageTake(n, ok).ToNetwork() == n.ToNetwork();
  }

  lemma ReceiveConserves(n: Node, self: NodeId, e: Event, ok: bool, id: string)
    requires n.network == Empty
    ensures Accounted(NetworkReceive(n, self, e, ok), id) - Accounted(n, id)
         == InTable(NetworkReceive(n, self, e, ok).events, id) - InTable(n.events, id)
  {
    assert NetworkReceive(n, self, e, ok).ToNetwork() == n.ToNetwork();
  }

  lemma StepConservesId(n: Node, step: Step, gossip: set<Event>, id: string)
    requires Enabled(Mesh(map[step.at := n], gossip), step)
    requires InTable(n.events, id) == Accounted(n, id)
    ensures InTable(StepNode(n, step, gossip).events, id) == Accounted(StepNode(n, step, gossip), id)
  {
    match step
    case App(_, e) => assert Submit(n, e).ToNetwork() == n.ToNetwork();
    case Take(_, ok) => TakeConserves(n, ok, id);
    case Send(_, ok) => SendConserves(n, ok, id);
    case Receive(_, e, ok) => ReceiveConserves(n, step.at, e, ok, id);
    case Forward(_, ok) => ForwardConserves(n, ok, id);
    case Broadcast(_, _) => assert NetworkTakeOutbound(n).ToNetwork() == n.ToNetwork();
  }

  lemma StepConserves(n: Node, step: Step, gossip: set<Event>)
    requires Enabled(Mesh(map[step.at := n], gossip), step) && Conserved(n)
    ensures Conserved(StepNode(n, step, gossip))
  {
    forall id: string
      ensures InTable(StepNode(n, step, gossip).events, id) == Accounted(StepNode(n, step, gossip), id)
    {
      assert InTable(n.events, id) == Accounted(n, id);
      StepConservesId(n, step, gossip, id);
    }
  }

  lemma StepProvenance(n: Node, step: Step, gossip: set<Event>)
    requires Enabled(Mesh(map[step.at := n], gossip), step) && Provenance(step.at, n, gossip)
    ensures Provenance(step.at, StepNode(n, step, gossip), gossip)
  {
    var n' := StepNode(n, step, gossip);
    assert n'.initial.Items <= n'.events.Items by {
      forall p | p in n.initial.Items ensures p in n'.events.Items {
        assert p in n.events.Items;
        assert p.0 in n.events && n.events[p.0] == p.1;
      }
    }
    match step
    case Take(_, _) => assert n.taken + [n.appQueue[0]] == n'.taken;
    case Send(_, ok) => if ok { assert n'.ToNetwork() == n.ToNetwork() + [n.storage.event]; }
    case Broadcast(_, _) => assert n'.ToNetwork() == n.ToNetwork();
    case _ =>
  }

  lemma ProvenanceGrows(self: NodeId, n: Node, gossip: set<Event>, gossip': set<Event>)
    requires Provenance(self, n, gossip) && gossip <= gossip'
    ensures Provenance(self, n, gossip')
  {
  }

  lemma StepBroadcasters(m: Mesh, step: Step)
    requires Enabled(m, step) && Broadcasters(m)
    ensures Broadcasters(Apply(m, step))
  {
    var m' := Apply(m, step);
    var n' := m'.nodes[step.at];
    forall e | e in m'.gossip ensures exists id :: id in m'.nodes && e in m'.nodes[id].attempted {
      if e in m.gossip {
        var id :| id in m.nodes && e in m.nodes[id].attempted;
        assert m.nodes[step.at].attempted <= n'.attempted;
        assert e in m'.nodes[id].attempted;
      } else {
        assert n'.attempted[|n'.attempted| - 1] == e;
        assert e in m'.nodes[step.at].attempted;
      }
    }
  }

  lemma StepSafe(m: Mesh, step: Step)
    requires Enabled(m, step) && Safe(m)
    ensures Safe(Apply(m, step))
  {
    var m' := Apply(m, step);
    StepConserves(m.nodes[step.at], step, m.gossip);
    StepProvenance(m.nodes[step.at], step, m.gossip);
    StepBroadcasters(m, step);
    assert m.gossip <= m'.gossip;
    forall id | id in m'.nodes ensures Conserved(m'.nodes[id]) && Provenance(id, m'.nodes[id], m'.gossip) {
      if id == step.at {
        ProvenanceGrows(id, m'.nodes[id], m.gossip, m'.gossip);
      } else {
        ProvenanceGrows(id, m.nodes[id], m.gossip, m'.gossip);
      }
    }
  }

  // ---------- whole runs ----------

  lemma InitSafe(m: Mesh)
    requires Init(m)
    ensures Safe(m)
  {
  }

  /** Every reachable state is safe: nothing here assumes that a statement, a
      channel or a broadcast succeeds. */
  lemma {:induction false} AlwaysSafe(m: Mesh, steps: seq<Step>)
    requires Init(m) && Exec(m, steps).Some?
    ensures Safe(Exec(m, steps).value)
  {
    if steps == [] {
      InitSafe(m);
    } else {
      AlwaysSafe(m, steps[..|steps| - 1]);
      StepSafe(Exec(m, steps[..|steps| - 1]).value, steps[|steps| - 1]);
    }
  }

  lemma {:induction false} CountAtLeast(es: seq<Event>, i: nat)
    requires i < |es|
    ensures Count(es, es[i].id) >= 1
  {
    if i < |es| - 1 {
      CountAtLeast(es[..|es| - 1], i);
    }
  }

  lemma {:induction false} CountTwice(es: seq<Event>, i: nat, j: nat)
    requires i < j < |es| && es[i].id == es[j].id
    ensures Count(es, es[i].id) >= 2
  {
    if j < |es| - 1 {
      CountTwice(es[..|es| - 1], i, j);
    } else {
      CountAtLeast(es[..|es| - 1], i);
    }
  }

  /** No two events of a list carry the same id. */
  ghost predicate DistinctIds(es: seq<Event>) {
    forall i, j :: 0 <= i < j < |es| ==> es[i].id != es[j].id
  }

  lemma DistinctWhenCounted(es: seq<Event>)
    requires forall id :: Count(es, id) <= 1
    ensures DistinctIds(es)
  {
    forall i, j | 0 <= i < j < |es| ensures es[i].id != es[j].id {
      if es[i].id == es[j].id { CountTwice(es, i, j); }
    }
  }

  lemma CountMember(es: seq<Event>, e: Event)
    requires e in es
    ensures Count(es, e.id) >= 1
  {
    var i :| 0 <= i < |es| && es[i] == e;
    CountAtLeast(es, i);
  }

  /** Exactly once: however the two actors of a node race, no id is handed to the
      network twice, none is delivered to the application twice, none takes both
      ways, and none that was on disk at the start takes either. */
  lemma ForwardedAtMostOnce(m: Mesh, steps: seq<Step>, id: NodeId)
    requires Init(m) && Exec(m, steps).Some? && id in Exec(m, steps).value.nodes
    ensures var n := Exec(m, steps).value.nodes[id];
            && DistinctIds(n.ToNetwork()) && DistinctIds(n.toApp)
            && (forall e, f :: e in n.ToNetwork() && f in n.toApp ==> e.id != f.id)
            && (forall e :: e in n.ToNetwork() || e in n.toApp ==> e.id in n.events && e.id !in n.initial)
  {
    AlwaysSafe(m, steps);
    var n := Exec(m, steps).value.nodes[id];
    ConservedIsExactlyOnce(n);
  }

  lemma ConservedIsExactlyOnce(n: Node)
    requires Conserved(n)
    ensures DistinctIds(n.ToNetwork()) && DistinctIds(n.toApp)
    ensures forall e, f :: e in n.ToNetwork() && f in n.toApp ==> e.id != f.id
    ensures forall e :: e in n.ToNetwork() || e in n.toApp ==> e.id in n.events && e.id !in n.initial
  {
    forall x ensures Count(n.ToNetwork(), x) + Count(n.toApp, x) + InTable(n.initial, x) <= InTable(n.events, x) {
      assert InTable(n.events, x) == Accounted(n, x);
    }
    forall x ensures Count(n.ToNetwork(), x) <= 1 && Count(n.toApp, x) <= 1 {
      assert Count(n.ToNetwork(), x) + Count(n.toApp, x) + InTable(n.initial, x) <= InTable(n.events, x);
    }
    DistinctWhenCounted(n.ToNetwork());
    DistinctWhenCounted(n.toApp);
    forall e | e in n.ToNetwork() ensures Count(n.ToNetwork(), e.id) >= 1 { CountMember(n.ToNetwork(), e); }
    forall f | f in n.toApp ensures Count(n.toApp, f.id) >= 1 { CountMember(n.toApp, f); }
  }

  /** The log is append-only: a row present at some point of a run is there, with
      the same content, at every later point. */
  lemma {:induction false} RowsStay(m: Mesh, steps: seq<Step>, id: NodeId)
    requires Exec(m, steps).Some?
    ensures Exec(m, steps).value.nodes.Keys == m.nodes.Keys
    ensures id in m.nodes ==> forall k :: k in m.nodes[id].events ==>
              k in Exec(m, steps).value.nodes[id].events
              && Exec(m, steps).value.nodes[id].events[k] == m.nodes[id].events[k]
  {
    if steps != [] {
      RowsStay(m, steps[..|steps| - 1], id);
    }
  }

  lemma GossipIsSubmitted(m: Mesh, e: Event)
    requires Safe(m) && e in m.gossip
    ensures SubmittedSomewhere(m, e)
  {
    var id :| id in m.nodes && e in m.nodes[id].attempted;
    assert e in m.nodes[id].ToNetwork();
    assert e in m.nodes[id].Submitted();
  }

  /** Every broadcast event was submitted by the application of the node that
      broadcast it, never learned from gossip there; every stored event was
      submitted somewhere or on disk at the start; nothing a node delivers to its
      application names the node as its source. */
  lemma OnlySubmittedEvents(m: Mesh, steps: seq<Step>)
    requires Init(m) && Exec(m, steps).Some?
    ensures var m' := Exec(m, steps).value;
            && (forall e :: e in m'.gossip ==> SubmittedSomewhere(m', e))
            && (forall id, e :: id in m'.nodes && e in m'.nodes[id].ToNetwork() ==> e in m'.nodes[id].Submitted())
            && (forall id, k :: id in m'.nodes && k in m'.nodes[id].events ==>
                  (k in m'.nodes[id].initial && m'.nodes[id].initial[k] == m'.nodes[id].events[k])
                  || SubmittedSomewhere(m', m'.nodes[id].events[k]))
            && (forall id, e :: id in m'.nodes && e in m'.nodes[id].toApp ==>
                  e.source != id && SubmittedSomewhere(m', e))
  {
    AlwaysSafe(m, steps);
    var m' := Exec(m, steps).value;
    forall e | e in m'.gossip ensures SubmittedSomewhere(m', e) { GossipIsSubmitted(m', e); }
    forall id, k | id in m'.nodes && k in m'.nodes[id].events
      ensures (k in m'.nodes[id].initial && m'.nodes[id].initial[k] == m'.nodes[id].events[k])
              || SubmittedSomewhere(m', m'.nodes[id].events[k])
    {
      if m'.nodes[id].events[k] in m'.nodes[id].taken { assert m'.nodes[id].events[k] in m'.nodes[id].Submitted(); }
    }
  }

  ghost predicate SubmittedSomewhere(m: Mesh, e: Event) {
    exists id :: id in m.nodes && e in m.nodes[id].Submitted()
  }
}
