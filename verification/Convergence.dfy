/** Convergence of the mesh: when all queues are drained and every broadcast has
    reached everybody, what does each table hold? */
module Convergence {
  import opened Wrappers
  import opened Events
  import opened Replication
  import opened ReplicationSafety
  import Decimal

  // ---------- hypotheses ----------

  /** Ids determine events. */
  ghost predicate UniqueIds(m: Mesh) {
    forall e, f :: SubmittedSomewhere(m, e) && SubmittedSomewhere(m, f) && e.id == f.id ==> e == f
  }

  /** The uniqueness of ids comes from how ids are made: with node ids of one
      length, timestamps with one number of digits, and a hash that does not
      collide on the submitted events. */
  lemma GeneratedIdsAreUnique(m: Mesh, hash: string -> string, sourceLength: nat, digits: nat)
    requires forall e :: SubmittedSomewhere(m, e) ==>
               && e.id == GenerateEventId(hash, e.payload, e.source, e.ts)
               && |e.source| == sourceLength && |Decimal.Print(e.ts)| == digits
    requires forall e, f :: SubmittedSomewhere(m, e) && SubmittedSomewhere(m, f) ==>
               NoCollision(hash, IdPreimage(e.payload, e.source, e.ts), IdPreimage(f.payload, f.source, f.ts))
    ensures UniqueIds(m)
  {
    forall e, f | SubmittedSomewhere(m, e) && SubmittedSomewhere(m, f) && e.id == f.id ensures e == f {
      IdDeterminesEvent(hash, e.payload, e.source, e.ts, f.payload, f.source, f.ts);
    }
  }

  /** Every event is submitted at the node it names as its source. */
  ghost predicate SubmittedAtSource(m: Mesh) {
    forall id, e :: id in m.nodes && e in m.nodes[id].Submitted() ==> e.source == id
  }

  ghost predicate Drained(m: Mesh) {
    forall id :: id in m.nodes ==> m.nodes[id].Quiescent()
  }

  /** Gossip does not bring a node its own broadcasts; everybody else got them. */
  ghost predicate Delivered(m: Mesh) {
    forall id, e :: id in m.nodes && e in m.gossip ==> e in m.nodes[id].seen || e in m.nodes[id].attempted
  }

  ghost predicate Settled(m: Mesh) { Drained(m) && Delivered(m) }

  // ---------- what runs keep ----------

  /** No insert fails; sends and broadcasts may. */
  ghost predicate InsertsSucceed(steps: seq<Step>) {
    forall i :: 0 <= i < |steps| && (steps[i].Take? || steps[i].Receive?) ==> steps[i].ok
  }

  /** Nothing taken or received is forgotten: its id is in the table. */
  ghost predicate Stored(self: NodeId, n: Node) {
    && n.initial == map[]
    && (forall e :: e in n.taken ==> e.id in n.events)
    && (forall e :: e in n.seen && e.source != self ==> e.id in n.events)
  }

  ghost predicate AllStored(m: Mesh) { forall id :: id in m.nodes ==> Stored(id, m.nodes[id]) }

  lemma StepStored(n: Node, step: Step, gossip: set<Event>)
    requires Enabled(Mesh(map[step.at := n], gossip), step) && InsertsSucceed([step]) && Stored(step.at, n)
    ensures Stored(step.at, StepNode(n, step, gossip))
  {
    assert [step][0] == step;
    match step
    case Take(_, _) => assert n.appQueue[0].id in StepNode(n, step, gossip).events;
    case Receive(_, e, _) => assert e.source != step.at ==> e.id in StepNode(n, step, gossip).events;
    case _ =>
  }

  lemma {:induction false} AlwaysStored(m: Mesh, steps: seq<Step>)
    requires Init(m) && EmptyTables(m) && Exec(m, steps).Some? && InsertsSucceed(steps)
    ensures AllStored(Exec(m, steps).value)
  {
    if steps != [] {
      var before, step := steps[..|steps| - 1], steps[|steps| - 1];
      AlwaysStored(m, before);
      var m0 := Exec(m, before).value;
      StepStored(m0.nodes[step.at], step, m0.gossip);
    }
  }

  /** Every row of a node was broadcast, is about to be, or came from gossip. */
  ghost predicate OnItsWay(n: Node, gossip: set<Event>) {
    && n.lost == []
    && (forall id :: id in n.events ==>
          || n.events[id] in gossip
          || n.events[id] in n.outbound
          || n.storage == Holding(n.events[id]))
  }

  ghost predicate AllOnTheirWay(m: Mesh) { forall id :: id in m.nodes ==> OnItsWay(m.nodes[id], m.gossip) }

  lemma StepOnItsWay(m: Mesh, step: Step)
    requires Enabled(m, step) && step.Clean() && OnItsWay(m.nodes[step.at], m.gossip)
    ensures OnItsWay(Apply(m, step).nodes[step.at], Apply(m, step).gossip)
  {
    var n := m.nodes[step.at];
    var n' := Apply(m, step).nodes[step.at];
    match step
    case Send(_, _) => assert n'.outbound[|n.outbound|] == n.storage.event;
    case Broadcast(_, _) => assert n.outbound == [n.outbound[0]] + n'.outbound;
    case _ =>
  }

  lemma {:induction false} AlwaysOnTheirWay(m: Mesh, steps: seq<Step>)
    requires Init(m) && EmptyTables(m) && Exec(m, steps).Some? && Clean(steps)
    ensures AllOnTheirWay(Exec(m, steps).value)
  {
    if steps != [] {
      var before, step := steps[..|steps| - 1], steps[|steps| - 1];
      AlwaysOnTheirWay(m, before);
      StepOnItsWay(Exec(m, before).value, step);
    }
  }

  // ---------- what the tables hold ----------

  /** The event reached node `id`: it was submitted there, or broadcast by another
      node under another name. */
  ghost predicate Reached(m: Mesh, id: NodeId, e: Event)
    requires id in m.nodes
  {
    e in m.nodes[id].Submitted() || (e in m.gossip && e.source != id)
  }

  ghost predicate Holds(n: Node, e: Event) { e.id in n.events && n.events[e.id] == e }

  /** Each table holds exactly the events that reached its node. */
  ghost predicate TablesAreReached(m: Mesh) {
    forall id, e :: id in m.nodes ==> (Holds(m.nodes[id], e) <==> Reached(m, id, e))
  }

  lemma RowsReached(m: Mesh, id: NodeId, k: string)
    requires Safe(m) && AllStored(m) && id in m.nodes && k in m.nodes[id].events
    ensures var e := m.nodes[id].events[k]; e.id == k && Reached(m, id, e) && SubmittedSomewhere(m, e)
  {
    var n := m.nodes[id];
    var e := n.events[k];
    assert Provenance(id, n, m.gossip);
    if e in n.taken {
      assert e in n.Submitted();
    } else {
      GossipIsSubmitted(m, e);
    }
  }

  lemma SettledTable(m: Mesh, id: NodeId)
    requires Safe(m) && AllStored(m) && Settled(m) && UniqueIds(m) && id in m.nodes
    ensures forall e :: Holds(m.nodes[id], e) <==> Reached(m, id, e)
  {
    var n := m.nodes[id];
    forall e ensures Holds(n, e) <==> Reached(m, id, e) {
      if Holds(n, e) { RowsReached(m, id, e.id); }
      if Reached(m, id, e) {
        if e in n.Submitted() {
          assert e in n.taken;
        } else {
          GossipIsSubmitted(m, e);
          if e in n.attempted { assert e in n.ToNetwork(); }
        }
        assert e.id in n.events;
        RowsReached(m, id, e.id);
      }
    }
  }

  /** In every settled state of a run from empty tables in which no insert failed,
      each table holds exactly the events that reached its node, whatever the
      interleaving of the actors, whatever gossip delayed, duplicated or reordered,
      and whichever sends and broadcasts failed on the way. */
  lemma SettledTables(m: Mesh, steps: seq<Step>)
    requires Init(m) && EmptyTables(m) && Exec(m, steps).Some? && InsertsSucceed(steps)
    requires Settled(Exec(m, steps).value) && UniqueIds(Exec(m, steps).value)
    ensures TablesAreReached(Exec(m, steps).value)
  {
    var m' := Exec(m, steps).value;
    AlwaysSafe(m, steps);
    AlwaysStored(m, steps);
    forall id, e | id in m'.nodes ensures Holds(m'.nodes[id], e) <==> Reached(m', id, e) { SettledTable(m', id); }
  }

  ghost predicate SameTables(m: Mesh) {
    forall a, b :: a in m.nodes && b in m.nodes ==> m.nodes[a].events == m.nodes[b].events
  }

  /** An event that names a node of the mesh as its source was (also) submitted at
      that node. */
  ghost predicate SourcesSubmit(m: Mesh) {
    forall e :: SubmittedSomewhere(m, e) && e.source in m.nodes ==> e in m.nodes[e.source].Submitted()
  }

  /** Every event was broadcast with success, unless it was submitted at all nodes. */
  ghost predicate GotOut(m: Mesh) {
    forall e, id :: SubmittedSomewhere(m, e) && e !in m.gossip && id in m.nodes ==> e in m.nodes[id].Submitted()
  }

  /** Convergence, and its exact condition, whichever sends and broadcasts failed:
      all tables are equal if and only if no application submitted an event in the
      name of another node of the mesh that did not submit it itself, and every
      event got out of the node it was submitted at or was submitted everywhere. */
  lemma ConvergesExactlyWhenEventsGetOut(m: Mesh, steps: seq<Step>)
    requires Init(m) && EmptyTables(m) && Exec(m, steps).Some? && InsertsSucceed(steps)
    requires Settled(Exec(m, steps).value) && UniqueIds(Exec(m, steps).value)
    ensures SameTables(Exec(m, steps).value)
            <==> SourcesSubmit(Exec(m, steps).value) && GotOut(Exec(m, steps).value)
  {
    AlwaysSafe(m, steps);
    AlwaysStored(m, steps);
    SettledTables(m, steps);
    SameExactly(Exec(m, steps).value);
  }

  lemma SameExactly(m: Mesh)
    requires Safe(m) && AllStored(m) && TablesAreReached(m)
    ensures SameTables(m) <==> SourcesSubmit(m) && GotOut(m)
  {
    if SourcesSubmit(m) && GotOut(m) {
      forall a, b | a in m.nodes && b in m.nodes ensures m.nodes[a].events == m.nodes[b].events {
        SameRows(m, a, b);
        SameRows(m, b, a);
      }
    }
    if SameTables(m) { SameMeansOut(m); }
  }

  lemma SameMeansOut(m: Mesh)
    requires SameTables(m) && TablesAreReached(m)
    ensures SourcesSubmit(m) && GotOut(m)
  {
    forall e, id | SubmittedSomewhere(m, e) && id in m.nodes ensures Reached(m, id, e) { SameReached(m, id, e); }
  }

  lemma SameReached(m: Mesh, id: NodeId, e: Event)
    requires SameTables(m) && TablesAreReached(m) && SubmittedSomewhere(m, e) && id in m.nodes
    ensures Reached(m, id, e)
  {
    var a :| a in m.nodes && e in m.nodes[a].Submitted();
    assert Reached(m, a, e) && Holds(m.nodes[a], e);
    assert m.nodes[a].events == m.nodes[id].events;
    assert Holds(m.nodes[id], e);
  }

  ghost predicate Within(s: Table, t: Table) { forall k :: k in s ==> k in t && t[k] == s[k] }

  lemma SameRows(m: Mesh, a: NodeId, b: NodeId)
    requires Safe(m) && AllStored(m) && SourcesSubmit(m) && GotOut(m) && a in m.nodes && b in m.nodes
    requires TablesAreReached(m)
    ensures Within(m.nodes[a].events, m.nodes[b].events)
  {
    forall k | k in m.nodes[a].events
      ensures k in m.nodes[b].events && m.nodes[b].events[k] == m.nodes[a].events[k]
    {
      RowsReached(m, a, k);
      assert Reached(m, b, m.nodes[a].events[k]);
    }
  }

  lemma EverythingGetsOut(m: Mesh)
    requires Safe(m) && AllStored(m) && AllOnTheirWay(m) && Drained(m) && UniqueIds(m)
    ensures forall e :: SubmittedSomewhere(m, e) ==> e in m.gossip
  {
    forall e | SubmittedSomewhere(m, e) ensures e in m.gossip {
      var id :| id in m.nodes && e in m.nodes[id].Submitted();
      assert e in m.nodes[id].taken;
      RowsReached(m, id, e.id);
    }
  }

  /** In a run without failures every event gets out, so all that can keep tables
      apart is an event submitted only in another node's name. */
  lemma ConvergesExactlyWhenSourcesSubmit(m: Mesh, steps: seq<Step>)
    requires Init(m) && EmptyTables(m) && Exec(m, steps).Some? && Clean(steps)
    requires Settled(Exec(m, steps).value) && UniqueIds(Exec(m, steps).value)
    ensures SameTables(Exec(m, steps).value) <==> SourcesSubmit(Exec(m, steps).value)
  {
    AlwaysSafe(m, steps);
    AlwaysStored(m, steps);
    AlwaysOnTheirWay(m, steps);
    EverythingGetsOut(Exec(m, steps).value);
    ConvergesExactlyWhenEventsGetOut(m, steps);
  }

  /** When applications submit only under their own node id, every table is the set
      of all submitted events, and every node delivered to its application each
      event submitted elsewhere exactly once, and nothing else. */
  lemma ExactlyOnceDelivery(m: Mesh, steps: seq<Step>, id: NodeId)
    requires Init(m) && EmptyTables(m) && Exec(m, steps).Some? && Clean(steps)
    requires Settled(Exec(m, steps).value) && UniqueIds(Exec(m, steps).value)
    requires SubmittedAtSource(Exec(m, steps).value) && id in m.nodes
    ensures var m' := Exec(m, steps).value;
            && id in m'.nodes
            && (forall e :: Holds(m'.nodes[id], e) <==> SubmittedSomewhere(m', e))
            && DistinctIds(m'.nodes[id].toApp)
            && (forall e :: e in m'.nodes[id].toApp <==> SubmittedSomewhere(m', e) && e.source != id)
  {
    var m' := Exec(m, steps).value;
    AlwaysSafe(m, steps);
    AlwaysStored(m, steps);
    AlwaysOnTheirWay(m, steps);
    EverythingGetsOut(m');
    RowsStay(m, steps, id);
    SettledTable(m', id);
    var n := m'.nodes[id];
    ConservedIsExactlyOnce(n);
    forall e ensures Holds(n, e) <==> SubmittedSomewhere(m', e) {
      if Holds(n, e) { RowsReached(m', id, e.id); }
      if SubmittedSomewhere(m', e) { assert Reached(m', id, e); }
    }
    forall e ensures e in n.toApp <==> SubmittedSomewhere(m', e) && e.source != id {
      if e in n.toApp {
        assert Foreign(id, m'.gossip, e);
        GossipIsSubmitted(m', e);
      }
      if SubmittedSomewhere(m', e) && e.source != id {
        assert Holds(n, e);
        DeliveredNotSent(m', id, e);
      }
    }
  }

  lemma {:induction false} CountedIsThere(es: seq<Event>, id: string)
    requires Count(es, id) > 0
    ensures exists e :: e in es && e.id == id
  {
    var last := es[|es| - 1];
    if last.id != id {
      CountedIsThere(es[..|es| - 1], id);
      var e :| e in es[..|es| - 1] && e.id == id;
      assert e in es;
    } else {
      assert last in es;
    }
  }

  /** Where the id of a stored event went in a drained node. */
  lemma SentOrDelivered(n: Node, id: string)
    requires Conserved(n) && n.Quiescent() && n.initial == map[] && n.lost == [] && id in n.events
    ensures (exists e :: e in n.ToNetwork() && e.id == id) || (exists e :: e in n.toApp && e.id == id)
  {
    assert InTable(n.events, id) == Accounted(n, id);
    if Count(n.ToNetwork(), id) > 0 { CountedIsThere(n.ToNetwork(), id); } else { CountedIsThere(n.toApp, id); }
  }

  lemma DeliveredNotSent(m: Mesh, id: NodeId, e: Event)
    requires Safe(m) && AllStored(m) && AllOnTheirWay(m) && Settled(m) && UniqueIds(m) && SubmittedAtSource(m)
    requires id in m.nodes && e.id in m.nodes[id].events && SubmittedSomewhere(m, e) && e.source != id
    ensures e in m.nodes[id].toApp
  {
    var n := m.nodes[id];
    SentOrDelivered(n, e.id);
    if f :| f in n.ToNetwork() && f.id == e.id {
      assert f in n.Submitted();
      assert SubmittedSomewhere(m, f);
      assert false;
    } else {
      var f :| f in n.toApp && f.id == e.id;
      GossipIsSubmitted(m, f);
    }
  }
}
