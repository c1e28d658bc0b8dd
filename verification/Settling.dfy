/** Settled states are always within reach, and the hypotheses of convergence
    cannot be dropped. */
module Settling {
  import opened Wrappers
  import opened Events
  import opened Replication
  import opened ReplicationSafety
  import opened Convergence

  // ---------- schedules ----------

  lemma {:induction false} ExecConcat(m: Mesh, first: seq<Step>, second: seq<Step>)
    requires Exec(m, first).Some?
    ensures Exec(m, first + second) == Exec(Exec(m, first).value, second)
    decreases |second|
  {
    if second == [] {
      assert first + second == first;
    } else {
      ExecConcat(m, first, second[..|second| - 1]);
      assert (first + second)[..|first + second| - 1] == first + second[..|second| - 1];
    }
  }

  lemma ExecOne(m: Mesh, step: Step)
    requires Enabled(m, step)
    ensures Exec(m, [step]) == Some(Apply(m, step))
  {
    assert [step][..0] == [];
  }

  /** A schedule without failures and without new submissions. */
  ghost predicate Working(steps: seq<Step>) {
    forall i :: 0 <= i < |steps| ==> steps[i].Clean() && !steps[i].App?
  }

  /** `steps` is such a schedule and leads from m to m'. */
  ghost predicate Leads(m: Mesh, steps: seq<Step>, m': Mesh) {
    Working(steps) && Exec(m, steps) == Some(m')
  }

  lemma LeadsOn(m: Mesh, first: seq<Step>, m1: Mesh, second: seq<Step>, m2: Mesh)
    requires Leads(m, first, m1) && Leads(m1, second, m2)
    ensures Leads(m, first + second, m2)
  {
    ExecConcat(m, first, second);
  }

  lemma LeadsOne(m: Mesh, step: Step)
    requires Enabled(m, step) && step.Clean() && !step.App?
    ensures Leads(m, [step], Apply(m, step))
  {
    ExecOne(m, step);
  }

  // ---------- draining ----------

  ghost function Work(n: Node): nat {
    3 * |n.appQueue| + (if n.storage.Holding? then 2 else 0) + |n.outbound| + (if n.network.Holding? then 1 else 0)
  }

  ghost function NextStep(id: NodeId, n: Node): Step
    requires !n.Quiescent()
  {
    if n.network.Holding? then Forward(id, true)
    else if n.storage.Holding? then Send(id, true)
    else if n.appQueue != [] then Take(id, true)
    else Broadcast(id, true)
  }

  /** Only node `id` may differ, and gossip may have grown. */
  ghost predicate OnlyAt(m: Mesh, id: NodeId, m': Mesh) {
    && m'.nodes.Keys == m.nodes.Keys
    && m.gossip <= m'.gossip
    && forall other :: other in m.nodes && other != id ==> m'.nodes[other] == m.nodes[other]
  }

  lemma {:induction false} DrainNode(m: Mesh, id: NodeId) returns (steps: seq<Step>, m': Mesh)
    requires id in m.nodes
    ensures Leads(m, steps, m') && OnlyAt(m, id, m') && m'.nodes[id].Quiescent()
    decreases Work(m.nodes[id])
  {
    if m.nodes[id].Quiescent() {
      return [], m;
    }
    var step := NextStep(id, m.nodes[id]);
    var m1 := Apply(m, step);
    LeadsOne(m, step);
    var rest;
    rest, m' := DrainNode(m1, id);
    LeadsOn(m, [step], m1, rest, m');
    steps := [step] + rest;
  }

  lemma {:induction false} DrainAll(m: Mesh, ids: set<NodeId>) returns (steps: seq<Step>, m': Mesh)
    requires ids <= m.nodes.Keys
    ensures Leads(m, steps, m') && m'.nodes.Keys == m.nodes.Keys
    ensures forall id :: id in ids ==> m'.nodes[id].Quiescent()
    decreases ids
  {
    if ids == {} {
      return [], m;
    }
    var id :| id in ids;
    var first, m1 := DrainAll(m, ids - {id});
    var last;
    last, m' := DrainNode(m1, id);
    LeadsOn(m, first, m1, last, m');
    steps := first + last;
  }

  // ---------- delivering ----------

  ghost function Pending(m: Mesh): set<(NodeId, Event)> {
    set id, e | id in m.nodes && e in m.gossip && e !in m.nodes[id].seen && e !in m.nodes[id].attempted :: (id, e)
  }

  lemma DeliverOne(m: Mesh, id: NodeId, e: Event) returns (steps: seq<Step>, m': Mesh)
    requires Drained(m) && (id, e) in Pending(m)
    ensures Leads(m, steps, m') && Drained(m') && Pending(m') == Pending(m) - {(id, e)}
  {
    var receive := Receive(id, e, true);
    LeadsOne(m, receive);
    steps, m' := [receive], Apply(m, receive);
    if m'.nodes[id].network.Holding? {
      var forward := Forward(id, true);
      LeadsOne(m', forward);
      LeadsOn(m, steps, m', [forward], Apply(m', forward));
      steps, m' := steps + [forward], Apply(m', forward);
    }
    forall p ensures p in Pending(m') <==> p in Pending(m) && p != (id, e) {
      if p.0 != id { assert p.0 in m.nodes ==> m'.nodes[p.0] == m.nodes[p.0]; }
    }
  }

  lemma {:induction false} DeliverAll(m: Mesh) returns (steps: seq<Step>, m': Mesh)
    requires Drained(m)
    ensures Leads(m, steps, m') && Settled(m')
    decreases |Pending(m)|
  {
    if Pending(m) == {} {
      forall id, e | id in m.nodes && e in m.gossip ensures e in m.nodes[id].seen || e in m.nodes[id].attempted {
        assert (id, e) !in Pending(m);
      }
      return [], m;
    }
    var p :| p in Pending(m);
    var first, m1 := DeliverOne(m, p.0, p.1);
    var rest;
    rest, m' := DeliverAll(m1);
    LeadsOn(m, first, m1, rest, m');
    steps := first + rest;
  }

  /** No deadlock: from every state of the mesh, reachable or not, the actors and
      gossip can go on to a settled state without a new submission. */
  lemma CanAlwaysSettle(m: Mesh)
    ensures exists steps, m' :: Leads(m, steps, m') && Settled(m')
  {
    var first, m1 := DrainAll(m, m.nodes.Keys);
    var second, m2 := DeliverAll(m1);
    LeadsOn(m, first, m1, second, m2);
  }

  // ---------- the hypotheses are needed ----------

  ghost predicate Diverges(m: Mesh, steps: seq<Step>) {
    && Init(m) && EmptyTables(m) && Exec(m, steps).Some? && Settled(Exec(m, steps).value)
    && !SameTables(Exec(m, steps).value)
  }

  function Pair(): Mesh { Mesh(map["A" := Started(map[]), "B" := Started(map[])], {}) }

  /** The state of a node after it took one new event all the way to gossip. */
  function Published(n: Node, e: Event): Node {
    n.(events := n.events[e.id := e], taken := n.taken + [e], attempted := n.attempted + [e])
  }

  /** One new event submitted at a drained node, up to its broadcast. */
  lemma PublishAt(m: Mesh, id: NodeId, e: Event, ok: bool) returns (steps: seq<Step>, m': Mesh)
    requires id in m.nodes && m.nodes[id].Quiescent() && e.id !in m.nodes[id].events
    ensures Exec(m, steps) == Some(m') && (ok ==> Clean(steps))
    ensures m' == Mesh(m.nodes[id := Published(m.nodes[id], e)], if ok then m.gossip + {e} else m.gossip)
  {
    var s1, s2, s3, s4 := App(id, e), Take(id, true), Send(id, true), Broadcast(id, ok);
    var m1 := Apply(m, s1);
    assert m1.nodes[id].appQueue == [e];
    var m2 := Apply(m1, s2);
    var m3 := Apply(m2, s3);
    assert m3.nodes[id].outbound == [e];
    m' := Apply(m3, s4);
    steps := [s1] + [s2] + [s3] + [s4];
    ExecOne(m, s1);
    ExecConcat(m, [s1], [s2]);
    ExecOne(m1, s2);
    ExecConcat(m, [s1] + [s2], [s3]);
    ExecOne(m2, s3);
    ExecConcat(m, [s1] + [s2] + [s3], [s4]);
    ExecOne(m3, s4);
  }

  /** Receiving an event that is skipped: it names the node, or its id is taken. */
  lemma SkipAt(m0: Mesh, steps: seq<Step>, m: Mesh, id: NodeId, e: Event) returns (steps': seq<Step>, m': Mesh)
    requires Exec(m0, steps) == Some(m) && Clean(steps)
    requires id in m.nodes && m.nodes[id].network == Empty && e in m.gossip
    requires e.source == id || e.id in m.nodes[id].events
    ensures Exec(m0, steps') == Some(m') && Clean(steps')
    ensures m' == m.(nodes := m.nodes[id := m.nodes[id].(seen := m.nodes[id].seen + {e})])
  {
    var receive := Receive(id, e, true);
    ExecConcat(m0, steps, [receive]);
    ExecOne(m, receive);
    steps', m' := steps + [receive], Apply(m, receive);
  }

  lemma DivergesWhen(steps: seq<Step>, m: Mesh)
    requires Exec(Pair(), steps) == Some(m) && m.nodes.Keys == {"A", "B"}
    requires m.nodes["A"].Quiescent() && m.nodes["B"].Quiescent()
    requires m.gossip <= m.nodes["A"].seen + Elements(m.nodes["A"].attempted)
    requires m.gossip <= m.nodes["B"].seen + Elements(m.nodes["B"].attempted)
    requires m.nodes["A"].events != m.nodes["B"].events
    ensures Diverges(Pair(), steps)
  {
    forall id, e | id in m.nodes && e in m.gossip ensures e in m.nodes[id].seen || e in m.nodes[id].attempted {
      if id == "A" { assert e in m.nodes["A"].seen + Elements(m.nodes["A"].attempted); }
      else { assert e in m.nodes["B"].seen + Elements(m.nodes["B"].attempted); }
    }
  }

  /** An event submitted at A under B's name never reaches B's table. */
  lemma ForgedSourceDiverges()
    ensures exists m, steps :: Diverges(m, steps) && Clean(steps) && UniqueIds(Exec(m, steps).value)
  {
    var e := Event("x", "", "B", 0);
    var steps, m := PublishAt(Pair(), "A", e, true);
    steps, m := SkipAt(Pair(), steps, m, "B", e);
    assert "x" in m.nodes["A"].events && "x" !in m.nodes["B"].events;
    DivergesWhen(steps, m);
    assert forall f :: SubmittedSomewhere(m, f) ==> f == e;
  }

  /** Two events with one id: each node keeps its own. */
  lemma SharedIdDiverges()
    ensures exists m, steps :: Diverges(m, steps) && Clean(steps) && SubmittedAtSource(Exec(m, steps).value)
  {
    var e, f := Event("x", "", "A", 0), Event("x", "", "B", 0);
    var steps, m := PublishAt(Pair(), "A", e, true);
    var more, m1 := PublishAt(m, "B", f, true);
    ExecConcat(Pair(), steps, more);
    steps, m := SkipAt(Pair(), steps + more, m1, "B", e);
    steps, m := SkipAt(Pair(), steps, m, "A", f);
    assert m.nodes["A"].events["x"] == e && m.nodes["B"].events["x"] == f;
    DivergesWhen(steps, m);
    assert m.nodes["A"].Submitted() == [e] && m.nodes["B"].Submitted() == [f];
  }

  /** One failed broadcast, and the event stays at A. */
  lemma FailedBroadcastDiverges()
    ensures exists m, steps :: Diverges(m, steps)
              && UniqueIds(Exec(m, steps).value) && SubmittedAtSource(Exec(m, steps).value)
  {
    var e := Event("x", "", "A", 0);
    var steps, m := PublishAt(Pair(), "A", e, false);
    assert "x" in m.nodes["A"].events && "x" !in m.nodes["B"].events;
    assert forall f :: SubmittedSomewhere(m, f) ==> f == e;
    assert Diverges(Pair(), steps);
  }

  // ---------- a failed broadcast is never repaired ----------

  /** What a node hands to its network actor is in its table. */
  ghost predicate HandedIsRow(n: Node) {
    (forall e :: e in n.ToNetwork() ==> Holds(n, e)) && (n.storage.Holding? ==> Holds(n, n.storage.event))
  }

  lemma StepHandedIsRow(n: Node, step: Step, gossip: set<Event>)
    requires Enabled(Mesh(map[step.at := n], gossip), step) && HandedIsRow(n)
    ensures HandedIsRow(StepNode(n, step, gossip))
  {
    var n' := StepNode(n, step, gossip);
    if step.Send? && step.ok {
      assert n'.ToNetwork() == n.ToNetwork() + [n.storage.event];
    } else {
      assert n'.ToNetwork() == n.ToNetwork();
    }
  }

  lemma {:induction false} AlwaysHandedIsRow(m: Mesh, steps: seq<Step>)
    requires Init(m) && Exec(m, steps).Some?
    ensures forall id :: id in m.nodes ==>
              id in Exec(m, steps).value.nodes && HandedIsRow(Exec(m, steps).value.nodes[id])
  {
    if steps != [] {
      var before, step := steps[..|steps| - 1], steps[|steps| - 1];
      AlwaysHandedIsRow(m, before);
      var m0 := Exec(m, before).value;
      RowsStay(m, before, step.at);
      StepHandedIsRow(m0.nodes[step.at], step, m0.gossip);
    }
  }

  /** The node is not about to broadcast e, and where e still waits to be taken its
      id is known. */
  ghost predicate NotOnTheWay(n: Node, e: Event) {
    && e !in n.outbound
    && n.storage != Holding(e)
    && (e in n.appQueue ==> e.id in n.events)
  }

  /** Nobody has broadcast e or is about to. */
  ghost predicate Stranded(m: Mesh, e: Event) {
    e !in m.gossip && forall id :: id in m.nodes ==> NotOnTheWay(m.nodes[id], e)
  }

  /** The event is submitted again only at nodes that know its id. */
  ghost predicate NotSubmittedAnew(m: Mesh, more: seq<Step>, e: Event) {
    forall i :: 0 <= i < |more| && more[i].App? && more[i].event == e && more[i].at in m.nodes ==>
      e.id in m.nodes[more[i].at].events
  }

  lemma StepNotOnTheWay(n: Node, step: Step, gossip: set<Event>, e: Event)
    requires Enabled(Mesh(map[step.at := n], gossip), step) && NotOnTheWay(n, e) && e !in gossip
    requires step.App? && step.event == e ==> e.id in n.events
    ensures NotOnTheWay(StepNode(n, step, gossip), e)
    ensures Holds(StepNode(n, step, gossip), e) ==> Holds(n, e)
  {
  }

  lemma StepStranded(m: Mesh, step: Step, e: Event)
    requires Enabled(m, step) && Stranded(m, e)
    requires step.App? && step.event == e ==> e.id in m.nodes[step.at].events
    ensures Stranded(Apply(m, step), e)
    ensures Holds(Apply(m, step).nodes[step.at], e) ==> Holds(m.nodes[step.at], e)
  {
    StepNotOnTheWay(m.nodes[step.at], step, m.gossip, e);
  }

  lemma {:induction false} StaysStranded(m: Mesh, more: seq<Step>, e: Event, id: NodeId)
    requires Stranded(m, e) && Exec(m, more).Some? && NotSubmittedAnew(m, more, e) && id in m.nodes
    ensures var m' := Exec(m, more).value;
            Stranded(m', e) && id in m'.nodes && (Holds(m'.nodes[id], e) ==> Holds(m.nodes[id], e))
  {
    if more != [] {
      var before, step := more[..|more| - 1], more[|more| - 1];
      StaysStranded(m, before, e, id);
      RowsStay(m, before, step.at);
      StepStranded(Exec(m, before).value, step, e);
    }
  }

  /** The state right after a failed broadcast of an event no other node submitted. */
  lemma FailedBroadcastStrands(m: Mesh, before: seq<Step>, a: NodeId)
    requires Init(m) && EmptyTables(m) && Exec(m, before).Some?
    requires Enabled(Exec(m, before).value, Broadcast(a, false))
    requires var m1 := Exec(m, before).value;
             forall id :: id in m1.nodes && id != a ==> m1.nodes[a].outbound[0] !in m1.nodes[id].Submitted()
    ensures var m1 := Exec(m, before).value;
            var m2, e := Apply(m1, Broadcast(a, false)), m1.nodes[a].outbound[0];
            && Stranded(m2, e) && Holds(m2.nodes[a], e)
            && forall b :: b in m2.nodes && b != a ==> !Holds(m2.nodes[b], e)
  {
    var m1 := Exec(m, before).value;
    var n, e := m1.nodes[a], m1.nodes[a].outbound[0];
    var m2 := Apply(m1, Broadcast(a, false));
    AlwaysSafe(m, before);
    AlwaysHandedIsRow(m, before);
    RowsStay(m, before, a);
    InitialStays(m, before);
    OnlyOnceInHand(n);
    assert e in n.ToNetwork();
    forall b | b in m1.nodes && b != a
      ensures !Holds(m1.nodes[b], e) && e !in m1.nodes[b].ToNetwork() && m1.nodes[b].storage != Holding(e)
    {
      assert Provenance(b, m1.nodes[b], m1.gossip);
    }
    NeverBroadcast(m1, a, e);
  }

  lemma NeverBroadcast(m: Mesh, a: NodeId, e: Event)
    requires Broadcasters(m) && a in m.nodes && e !in m.nodes[a].attempted
    requires forall b :: b in m.nodes && b != a ==> e !in m.nodes[b].ToNetwork()
    ensures e !in m.gossip
  {
    assert forall b :: b in m.nodes && e !in m.nodes[b].ToNetwork() ==> e !in m.nodes[b].attempted;
  }

  lemma {:induction false} InitialStays(m: Mesh, steps: seq<Step>)
    requires Exec(m, steps).Some?
    ensures forall id :: id in m.nodes ==>
              id in Exec(m, steps).value.nodes && Exec(m, steps).value.nodes[id].initial == m.nodes[id].initial
  {
    if steps != [] {
      InitialStays(m, steps[..|steps| - 1]);
    }
  }

  lemma NowhereElse(a: seq<Event>, b: seq<Event>)
    requires DistinctIds(a + b) && b != []
    ensures b[0] !in a && b[0] !in b[1..]
  {
    assert (a + b)[|a|] == b[0];
    forall j | 0 <= j < |a| ensures a[j] != b[0] { assert (a + b)[j] == a[j]; }
    forall j | 0 < j < |b| ensures b[j] != b[0] { assert (a + b)[|a| + j] == b[j]; }
  }

  /** The next event for broadcast is nowhere else on its way out of the node. */
  lemma OnlyOnceInHand(n: Node)
    requires Conserved(n) && n.outbound != []
    ensures var e := n.outbound[0]; e !in n.attempted && e !in n.outbound[1..] && n.storage != Holding(e)
  {
    var e := n.outbound[0];
    ConservedIsExactlyOnce(n);
    NowhereElse(n.attempted, n.outbound);
    assert e in n.ToNetwork();
    CountMember(n.ToNetwork(), e);
    assert InTable(n.events, e.id) == Accounted(n, e.id);
  }

  /** A broadcast that failed is never repaired: whatever the mesh does afterwards,
      and even if the application submits the event again at the same node, the
      event stays at that node and reaches no other, as long as no other node
      submits it itself. */
  lemma FailedBroadcastIsForGood(m: Mesh, before: seq<Step>, a: NodeId, more: seq<Step>, b: NodeId)
    requires Init(m) && EmptyTables(m) && Exec(m, before).Some?
    requires Enabled(Exec(m, before).value, Broadcast(a, false))
    requires var m1 := Exec(m, before).value;
             forall id :: id in m1.nodes && id != a ==> m1.nodes[a].outbound[0] !in m1.nodes[id].Submitted()
    requires var m1 := Exec(m, before).value;
             var m2 := Apply(m1, Broadcast(a, false));
             Exec(m2, more).Some? && NotSubmittedAnew(m2, more, m1.nodes[a].outbound[0])
    requires b in m.nodes && b != a
    ensures var m1 := Exec(m, before).value;
            var m3, e := Exec(Apply(m1, Broadcast(a, false)), more).value, m1.nodes[a].outbound[0];
            && a in m3.nodes && Holds(m3.nodes[a], e)
            && b in m3.nodes && !Holds(m3.nodes[b], e)
            && e !in m3.gossip && !SameTables(m3)
  {
    var m1 := Exec(m, before).value;
    var m2, e := Apply(m1, Broadcast(a, false)), m1.nodes[a].outbound[0];
    RowsStay(m, before, b);
    FailedBroadcastStrands(m, before, a);
    StaysStranded(m2, more, e, b);
    RowsStay(m2, more, a);
  }
}
