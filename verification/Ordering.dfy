/** The order in which events move: every channel is a queue, so an event never
    overtakes one that was there before it. */
module Ordering {
  import opened Wrappers
  import opened Events
  import opened Replication
  import opened ReplicationSafety

  // ---------- queues and histories only grow at the end ----------

  ghost predicate Extends(n: Node, n': Node) {
    && n.Submitted() <= n'.Submitted()
    && n.ToNetwork() <= n'.ToNetwork()
    && n.taken <= n'.taken
    && n.attempted <= n'.attempted
    && n.toApp <= n'.toApp
    && n.lost <= n'.lost
  }

  lemma StepExtends(n: Node, step: Step, gossip: set<Event>)
    requires Enabled(Mesh(map[step.at := n], gossip), step)
    ensures Extends(n, StepNode(n, step, gossip))
  {
    var n' := StepNode(n, step, gossip);
    match step
    case App(_, e) => assert n'.Submitted() == n.Submitted() + [e];
    case Take(_, _) => assert n'.Submitted() == n.Submitted();
    case Send(_, ok) => if ok { assert n'.ToNetwork() == n.ToNetwork() + [n.storage.event]; }
    case Broadcast(_, _) => assert n'.ToNetwork() == n.ToNetwork();
    case _ =>
  }

  lemma ExtendsOn(n: Node, n1: Node, n2: Node)
    requires Extends(n, n1) && Extends(n1, n2)
    ensures Extends(n, n2)
  {
  }

  /** Whatever was submitted, taken, handed on, broadcast, delivered or lost up to
      some point of a run stays in front of everything that comes later. */
  lemma {:induction false} AlwaysExtends(m: Mesh, steps: seq<Step>, id: NodeId)
    requires Exec(m, steps).Some? && id in m.nodes
    ensures id in Exec(m, steps).value.nodes && Extends(m.nodes[id], Exec(m, steps).value.nodes[id])
  {
    if steps != [] {
      var before, step := steps[..|steps| - 1], steps[|steps| - 1];
      AlwaysExtends(m, before, id);
      var m0 := Exec(m, before).value;
      if step.at == id {
        StepExtends(m0.nodes[id], step, m0.gossip);
        ExtendsOn(m.nodes[id], m0.nodes[id], Apply(m0, step).nodes[id]);
      }
    }
  }

  // ---------- what a run says about the order ----------

  /** The events the application of a node submits in a run, in order. */
  ghost function Submissions(steps: seq<Step>, id: NodeId): seq<Event> {
    if steps == [] then []
    else
      var step := steps[|steps| - 1];
      Submissions(steps[..|steps| - 1], id) + if step.App? && step.at == id then [step.event] else []
  }

  /** The event a step adds to the table of node n, if any. */
  ghost function Inserted(n: Node, step: Step): seq<Event> {
    if step.Take? && step.ok && n.appQueue != [] && n.appQueue[0].id !in n.events then [n.appQueue[0]]
    else if step.Receive? && step.ok && step.event.source != step.at && step.event.id !in n.events then [step.event]
    else []
  }

  /** The rows one actor of a node adds in a run, in the order of insertion. */
  ghost function Insertions(m: Mesh, steps: seq<Step>, id: NodeId, byNetwork: bool): seq<Event>
    requires Exec(m, steps).Some? && id in m.nodes
  {
    if steps == [] then []
    else
      var before, step := steps[..|steps| - 1], steps[|steps| - 1];
      var m0 := Exec(m, before).value;
      Insertions(m, before, id, byNetwork)
      + if step.at == id && id in m0.nodes && step.Receive? == byNetwork then Inserted(m0.nodes[id], step) else []
  }

  ghost function InHandSeq(h: Hand): seq<Event> { if h.Holding? then [h.event] else [] }

  /** The events of es that were not lost. */
  ghost function Kept(es: seq<Event>, lost: seq<Event>): seq<Event> {
    if es == [] then []
    else
      var n := |es| - 1;
      Kept(es[..n], lost) + if es[n] in lost then [] else [es[n]]
  }

  /** Both actors forward in the order in which they inserted. */
  ghost predicate InOrder(n: Node, stored: seq<Event>, arrived: seq<Event>) {
    && n.attempted + n.outbound + InHandSeq(n.storage) == Kept(stored, n.lost)
    && n.toApp + InHandSeq(n.network) == Kept(arrived, n.lost)
  }

  lemma KeptSnoc(es: seq<Event>, e: Event, lost: seq<Event>)
    ensures Kept(es + [e], lost) == Kept(es, lost) + if e in lost then [] else [e]
  {
    assert (es + [e])[..|es|] == es;
  }

  /** Losing an event that was the last one kept. */
  lemma {:induction false} LoseLast(es: seq<Event>, lost: seq<Event>, front: seq<Event>, e: Event)
    requires Kept(es, lost) == front + [e] && e !in front
    ensures Kept(es, lost + [e]) == front
  {
    var n := |es| - 1;
    if es[n] in lost {
      assert Kept(es[..n], lost) == front + [e];
      LoseLast(es[..n], lost, front, e);
    } else {
      assert Kept(es, lost)[..|front|] == Kept(es[..n], lost) == front;
      assert es[n] == e;
      LoseOther(es[..n], lost, e);
    }
  }

  lemma {:induction false} LoseOther(es: seq<Event>, lost: seq<Event>, e: Event)
    requires e !in Kept(es, lost)
    ensures Kept(es, lost + [e]) == Kept(es, lost)
  {
    if es != [] {
      var n := |es| - 1;
      assert forall x :: x in Kept(es[..n], lost) ==> x in Kept(es, lost);
      LoseOther(es[..n], lost, e);
      if es[n] !in lost { assert Kept(es, lost)[|Kept(es[..n], lost)|] == es[n]; }
    }
  }

  lemma NotLostYet(n: Node, e: Event)
    requires Conserved(n) && e.id !in n.events
    ensures e !in n.lost
  {
    assert InTable(n.events, e.id) == Accounted(n, e.id);
    if e in n.lost { CountMember(n.lost, e); }
  }

  /** An event in hand is nowhere among those forwarded or in the other hand. */
  lemma InHandOnly(n: Node, e: Event)
    requires Conserved(n) && (n.storage == Holding(e) || n.network == Holding(e))
    ensures e !in n.ToNetwork() && e !in n.toApp && !(n.storage == Holding(e) && n.network == Holding(e))
  {
    assert InTable(n.events, e.id) == Accounted(n, e.id);
    if e in n.ToNetwork() { CountMember(n.ToNetwork(), e); }
    if e in n.toApp { CountMember(n.toApp, e); }
  }

  lemma TakeInOrder(n: Node, step: Step, stored: seq<Event>, arrived: seq<Event>)
    requires step.Take? && n.appQueue != [] && n.storage == Empty && Conserved(n) && InOrder(n, stored, arrived)
    ensures InOrder(StorageTake(n, step.ok), stored + Inserted(n, step), arrived)
  {
    var e, n' := n.appQueue[0], StorageTake(n, step.ok);
    if Inserted(n, step) == [] {
      assert stored + [] == stored && n' == n.(appQueue := n'.appQueue, taken := n'.taken);
    } else {
      NotLostYet(n, e);
      KeptSnoc(stored, e, n.lost);
      assert n.attempted + n.outbound + [] == n.attempted + n.outbound;
    }
  }

  lemma ReceiveInOrder(n: Node, step: Step, stored: seq<Event>, arrived: seq<Event>)
    requires step.Receive? && n.network == Empty && Conserved(n) && InOrder(n, stored, arrived)
    ensures InOrder(NetworkReceive(n, step.at, step.event, step.ok), stored, arrived + Inserted(n, step))
  {
    var e, n' := step.event, NetworkReceive(n, step.at, step.event, step.ok);
    if Inserted(n, step) == [] {
      assert arrived + [] == arrived && n' == n.(seen := n'.seen);
    } else {
      NotLostYet(n, e);
      KeptSnoc(arrived, e, n.lost);
      assert n.toApp + [] == n.toApp;
    }
  }

  lemma SendInOrder(n: Node, ok: bool, stored: seq<Event>, arrived: seq<Event>)
    requires n.storage.Holding? && Conserved(n) && InOrder(n, stored, arrived)
    ensures InOrder(StorageSend(n, ok), stored, arrived)
  {
    var e, n' := n.storage.event, StorageSend(n, ok);
    InHandOnly(n, e);
    if ok {
      assert n'.ToNetwork() + [] == n.ToNetwork() + [e];
    } else {
      assert n'.ToNetwork() + [] == n.ToNetwork();
      LoseLast(stored, n.lost, n.ToNetwork(), e);
      LoseOther(arrived, n.lost, e);
    }
  }

  lemma ForwardInOrder(n: Node, ok: bool, stored: seq<Event>, arrived: seq<Event>)
    requires n.network.Holding? && Conserved(n) && InOrder(n, stored, arrived)
    ensures InOrder(NetworkForward(n, ok), stored, arrived)
  {
    var e, n' := n.network.event, NetworkForward(n, ok);
    InHandOnly(n, e);
    assert n'.ToNetwork() == n.ToNetwork();
    if ok {
      assert n'.toApp + [] == n.toApp + [e];
    } else {
      assert n'.toApp + [] == n.toApp;
      LoseLast(arrived, n.lost, n.toApp, e);
      LoseOther(stored, n.lost, e);
    }
  }

  lemma SameOrder(n: Node, n': Node, stored: seq<Event>, arrived: seq<Event>)
    requires InOrder(n, stored, arrived) && n'.ToNetwork() == n.ToNetwork() && n'.storage == n.storage
    requires n'.toApp == n.toApp && n'.network == n.network && n'.lost == n.lost
    ensures InOrder(n', stored, arrived)
  {
  }

  lemma OtherInOrder(n: Node, step: Step, gossip: set<Event>, stored: seq<Event>, arrived: seq<Event>)
    requires Enabled(Mesh(map[step.at := n], gossip), step) && Conserved(n) && InOrder(n, stored, arrived)
    requires !step.Take? && !step.Receive?
    ensures InOrder(StepNode(n, step, gossip), stored, arrived)
  {
    match step
    case Send(_, ok) => SendInOrder(n, ok, stored, arrived);
    case Forward(_, ok) => ForwardInOrder(n, ok, stored, arrived);
    case App(_, e) => SameOrder(n, Submit(n, e), stored, arrived);
    case Broadcast(_, _) =>
      assert NetworkTakeOutbound(n).ToNetwork() == n.ToNetwork();
      SameOrder(n, NetworkTakeOutbound(n), stored, arrived);
  }

  lemma StepInOrder(n: Node, step: Step, gossip: set<Event>, stored: seq<Event>, arrived: seq<Event>)
    requires Enabled(Mesh(map[step.at := n], gossip), step) && Conserved(n) && InOrder(n, stored, arrived)
    ensures var row := Inserted(n, step);
            InOrder(StepNode(n, step, gossip), stored + if step.Receive? then [] else row,
                    arrived + if step.Receive? then row else [])
  {
    assert stored + [] == stored && arrived + [] == arrived;
    if step.Take? {
      TakeInOrder(n, step, stored, arrived);
    } else if step.Receive? {
      ReceiveInOrder(n, step, stored, arrived);
    } else {
      NothingInserted(n, step);
      OtherInOrder(n, step, gossip, stored, arrived);
    }
  }

  lemma InsertionsSnoc(m: Mesh, steps: seq<Step>, id: NodeId, byNetwork: bool)
    requires steps != [] && Exec(m, steps).Some? && id in m.nodes && id in Exec(m, steps[..|steps| - 1]).value.nodes
    ensures var before, step := steps[..|steps| - 1], steps[|steps| - 1];
            var n := Exec(m, before).value.nodes[id];
            Insertions(m, steps, id, byNetwork) == Insertions(m, before, id, byNetwork)
              + if step.at == id && step.Receive? == byNetwork then Inserted(n, step) else []
  {
  }

  /** First in, first out, over every run and whatever fails: events are taken in
      the order of submission; what a node handed to its network actor, and what it
      delivered to its application, are the rows the actor inserted, in the order of
      insertion, without those a failed send lost; and they are broadcast in the
      order in which they were handed on. */
  lemma {:induction false} AlwaysInOrder(m: Mesh, steps: seq<Step>, id: NodeId)
    requires Init(m) && Exec(m, steps).Some? && id in m.nodes
    ensures id in Exec(m, steps).value.nodes
    ensures var n := Exec(m, steps).value.nodes[id];
            && n.taken + n.appQueue == Submissions(steps, id)
            && InOrder(n, Insertions(m, steps, id, false), Insertions(m, steps, id, true))
  {
    if steps != [] {
      var before, step := steps[..|steps| - 1], steps[|steps| - 1];
      AlwaysInOrder(m, before, id);
      AlwaysSafe(m, before);
      var m0 := Exec(m, before).value;
      var n := m0.nodes[id];
      var stored, arrived := Insertions(m, before, id, false), Insertions(m, before, id, true);
      InsertionsSnoc(m, steps, id, false);
      InsertionsSnoc(m, steps, id, true);
      if step.at == id {
        StepInOrder(n, step, m0.gossip, stored, arrived);
        TakenInOrder(n, step, m0.gossip);
        NothingInserted(n, step);
      } else {
        assert Insertions(m, steps, id, false) == stored && Insertions(m, steps, id, true) == arrived;
      }
    }
  }

  lemma NothingInserted(n: Node, step: Step)
    ensures !step.Take? && !step.Receive? ==> Inserted(n, step) == []
  {
  }

  lemma TakenInOrder(n: Node, step: Step, gossip: set<Event>)
    requires Enabled(Mesh(map[step.at := n], gossip), step)
    ensures StepNode(n, step, gossip).Submitted() == n.Submitted() + if step.App? then [step.event] else []
  {
    match step
    case Take(_, ok) => assert n.appQueue == [n.appQueue[0]] + n.appQueue[1..];
    case _ =>
  }
}
