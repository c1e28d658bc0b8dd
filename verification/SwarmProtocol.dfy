/** The negotiation as a protocol: any number of nodes over gossip that delays,
    duplicates, reorders and loses messages. */
module SwarmProtocol {
  import opened Wrappers
  import opened Swarm

  /** `heard` is the history of messages a node processed. */
  datatype Node = Node(store: map<Hash, set<nat>>, registry: Registry, heard: set<Message>) {
    function Present(h: Hash): set<nat> { if h in store then store[h] else {} }

    predicate Has(naming: Naming, h: Hash) { Present(h) == naming.Chunks(h) }
  }

  /** `wire` holds every message ever sent; any of them may arrive at any node at
      any time, any number of times or never. */
  datatype Mesh = Mesh(nodes: map<NodeId, Node>, wire: set<Message>)

  datatype Step =
    | Obtain(at: NodeId, hash: Hash, arrived: set<nat>)
    | Announce(at: NodeId, hash: Hash)
    | Query(at: NodeId, hash: Hash)
    | Deliver(at: NodeId, message: Message, storeOk: bool)

  /** A node announces only blobs it holds. */
  predicate Enabled(m: Mesh, naming: Naming, step: Step) {
    && step.at in m.nodes
    && (step.Announce? ==> m.nodes[step.at].Has(naming, step.hash))
    && (step.Deliver? ==> step.message in m.wire)
  }

  function Process(n: Node, self: NodeId, msg: Message): Node {
    var n' := n.(heard := n.heard + {msg});
    if msg.IHave? then n'.(registry := Record(n.registry, self, msg.hash, msg.holder)) else n'
  }

  /** What a node sends back on gossip. */
  function Replies(n: Node, self: NodeId, naming: Naming, msg: Message, storeOk: bool): set<Message> {
    var asked := Asked(naming, msg);
    match Reply(self, naming, msg, asked.Some? && n.Has(naming, asked.value))
    case Ok(Some(reply)) => if storeOk then {reply} else {}
    case _ => {}
  }

  function Apply(m: Mesh, naming: Naming, step: Step): Mesh
    requires Enabled(m, naming, step)
  {
    var n := m.nodes[step.at];
    match step
    case Obtain(at, h, arrived) =>
      m.(nodes := m.nodes[at := n.(store := n.store[h := n.Present(h) + arrived * naming.Chunks(h)])])
    case Announce(at, h) => m.(wire := m.wire + {IHave(naming.show(h), at)})
    case Query(at, h) => m.(wire := m.wire + {WhoHas(naming.show(h), at)})
    case Deliver(at, msg, storeOk) =>
      Mesh(m.nodes[at := Process(n, at, msg)], m.wire + Replies(n, at, naming, msg, storeOk))
  }

  function Exec(m: Mesh, naming: Naming, steps: seq<Step>): Option<Mesh> {
    if steps == [] then Some(m)
    else
      match Exec(m, naming, steps[..|steps| - 1])
      case None => None
      case Some(m') =>
        var step := steps[|steps| - 1];
        if Enabled(m', naming, step) then Some(Apply(m', naming, step)) else None
  }

  ghost predicate Init(m: Mesh, naming: Naming) {
    && m.wire == {}
    && forall id :: id in m.nodes ==>
         m.nodes[id].registry == map[] && m.nodes[id].heard == {} && Verified(m.nodes[id], naming)
  }

  // ---------- invariants ----------

  /** A store holds only chunks of the blobs (verified streaming). */
  ghost predicate Verified(n: Node, naming: Naming) {
    forall h :: h in n.store ==> n.store[h] <= naming.Chunks(h)
  }

  /** An announcement in flight is true. */
  ghost predicate TrueAnnouncement(m: Mesh, naming: Naming, msg: Message) {
    msg.IHave? ==>
      msg.holder in m.nodes && exists h :: m.nodes[msg.holder].Has(naming, h) && msg.hash == naming.show(h)
  }

  /** The registry is exactly what was heard, the node itself left out. */
  ghost predicate RegistryIsHearsay(n: Node, self: NodeId) {
    forall t: string, s: NodeId :: (t in n.registry && s in n.registry[t]) <==> (IHave(t, s) in n.heard && s != self)
  }

  ghost predicate Sound(m: Mesh, naming: Naming) {
    && (forall msg :: msg in m.wire ==> TrueAnnouncement(m, naming, msg))
    && (forall id :: id in m.nodes ==>
          RegistryIsHearsay(m.nodes[id], id) && m.nodes[id].heard <= m.wire && Verified(m.nodes[id], naming))
  }

  lemma ProcessKeepsHearsay(n: Node, self: NodeId, msg: Message)
    requires RegistryIsHearsay(n, self)
    ensures RegistryIsHearsay(Process(n, self, msg), self)
  {
    var n' := Process(n, self, msg);
    forall t: string, s: NodeId
      ensures (t in n'.registry && s in n'.registry[t]) <==> (IHave(t, s) in n'.heard && s != self)
    {
      assert (t in n.registry && s in n.registry[t]) <==> (IHave(t, s) in n.heard && s != self);
    }
  }

  lemma AnnouncementsStayTrue(m: Mesh, naming: Naming, step: Step, msg: Message)
    requires Enabled(m, naming, step) && TrueAnnouncement(m, naming, msg)
    ensures TrueAnnouncement(Apply(m, naming, step), naming, msg)
  {
    if msg.IHave? {
      var h :| m.nodes[msg.holder].Has(naming, h) && msg.hash == naming.show(h);
      assert Apply(m, naming, step).nodes[msg.holder].Has(naming, h);
    }
  }

  lemma StepSound(m: Mesh, naming: Naming, step: Step)
    requires Enabled(m, naming, step) && Sound(m, naming)
    ensures Sound(Apply(m, naming, step), naming)
  {
    var m' := Apply(m, naming, step);
    forall msg | msg in m'.wire ensures TrueAnnouncement(m', naming, msg) {
      if msg in m.wire {
        AnnouncementsStayTrue(m, naming, step, msg);
      } else if msg.IHave? {
        match step
        case Announce(at, h) => assert m'.nodes[at].Has(naming, h);
        case Deliver(at, w, _) =>
          assert w.WhoHas?;
          assert m'.nodes[at].Has(naming, naming.read(w.hash).value);
        case _ =>
      }
    }
    if step.Deliver? { ProcessKeepsHearsay(m.nodes[step.at], step.at, step.message); }
  }

  /** Registry soundness: in every reachable state every announcement in flight is
      true, every registry entry names another node that really holds the blob,
      and the holders known for a blob are exactly the other nodes whose
      announcements of it were processed. */
  lemma {:induction false} AlwaysSound(m: Mesh, naming: Naming, steps: seq<Step>)
    requires Init(m, naming) && Exec(m, naming, steps).Some?
    ensures Sound(Exec(m, naming, steps).value, naming)
  {
    if steps != [] {
      AlwaysSound(m, naming, steps[..|steps| - 1]);
      StepSound(Exec(m, naming, steps[..|steps| - 1]).value, naming, steps[|steps| - 1]);
    }
  }

  lemma HoldersAreReal(m: Mesh, naming: Naming, steps: seq<Step>, id: NodeId, h: Hash)
    requires Init(m, naming) && Exec(m, naming, steps).Some? && naming.Canonical()
    requires id in Exec(m, naming, steps).value.nodes
    ensures var m' := Exec(m, naming, steps).value;
            var known := Holders(m'.nodes[id].registry, naming, h);
            && (forall s :: s in known <==> IHave(naming.show(h), s) in m'.nodes[id].heard && s != id)
            && (forall s :: s in known ==> s != id && s in m'.nodes && m'.nodes[s].Has(naming, h))
  {
    AlwaysSound(m, naming, steps);
    var m' := Exec(m, naming, steps).value;
    var n := m'.nodes[id];
    forall s ensures s in Holders(n.registry, naming, h) <==> IHave(naming.show(h), s) in n.heard && s != id {
      var t := naming.show(h);
      assert (t in n.registry && s in n.registry[t]) <==> (IHave(t, s) in n.heard && s != id);
    }
    forall s | s in Holders(n.registry, naming, h) ensures s != id && s in m'.nodes && m'.nodes[s].Has(naming, h) {
      var msg := IHave(naming.show(h), s);
      assert msg in m'.wire && TrueAnnouncement(m', naming, msg);
      var g :| m'.nodes[s].Has(naming, g) && naming.show(h) == naming.show(g);
      assert naming.read(naming.show(h)) == Some(h) && naming.read(naming.show(g)) == Some(g);
    }
  }

  /** Nothing is forgotten: stores, registries and histories only grow. */
  lemma {:induction false} OnlyGrows(m: Mesh, naming: Naming, steps: seq<Step>, id: NodeId, h: Hash)
    requires Exec(m, naming, steps).Some? && id in m.nodes
    ensures var m' := Exec(m, naming, steps).value;
            && id in m'.nodes && m.wire <= m'.wire
            && (m.nodes[id].Has(naming, h) ==> m'.nodes[id].Has(naming, h))
            && m.nodes[id].Present(h) <= m'.nodes[id].Present(h) && m.nodes[id].heard <= m'.nodes[id].heard
            && Holders(m.nodes[id].registry, naming, h) <= Holders(m'.nodes[id].registry, naming, h)
  {
    if steps != [] {
      OnlyGrows(m, naming, steps[..|steps| - 1], id, h);
    }
  }

  /** Negotiation: once a holder has processed a node's query and the node the
      answer, the node knows the holder. */
  lemma NegotiationCompletes(m: Mesh, naming: Naming, asker: NodeId, holder: NodeId, h: Hash)
    requires naming.Canonical() && asker in m.nodes && holder in m.nodes && asker != holder
    requires m.nodes[holder].Has(naming, h)
    ensures var steps := [Query(asker, h), Deliver(holder, WhoHas(naming.show(h), asker), true),
                          Deliver(asker, IHave(naming.show(h), holder), true)];
            && Exec(m, naming, steps).Some?
            && asker in Exec(m, naming, steps).value.nodes
            && holder in Holders(Exec(m, naming, steps).value.nodes[asker].registry, naming, h)
  {
    var q := Query(asker, h);
    var w := Deliver(holder, WhoHas(naming.show(h), asker), true);
    var a := Deliver(asker, IHave(naming.show(h), holder), true);
    var m1 := Apply(m, naming, q);
    var m2 := Apply(m1, naming, w);
    assert naming.read(naming.show(h)) == Some(h);
    assert IHave(naming.show(h), holder) in m2.wire;
    var m3 := Apply(m2, naming, a);
    assert [q][..0] == [] && [q, w][..1] == [q] && [q, w, a][..2] == [q, w];
    assert Exec(m, naming, [q]) == Some(m1);
    assert Exec(m, naming, [q, w]) == Some(m2);
    assert Exec(m, naming, [q, w, a]) == Some(m3);
  }

  /** Announcing: a node that obtained the chunks of a blob may announce it, and whoever
      processes the announcement knows it as a holder. */
  lemma AnnouncementArrives(m: Mesh, naming: Naming, holder: NodeId, other: NodeId, h: Hash)
    requires holder in m.nodes && other in m.nodes && holder != other && Verified(m.nodes[holder], naming)
    ensures var steps := [Obtain(holder, h, naming.Chunks(h)), Announce(holder, h),
                          Deliver(other, IHave(naming.show(h), holder), true)];
            && Exec(m, naming, steps).Some?
            && other in Exec(m, naming, steps).value.nodes
            && holder in Holders(Exec(m, naming, steps).value.nodes[other].registry, naming, h)
  {
    var o, a := Obtain(holder, h, naming.Chunks(h)), Announce(holder, h);
    var d := Deliver(other, IHave(naming.show(h), holder), true);
    var m1 := Apply(m, naming, o);
    assert m1.nodes[holder].Has(naming, h);
    var m2 := Apply(m1, naming, a);
    assert IHave(naming.show(h), holder) in m2.wire;
    var m3 := Apply(m2, naming, d);
    assert [o][..0] == [] && [o, a][..1] == [o] && [o, a, d][..2] == [o, a];
    assert Exec(m, naming, [o]) == Some(m1);
    assert Exec(m, naming, [o, a]) == Some(m2);
    assert Exec(m, naming, [o, a, d]) == Some(m3);
  }

  /** From negotiation to content: if one of the holders a node knows answers when
      dialled and delivers what it holds, a fetch from the known holders returns the
      content, whatever the other holders do. */
  lemma KnownHolderMakesFetchSucceed(m: Mesh, naming: Naming, steps: seq<Step>, id: NodeId, h: Hash,
                                     holders: seq<NodeId>, parses: NodeId -> bool, visits: seq<Visit>, i: nat)
    requires Init(m, naming) && Exec(m, naming, steps).Some? && id in Exec(m, naming, steps).value.nodes
    requires naming.Canonical() && naming.Addressed(h)
    requires Elements(holders) == Holders(Exec(m, naming, steps).value.nodes[id].registry, naming, h)
    requires |visits| == |holders| && Answering(visits) && forall p :: p in holders ==> parses(p)
    requires var m' := Exec(m, naming, steps).value;
             && i < |holders| && visits[i].dial == Connected
             && (holders[i] in m'.nodes ==> m'.nodes[holders[i]].Present(h) <= visits[i].serves)
    ensures var present := Exec(m, naming, steps).value.nodes[id].Present(h);
            FetchResult(naming, h, present, holders, parses, visits, Intact) == Ok(Content(naming.blob(h)))
  {
    AlwaysSound(m, naming, steps);
    HoldersAreReal(m, naming, steps, id, h);
    assert holders[i] in Elements(holders);
    var present := Exec(m, naming, steps).value.nodes[id].Present(h);
    OneGoodHolderSuffices(naming, h, present, holders, parses, visits, i);
  }
}
