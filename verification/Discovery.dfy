/** The discovery task: it turns announce ticks, prune ticks, `groups_exchange`
    messages and departing neighbours into `peer_introduction` broadcasts. */
module Discovery {
  import opened Wrappers
  import opened PeerTracking
  import opened Events

  /** A broadcast introduction, and the peers online in the group when it was sent. */
  datatype Intro = Intro(group: string, peers: seq<string>, online: set<string>)

  /** What the environment decides while one group of an exchange is processed. */
  datatype Turn = Turn(subscribeOk: bool, now: int, fault: Fault)

  /** `forwarders` lists the groups for which a forwarding task was spawned. */
  datatype Loop = Loop(tracker: Tracker, topics: set<string>, forwarders: seq<string>)

  datatype Input =
    | AnnounceTick
    | PruneTick(now: int, fault: Fault)
    | Received(message: DiscoveryMessage, turns: seq<Turn>)
    | NeighborDown(peer: string, now: int, fault: Fault)
  {
    /** One outcome per group of an exchange. */
    predicate WellFormed() { Received? && message.GroupsExchange? ==> |turns| == |message.groups| }

    predicate ExchangeFrom(p: string) { Received? && message.GroupsExchange? && message.from == p }
  }

  const MAX_AGE := 300

  // ---------- one exchange ----------

  /** The peer joins the groups one by one. */
  function Joined(t: Tracker, from: string, groups: seq<string>, turns: seq<Turn>): Tracker
    requires |groups| == |turns|
    decreases |groups|
  {
    if groups == [] then t
    else Joined(Upsert(t, groups[0], from, turns[0].now, turns[0].fault), from, groups[1..], turns[1..])
  }

  /** After a successful upsert the list of a group with company is set aside. */
  function SetAside(t: Tracker, from: string, g: string, turn: Turn): seq<(string, seq<string>)> {
    var peers := Cached(Upsert(t, g, from, turn.now, turn.fault), g);
    if UpsertResult(t, g, from, turn.fault).Ok? && |peers| > 1 then [(g, peers)] else []
  }

  /** The lists set aside while the peer joins the groups. */
  function Lists(t: Tracker, from: string, groups: seq<string>, turns: seq<Turn>): seq<(string, seq<string>)>
    requires |groups| == |turns|
    decreases |groups|
  {
    if groups == [] then []
    else
      var t1 := Upsert(t, groups[0], from, turns[0].now, turns[0].fault);
      SetAside(t, from, groups[0], turns[0]) + Lists(t1, from, groups[1..], turns[1..])
  }

  /** A group without a topic is subscribed to, when the subscription succeeds. */
  function NewTopic(topics: set<string>, g: string, turn: Turn): seq<string> {
    if g in topics || !turn.subscribeOk then [] else [g]
  }

  /** The groups an exchange subscribes to. */
  function Subscribed(topics: set<string>, groups: seq<string>, turns: seq<Turn>): seq<string>
    requires |groups| == |turns|
    decreases |groups|
  {
    if groups == [] then []
    else
      var one := NewTopic(topics, groups[0], turns[0]);
      one + Subscribed(topics + Elements(one), groups[1..], turns[1..])
  }

  /** The introductions as they go out, all after the last upsert. */
  ghost function Outgoing(t: Tracker, lists: seq<(string, seq<string>)>): (out: seq<Intro>)
    ensures |out| == |lists|
    ensures forall i :: 0 <= i < |lists| ==> out[i] == Intro(lists[i].0, lists[i].1, Online(t.table, lists[i].0))
  {
    seq(|lists|, i requires 0 <= i < |lists| => Intro(lists[i].0, lists[i].1, Online(t.table, lists[i].0)))
  }

  // ---------- one turn of the loop ----------

  /** One introduction for each of the groups that lists at least two peers, in
      some order, naming the listed peers. */
  ghost predicate Introduced(t: Tracker, groups: set<string>, out: seq<Intro>) {
    && (forall i, j :: 0 <= i < j < |out| ==> out[i].group != out[j].group)
    && (forall i :: 0 <= i < |out| ==>
          && out[i] == Intro(out[i].group, Cached(t, out[i].group), Online(t.table, out[i].group))
          && out[i].group in groups && |out[i].peers| > 1)
    && (forall g :: g in groups && |Cached(t, g)| > 1 ==> exists i :: 0 <= i < |out| && out[i].group == g)
  }

  ghost predicate Turns(s: Loop, input: Input, s': Loop, out: seq<Intro>)
    requires input.WellFormed()
  {
    match input
    case AnnounceTick =>
      s' == s && Introduced(s.tracker, s.tracker.cache.Keys, out)
    case PruneTick(now, fault) =>
      s' == s.(tracker := s'.tracker) && Pruned(s.tracker, now - MAX_AGE, fault, s'.tracker) && out == []
    case Received(GroupsExchange(from, groups), turns) =>
      var added := Subscribed(s.topics, groups, turns);
      && s' == Loop(Joined(s.tracker, from, groups, turns), s.topics + Elements(added), s.forwarders + added)
      && out == Outgoing(s'.tracker, Lists(s.tracker, from, groups, turns))
    case Received(_, _) => s' == s && out == []
    case NeighborDown(peer, now, fault) =>
      && s' == s.(tracker := MarkOffline(s.tracker, peer, now, fault))
      && if fault == AllOk then Introduced(s'.tracker, AffectedGroups(s.tracker, peer), out) else out == []
  }

  // ---------- the discovery loop ----------

  class DiscoveryTask {
    const tracker: PeerTracker
    var groupTopics: set<string>
    ghost var forwarders: seq<string>
    ghost var trace: seq<Intro>

    ghost function State(): Loop
      reads this, tracker
    {
      Loop(tracker.State(), groupTopics, forwarders)
    }

    constructor (tracker: PeerTracker)
      ensures this.tracker == tracker && State() == Loop(tracker.State(), {}, []) && trace == []
    {
      this.tracker, groupTopics, forwarders, trace := tracker, {}, [], [];
    }

    method Broadcast(group: string, peers: seq<string>)
      modifies this`trace
      ensures trace == old(trace) + [Intro(group, peers, Online(tracker.table, group))]
    {
      trace := trace + [Intro(group, peers, Online(tracker.table, group))];
    }

    /** The loop shared by the announce and the departure arm. */
    method Introduce(groups: seq<string>)
      requires Distinct(groups)
      modifies this`trace
      ensures old(trace) <= trace && Introduced(tracker.State(), Elements(groups), trace[|old(trace)|..])
    {
      ghost var out := [];
      var i := 0;
      while i < |groups|
        invariant 0 <= i <= |groups|
        invariant trace == old(trace) + out
        invariant Introduced(tracker.State(), Elements(groups[..i]), out)
      {
        var peers := tracker.GetPeers(groups[i]);
        ghost var before := out;
        assert groups[i] !in groups[..i];
        if |peers| > 1 {
          Broadcast(groups[i], peers);
          out := out + [Intro(groups[i], peers, Online(tracker.table, groups[i]))];
        }
        assert groups[..i + 1] == groups[..i] + [groups[i]];
        IntroducedMore(tracker.State(), groups[..i], groups[i], before, out);
        i := i + 1;
      }
      assert groups[..i] == groups && trace[|old(trace)|..] == out;
    }

    method OnAnnounceTick()
      modifies this
      ensures old(trace) <= trace && Turns(old(State()), AnnounceTick, State(), trace[|old(trace)|..])
    {
      var groups := tracker.GetActiveGroups();
      Introduce(groups);
      assert forall g :: g in tracker.cache.Keys && |Cached(tracker.State(), g)| > 1 ==> g in Elements(groups);
    }

    method OnPruneTick(now: int, fault: Fault)
      modifies this, tracker
      ensures old(trace) <= trace && Turns(old(State()), PruneTick(now, fault), State(), trace[|old(trace)|..])
    {
      var _ := tracker.PruneStale(now, MAX_AGE, fault);
    }

    method OnNeighborDown(peer: string, now: int, fault: Fault)
      modifies this, tracker
      ensures old(trace) <= trace && Turns(old(State()), NeighborDown(peer, now, fault), State(), trace[|old(trace)|..])
    {
      var affected := tracker.MarkPeerOffline(peer, now, fault);
      if affected.Ok? {
        Introduce(affected.value);
      }
    }

    method OnReceived(text: string, turns: seq<Turn>)
      requires Received(ReadDiscovery(text), turns).WellFormed()
      modifies this, tracker
      ensures old(trace) <= trace
      ensures Turns(old(State()), Received(ReadDiscovery(text), turns), State(), trace[|old(trace)|..])
    {
      var message := ReadDiscovery(text);
      if message.GroupsExchange? {
        var lists := Join(message.from, message.groups, turns);
        BroadcastAll(lists);
      }
    }

    method BroadcastAll(lists: seq<(string, seq<string>)>)
      modifies this`trace
      ensures trace == old(trace) + Outgoing(tracker.State(), lists)
    {
      var i := 0;
      while i < |lists|
        invariant 0 <= i <= |lists|
        invariant trace == old(trace) + Outgoing(tracker.State(), lists[..i])
      {
        Broadcast(lists[i].0, lists[i].1);
        assert Outgoing(tracker.State(), lists[..i + 1])
            == Outgoing(tracker.State(), lists[..i])
               + [Intro(lists[i].0, lists[i].1, Online(tracker.table, lists[i].0))];
        i := i + 1;
      }
      assert lists[..i] == lists;
    }

    /** One group of an exchange. */
    method JoinGroup(from: string, gid: string, turn: Turn) returns (aside: seq<(string, seq<string>)>)
      modifies this`groupTopics, this`forwarders, tracker
      ensures tracker.State() == Upsert(old(tracker.State()), gid, from, turn.now, turn.fault)
      ensures aside == SetAside(old(tracker.State()), from, gid, turn)
      // the new list of the group, when the upsert succeeded and there is company
      ensures var ok := turn.fault == AllOk || (turn.fault == ReadFails && (gid, from) !in old(tracker.table));
              var peers := Cached(tracker.State(), gid);
              aside == if ok && |peers| >= 2 then [(gid, peers)] else []
      ensures var added := NewTopic(old(groupTopics), gid, turn);
              groupTopics == old(groupTopics) + Elements(added) && forwarders == old(forwarders) + added
    {
      aside := [];
      if gid !in groupTopics && turn.subscribeOk {
        groupTopics, forwarders := groupTopics + {gid}, forwarders + [gid];
      }
      var isNew := tracker.UpsertPeer(gid, from, turn.now, turn.fault);
      if isNew.Ok? {
        var peers := tracker.GetPeers(gid);
        if |peers| > 1 {
          aside := [(gid, peers)];
        }
      }
    }

    method Join(from: string, groups: seq<string>, turns: seq<Turn>) returns (lists: seq<(string, seq<string>)>)
      requires |groups| == |turns|
      modifies this`groupTopics, this`forwarders, tracker
      ensures tracker.State() == Joined(old(tracker.State()), from, groups, turns)
      ensures lists == Lists(old(tracker.State()), from, groups, turns)
      ensures var added := Subscribed(old(groupTopics), groups, turns);
              groupTopics == old(groupTopics) + Elements(added) && forwarders == old(forwarders) + added
    {
      lists := [];
      ghost var added := [];
      ghost var goal := Exchanged(tracker.State(), groupTopics, from, groups, turns);
      var i := 0;
      while i < |groups|
        invariant 0 <= i <= |groups|
        invariant goal == Prepend(lists, added, Exchanged(tracker.State(), groupTopics, from, groups[i..], turns[i..]))
        invariant groupTopics == old(groupTopics) + Elements(added) && forwarders == old(forwarders) + added
      {
        ghost var t, topics, before := tracker.State(), groupTopics, lists;
        ghost var one := NewTopic(topics, groups[i], turns[i]);
        var aside := JoinGroup(from, groups[i], turns[i]);
        FromGroup(t, topics, from, groups, turns, i, before, added);
        ElementsConcat(added, one);
        lists := lists + aside;
        added := added + one;
        i := i + 1;
      }
    }
  }

  /** All that an exchange leads to. */
  datatype Outcome = Outcome(tracker: Tracker, lists: seq<(string, seq<string>)>, added: seq<string>)

  ghost function Exchanged(t: Tracker, topics: set<string>, from: string, groups: seq<string>, turns: seq<Turn>)
      : Outcome
    requires |groups| == |turns|
  {
    Outcome(Joined(t, from, groups, turns), Lists(t, from, groups, turns), Subscribed(topics, groups, turns))
  }

  ghost function Prepend(lists: seq<(string, seq<string>)>, added: seq<string>, o: Outcome): Outcome {
    o.(lists := lists + o.lists, added := added + o.added)
  }

  lemma ElementsConcat<T>(a: seq<T>, b: seq<T>)
    ensures Elements(a + b) == Elements(a) + Elements(b)
  {
  }

  /** The exchange from its i-th group on. */
  lemma FromGroup(t: Tracker, topics: set<string>, from: string, groups: seq<string>, turns: seq<Turn>, i: nat,
                  lists: seq<(string, seq<string>)>, added: seq<string>)
    requires i < |groups| == |turns|
    ensures var t1 := Upsert(t, groups[i], from, turns[i].now, turns[i].fault);
            var one := NewTopic(topics, groups[i], turns[i]);
            Prepend(lists, added, Exchanged(t, topics, from, groups[i..], turns[i..]))
            == Prepend(lists + SetAside(t, from, groups[i], turns[i]), added + one,
              Exchanged(t1, topics + Elements(one), from, groups[i + 1..], turns[i + 1..]))
  {
    assert groups[i..][1..] == groups[i + 1..] && turns[i..][1..] == turns[i + 1..];
    var t1, one := Upsert(t, groups[i], from, turns[i].now, turns[i].fault), NewTopic(topics, groups[i], turns[i]);
    var rest := Exchanged(t1, topics + Elements(one), from, groups[i + 1..], turns[i + 1..]);
    var aside := SetAside(t, from, groups[i], turns[i]);
    assert lists + (aside + rest.lists) == (lists + aside) + rest.lists;
    assert added + (one + rest.added) == (added + one) + rest.added;
  }

  lemma IntroducedMore(t: Tracker, groups: seq<string>, g: string, out: seq<Intro>, out': seq<Intro>)
    requires g !in groups && Introduced(t, Elements(groups), out)
    requires out' == out + if |Cached(t, g)| > 1 then [Intro(g, Cached(t, g), Online(t.table, g))] else []
    ensures Introduced(t, Elements(groups + [g]), out')
  {
    forall h | h in Elements(groups + [g]) && |Cached(t, h)| > 1
      ensures exists i :: 0 <= i < |out'| && out'[i].group == h
    {
      if h == g {
        assert out'[|out|].group == h;
      } else {
        assert h in Elements(groups);
        var i :| 0 <= i < |out| && out[i].group == h;
        assert out'[i].group == h;
      }
    }
  }
}
