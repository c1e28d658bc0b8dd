/** What the broadcasts of the discovery task promise, over whole runs. */
module DiscoveryRuns {
  import opened Wrappers
  import opened PeerTracking
  import opened TrackerRuns
  import opened Discovery

  ghost predicate Started(s: Loop) { Booted(s.tracker) && s.topics == {} && s.forwarders == [] }

  ghost predicate LoopRun(ss: seq<Loop>, inputs: seq<Input>, outs: seq<seq<Intro>>) {
    && |ss| == |inputs| + 1 && |outs| == |inputs|
    && Started(ss[0])
    && forall i :: 0 <= i < |inputs| ==> inputs[i].WellFormed() && Turns(ss[i], inputs[i], ss[i + 1], outs[i])
  }

  ghost predicate Sound(t: Tracker) { DistinctLists(t) && Covers(t) && Tracked(t) }

  // ---------- exchanges are sequences of upserts ----------

  lemma {:induction false} JoinedSound(t: Tracker, from: string, groups: seq<string>, turns: seq<Turn>)
    requires |groups| == |turns| && Sound(t)
    ensures Sound(Joined(t, from, groups, turns))
    ensures Agrees(t) ==> Agrees(Joined(t, from, groups, turns))
    decreases |groups|
  {
    if groups != [] {
      var op := DoUpsert(groups[0], from, turns[0].now, turns[0].fault);
      var t1 := Upsert(t, groups[0], from, turns[0].now, turns[0].fault);
      StepSound(t, op, t1);
      if Agrees(t) { AgreementLostExactly(t, op, t1); }
      JoinedSound(t1, from, groups[1..], turns[1..]);
    }
  }

  /** A list that names the joining peer does not change while it joins more groups. */
  lemma {:induction false} JoinedKeepsList(t: Tracker, from: string, groups: seq<string>, turns: seq<Turn>, g: string)
    requires |groups| == |turns| && from in Cached(t, g)
    ensures Cached(Joined(t, from, groups, turns), g) == Cached(t, g)
    decreases |groups|
  {
    if groups != [] {
      JoinedKeepsList(Upsert(t, groups[0], from, turns[0].now, turns[0].fault), from, groups[1..], turns[1..], g);
    }
  }

  /** A list set aside early in an exchange is still the list of its group when it
      is broadcast at the end. */
  lemma {:induction false} ListsAreCurrent(t: Tracker, from: string, groups: seq<string>, turns: seq<Turn>, i: nat)
    requires |groups| == |turns| && i < |Lists(t, from, groups, turns)|
    ensures var (g, peers) := Lists(t, from, groups, turns)[i];
            peers == Cached(Joined(t, from, groups, turns), g) && |peers| > 1
    decreases |groups|
  {
    var t1 := Upsert(t, groups[0], from, turns[0].now, turns[0].fault);
    var aside := SetAside(t, from, groups[0], turns[0]);
    if i < |aside| {
      assert from in Cached(t1, groups[0]);
      JoinedKeepsList(t1, from, groups[1..], turns[1..], groups[0]);
    } else {
      assert Lists(t, from, groups, turns)[i] == Lists(t1, from, groups[1..], turns[1..])[i - |aside|];
      ListsAreCurrent(t1, from, groups[1..], turns[1..], i - |aside|);
    }
  }

  // ---------- one turn ----------

  lemma TurnSound(s: Loop, input: Input, s': Loop, out: seq<Intro>)
    requires input.WellFormed() && Turns(s, input, s', out) && Sound(s.tracker)
    ensures Sound(s'.tracker)
  {
    match input
    case AnnounceTick =>
    case PruneTick(now, fault) => StepSound(s.tracker, DoPrune(now, MAX_AGE, fault), s'.tracker);
    case Received(message, turns) =>
      if message.GroupsExchange? { JoinedSound(s.tracker, message.from, message.groups, turns); }
    case NeighborDown(peer, now, fault) => StepSound(s.tracker, DoMark(peer, now, fault), s'.tracker);
  }

  lemma CurrentOutgoing(t: Tracker, from: string, groups: seq<string>, turns: seq<Turn>, i: nat)
    requires |groups| == |turns| && i < |Lists(t, from, groups, turns)|
    ensures var t' := Joined(t, from, groups, turns);
            var intro := Outgoing(t', Lists(t, from, groups, turns))[i];
            intro == Intro(intro.group, Cached(t', intro.group), Online(t'.table, intro.group)) && |intro.peers| > 1
  {
    ListsAreCurrent(t, from, groups, turns, i);
  }

  /** Every introduction of a turn, from any arm, names the peers the tracker lists
      for its group at that moment, and there are at least two. */
  lemma TurnIntroduces(s: Loop, input: Input, s': Loop, out: seq<Intro>)
    requires input.WellFormed() && Turns(s, input, s', out)
    ensures forall i :: 0 <= i < |out| ==>
              && out[i] == Intro(out[i].group, Cached(s'.tracker, out[i].group), Online(s'.tracker.table, out[i].group))
              && |out[i].peers| > 1
  {
    if input.Received? && input.message.GroupsExchange? {
      forall i | 0 <= i < |out| ensures
        && out[i] == Intro(out[i].group, Cached(s'.tracker, out[i].group), Online(s'.tracker.table, out[i].group))
        && |out[i].peers| > 1
      {
        CurrentOutgoing(s.tracker, input.message.from, input.message.groups, input.turns, i);
      }
    }
  }

  lemma ListsMatchRows(t: Tracker, g: string)
    requires Sound(t)
    ensures Distinct(Cached(t, g)) && Online(t.table, g) <= Elements(Cached(t, g))
    ensures Agrees(t) ==> Elements(Cached(t, g)) == Online(t.table, g)
  {
    forall p | p in Online(t.table, g) ensures p in Elements(Cached(t, g)) {
      assert (g, p) in OnlineKeys(t.table);
      assert (g, p) in CachedKeys(t.cache);
    }
    if Agrees(t) { AgreesPerGroup(t, g); }
  }

  // ---------- runs ----------

  lemma {:induction false} AlwaysSound(ss: seq<Loop>, inputs: seq<Input>, outs: seq<seq<Intro>>, i: nat)
    requires LoopRun(ss, inputs, outs) && i < |ss|
    ensures Sound(ss[i].tracker)
  {
    if i > 0 {
      AlwaysSound(ss, inputs, outs, i - 1);
      TurnSound(ss[i - 1], inputs[i - 1], ss[i], outs[i - 1]);
    }
  }

  /** Only a prune whose reload fails can make the lists disagree with the table. */
  predicate ReloadOk(input: Input) { input.PruneTick? ==> input.fault != ReadFails }

  lemma TurnAgrees(s: Loop, input: Input, s': Loop, out: seq<Intro>)
    requires input.WellFormed() && Turns(s, input, s', out) && Sound(s.tracker) && Agrees(s.tracker) && ReloadOk(input)
    ensures Agrees(s'.tracker)
  {
    match input
    case AnnounceTick =>
    case PruneTick(now, fault) => AgreementLostExactly(s.tracker, DoPrune(now, MAX_AGE, fault), s'.tracker);
    case Received(message, turns) =>
      if message.GroupsExchange? { JoinedSound(s.tracker, message.from, message.groups, turns); }
    case NeighborDown(peer, now, fault) => AgreementLostExactly(s.tracker, DoMark(peer, now, fault), s'.tracker);
  }

  lemma {:induction false} AlwaysAgrees(ss: seq<Loop>, inputs: seq<Input>, outs: seq<seq<Intro>>, i: nat)
    requires LoopRun(ss, inputs, outs) && i < |ss| && forall k :: 0 <= k < i ==> ReloadOk(inputs[k])
    ensures Agrees(ss[i].tracker)
  {
    if i > 0 {
      AlwaysAgrees(ss, inputs, outs, i - 1);
      AlwaysSound(ss, inputs, outs, i - 1);
      TurnAgrees(ss[i - 1], inputs[i - 1], ss[i], outs[i - 1]);
    }
  }

  /** Introduction safety: in every run, whatever statements fail, an introduction
      lists at least two distinct peers, among them every peer online in the group
      at that moment; while no reload after a prune has failed, it lists exactly
      the online peers. */
  lemma IntroductionsAreSound(ss: seq<Loop>, inputs: seq<Input>, outs: seq<seq<Intro>>, i: nat, k: nat)
    requires LoopRun(ss, inputs, outs) && i < |outs| && k < |outs[i]|
    ensures var intro := outs[i][k];
            && |intro.peers| >= 2 && Distinct(intro.peers)
            && intro.online == Online(ss[i + 1].tracker.table, intro.group)
            && intro.online <= Elements(intro.peers)
            && ((forall j :: 0 <= j <= i ==> ReloadOk(inputs[j])) ==> Elements(intro.peers) == intro.online)
  {
    TurnIntroduces(ss[i], inputs[i], ss[i + 1], outs[i]);
    AlwaysSound(ss, inputs, outs, i + 1);
    ListsMatchRows(ss[i + 1].tracker, outs[i][k].group);
    if forall j :: 0 <= j <= i ==> ReloadOk(inputs[j]) {
      AlwaysAgrees(ss, inputs, outs, i + 1);
    }
  }

  lemma {:induction false} DistinctCount<T>(s: seq<T>)
    requires Distinct(s)
    ensures |Elements(s)| == |s|
  {
    if s != [] {
      DistinctTail(s);
      DistinctCount(s[1..]);
      assert s == [s[0]] + s[1..];
      assert Elements(s) == {s[0]} + Elements(s[1..]);
    }
  }

  /** An announce tick introduces exactly the groups with two or more peers online,
      each once, as long as cache and table agree. */
  lemma AnnounceIsComplete(s: Loop, s': Loop, out: seq<Intro>)
    requires Sound(s.tracker) && Agrees(s.tracker) && Turns(s, AnnounceTick, s', out)
    ensures forall g :: (exists i :: 0 <= i < |out| && out[i].group == g) <==> |Online(s.tracker.table, g)| >= 2
    ensures forall i, j :: 0 <= i < j < |out| ==> out[i].group != out[j].group
  {
    forall g: string ensures (exists i :: 0 <= i < |out| && out[i].group == g) <==> |Online(s.tracker.table, g)| >= 2 {
      ListsMatchRows(s.tracker, g);
      DistinctCount(Cached(s.tracker, g));
    }
  }

  // ---------- departures ----------

  /** The peer is online nowhere and listed nowhere. */
  ghost predicate Gone(t: Tracker, p: string) {
    (forall k :: k in OnlineKeys(t.table) ==> k.1 != p) && (forall k :: k in CachedKeys(t.cache) ==> k.1 != p)
  }

  lemma {:induction false} JoinedGone(t: Tracker, from: string, groups: seq<string>, turns: seq<Turn>, p: string)
    requires |groups| == |turns| && Gone(t, p) && from != p
    ensures Gone(Joined(t, from, groups, turns), p)
    decreases |groups|
  {
    if groups != [] {
      var t1 := Upsert(t, groups[0], from, turns[0].now, turns[0].fault);
      if UpsertResult(t, groups[0], from, turns[0].fault).Ok? {
        UpsertKeys(t, groups[0], from, turns[0].now, turns[0].fault);
      }
      JoinedGone(t1, from, groups[1..], turns[1..], p);
    }
  }

  lemma TurnKeepsGone(s: Loop, input: Input, s': Loop, out: seq<Intro>, p: string)
    requires input.WellFormed() && Turns(s, input, s', out)
    requires Gone(s.tracker, p) && !input.ExchangeFrom(p)
    ensures Gone(s'.tracker, p)
  {
    match input
    case AnnounceTick =>
    case PruneTick(now, fault) => PruneKeys(s.tracker.table, now - MAX_AGE);
    case Received(message, turns) =>
      if message.GroupsExchange? { JoinedGone(s.tracker, message.from, message.groups, turns, p); }
    case NeighborDown(peer, now, fault) => if fault == AllOk { MarkKeys(s.tracker, peer, now); }
  }

  lemma {:induction false} StaysGone(ss: seq<Loop>, inputs: seq<Input>, outs: seq<seq<Intro>>, p: string,
                                     i: nat, j: nat)
    requires LoopRun(ss, inputs, outs) && i < j < |ss|
    requires inputs[i].NeighborDown? && inputs[i].peer == p && inputs[i].fault == AllOk
    requires forall k :: i < k < j ==> !inputs[k].ExchangeFrom(p)
    ensures Gone(ss[j].tracker, p)
    decreases j
  {
    if j == i + 1 {
      MarkKeys(ss[i].tracker, p, inputs[i].now);
    } else {
      StaysGone(ss, inputs, outs, p, i, j - 1);
      TurnKeepsGone(ss[j - 1], inputs[j - 1], ss[j], outs[j - 1], p);
    }
  }

  lemma GoneFromList(t: Tracker, p: string, g: string)
    requires Gone(t, p)
    ensures p !in Cached(t, g)
  {
    assert p in Cached(t, g) <==> (g, p) in CachedKeys(t.cache);
  }

  /** After a recorded departure the peer is in no introduction, from that turn on,
      until it announces groups again, whatever fails in between. */
  lemma DepartedNotIntroduced(ss: seq<Loop>, inputs: seq<Input>, outs: seq<seq<Intro>>, p: string, i: nat, j: nat)
    requires LoopRun(ss, inputs, outs) && i <= j < |outs|
    requires inputs[i].NeighborDown? && inputs[i].peer == p && inputs[i].fault == AllOk
    requires forall k :: i < k <= j ==> !inputs[k].ExchangeFrom(p)
    ensures forall k :: 0 <= k < |outs[j]| ==> p !in outs[j][k].peers
  {
    StaysGone(ss, inputs, outs, p, i, j + 1);
    TurnIntroduces(ss[j], inputs[j], ss[j + 1], outs[j]);
    forall k | 0 <= k < |outs[j]| ensures p !in outs[j][k].peers {
      GoneFromList(ss[j + 1].tracker, p, outs[j][k].group);
    }
  }

  // ---------- group topics ----------

  lemma {:induction false} SubscribedOnce(topics: set<string>, groups: seq<string>, turns: seq<Turn>)
    requires |groups| == |turns|
    ensures Distinct(Subscribed(topics, groups, turns))
    ensures forall g :: g in Subscribed(topics, groups, turns) ==> g in groups && g !in topics
    decreases |groups|
  {
    if groups != [] {
      var one := NewTopic(topics, groups[0], turns[0]);
      SubscribedOnce(topics + Elements(one), groups[1..], turns[1..]);
      if one != [] {
        var all := Subscribed(topics, groups, turns);
        assert all[1..] == Subscribed(topics + Elements(one), groups[1..], turns[1..]);
        assert all[0] == groups[0] && groups[0] in Elements(one);
        DistinctTail(all);
      }
    }
  }

  /** No group is ever subscribed to twice: each has at most one forwarding task. */
  lemma {:induction false} OneForwarderPerGroup(ss: seq<Loop>, inputs: seq<Input>, outs: seq<seq<Intro>>, i: nat)
    requires LoopRun(ss, inputs, outs) && i < |ss|
    ensures Distinct(ss[i].forwarders) && Elements(ss[i].forwarders) == ss[i].topics
  {
    if i > 0 {
      OneForwarderPerGroup(ss, inputs, outs, i - 1);
      var s, input := ss[i - 1], inputs[i - 1];
      if input.Received? && input.message.GroupsExchange? {
        SubscribedOnce(s.topics, input.message.groups, input.turns);
        DistinctConcat(s.forwarders, Subscribed(s.topics, input.message.groups, input.turns));
      }
    }
  }

  lemma DistinctConcat<T>(a: seq<T>, b: seq<T>)
    requires Distinct(a) && Distinct(b) && forall x :: x in b ==> x !in a
    ensures Distinct(a + b) && Elements(a + b) == Elements(a) + Elements(b)
  {
    forall i, j | 0 <= i < j < |a + b| ensures (a + b)[i] != (a + b)[j] {
      if i < |a| <= j { assert b[j - |a|] in b; assert a[i] in a; }
    }
  }
}
