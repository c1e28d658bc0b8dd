/** What a turn of the discovery task must do: who is introduced, and when, and what
    becomes of rows, lists and topics. */
module Exchanges {
  import opened Wrappers
  import opened PeerTracking
  import opened TrackerRuns
  import opened Discovery
  import opened DiscoveryRuns
  import opened Events

  // ---------- joining, one group after the other ----------

  /** The state after the first n groups of an exchange. */
  ghost function After(t: Tracker, from: string, groups: seq<string>, turns: seq<Turn>, n: nat): Tracker
    requires n <= |groups| == |turns|
  {
    Joined(t, from, groups[..n], turns[..n])
  }

  lemma {:induction false} JoinedConcat(t: Tracker, from: string, a: seq<string>, x: seq<Turn>,
                                        b: seq<string>, y: seq<Turn>)
    requires |a| == |x| && |b| == |y|
    ensures Joined(t, from, a + b, x + y) == Joined(Joined(t, from, a, x), from, b, y)
    ensures Lists(t, from, a + b, x + y) == Lists(t, from, a, x) + Lists(Joined(t, from, a, x), from, b, y)
    decreases |a|
  {
    if a == [] {
      assert a + b == b && x + y == y;
    } else {
      assert (a + b)[1..] == a[1..] + b && (x + y)[1..] == x[1..] + y;
      var t1 := Upsert(t, a[0], from, x[0].now, x[0].fault);
      JoinedConcat(t1, from, a[1..], x[1..], b, y);
      Glue(SetAside(t, from, a[0], x[0]), Lists(t1, from, a[1..], x[1..]),
           Lists(Joined(t, from, a, x), from, b, y));
    }
  }

  lemma JoinedFrom(t: Tracker, from: string, groups: seq<string>, turns: seq<Turn>, n: nat)
    requires n <= |groups| == |turns|
    ensures Joined(t, from, groups, turns) == Joined(After(t, from, groups, turns, n), from, groups[n..], turns[n..])
  {
    assert groups[..n] + groups[n..] == groups && turns[..n] + turns[n..] == turns;
    JoinedConcat(t, from, groups[..n], turns[..n], groups[n..], turns[n..]);
  }

  lemma AfterNext(t: Tracker, from: string, groups: seq<string>, turns: seq<Turn>, n: nat)
    requires n < |groups| == |turns|
    ensures After(t, from, groups, turns, n + 1)
         == Upsert(After(t, from, groups, turns, n), groups[n], from, turns[n].now, turns[n].fault)
    ensures Lists(t, from, groups[..n + 1], turns[..n + 1])
         == Lists(t, from, groups[..n], turns[..n])
            + SetAside(After(t, from, groups, turns, n), from, groups[n], turns[n])
  {
    assert groups[..n + 1] == groups[..n] + [groups[n]] && turns[..n + 1] == turns[..n] + [turns[n]];
    JoinedConcat(t, from, groups[..n], turns[..n], [groups[n]], [turns[n]]);
    var t1 := After(t, from, groups, turns, n);
    assert Joined(t1, from, [groups[n]], [turns[n]]) == Upsert(t1, groups[n], from, turns[n].now, turns[n].fault);
    assert Lists(t1, from, [groups[n]], [turns[n]]) == SetAside(t1, from, groups[n], turns[n]) + [];
  }

  // ---------- which groups are joined ----------

  /** The peer has a row in g when the k-th group of the exchange is reached. */
  ghost predicate Known(t: Tracker, from: string, groups: seq<string>, turns: seq<Turn>, g: string, k: nat)
    requires k <= |groups| == |turns|
    decreases k, 0
  {
    (g, from) in t.table || exists j :: 0 <= j < k && groups[j] == g && Succeeds(t, from, groups, turns, j)
  }

  /** The k-th group of the exchange is joined: no statement fails, or only the
      question for a row, and there is none. */
  ghost predicate Succeeds(t: Tracker, from: string, groups: seq<string>, turns: seq<Turn>, k: nat)
    requires k < |groups| == |turns|
    decreases k, 1
  {
    || turns[k].fault == AllOk
    || (turns[k].fault == ReadFails && !Known(t, from, groups, turns, groups[k], k))
  }

  /** The k-th group is joined, and not joined again among the first n. */
  ghost predicate LastJoin(t: Tracker, from: string, groups: seq<string>, turns: seq<Turn>, k: nat, n: nat)
    requires n <= |groups| == |turns|
  {
    && k < n && Succeeds(t, from, groups, turns, k)
    && forall j :: k < j < n && Succeeds(t, from, groups, turns, j) ==> groups[j] != groups[k]
  }

  /** Rows: the peer has one in the groups it was known in or joined; everybody else,
      and the peer in the groups it did not join, are as before. */
  ghost predicate RowsAfter(t: Tracker, from: string, groups: seq<string>, turns: seq<Turn>, n: nat, t': Tracker)
    requires n <= |groups| == |turns|
  {
    && (forall g :: (g, from) in t'.table <==> Known(t, from, groups, turns, g, n))
    && (forall k :: k in t'.table && k.1 != from ==> k in t.table)
    && (forall k :: k in t.table ==>
          && k in t'.table && t'.table[k].firstSeen == t.table[k].firstSeen
          && (k.1 != from || !Joins(t, from, groups, turns, k.0, n) ==> t'.table[k] == t.table[k]))
  }

  /** In every group it joined the peer is online and was seen at the last time. */
  ghost predicate OnlineAfter(t: Tracker, from: string, groups: seq<string>, turns: seq<Turn>, n: nat, t': Tracker)
    requires n <= |groups| == |turns|
  {
    forall k :: 0 <= k < n && LastJoin(t, from, groups, turns, k, n) ==>
      && (groups[k], from) in t'.table
      && t'.table[(groups[k], from)].online && t'.table[(groups[k], from)].lastSeen == turns[k].now
  }

  /** Lists: the peer stands at the end of those of the groups it joined, unless it
      was listed before. */
  ghost predicate ListsAfter(t: Tracker, from: string, groups: seq<string>, turns: seq<Turn>, n: nat, t': Tracker)
    requires n <= |groups| == |turns|
  {
    forall g :: Cached(t', g) == if Joins(t, from, groups, turns, g, n) && from !in Cached(t, g)
                                 then Cached(t, g) + [from] else Cached(t, g)
  }

  ghost predicate Joins(t: Tracker, from: string, groups: seq<string>, turns: seq<Turn>, g: string, n: nat)
    requires n <= |groups| == |turns|
  {
    exists j :: 0 <= j < n && groups[j] == g && Succeeds(t, from, groups, turns, j)
  }

  lemma KnownJoins(t: Tracker, from: string, groups: seq<string>, turns: seq<Turn>, g: string, n: nat)
    requires n < |groups| == |turns|
    ensures Joins(t, from, groups, turns, g, n + 1) <==>
              Joins(t, from, groups, turns, g, n) || (groups[n] == g && Succeeds(t, from, groups, turns, n))
    ensures Known(t, from, groups, turns, g, n + 1) <==>
              Known(t, from, groups, turns, g, n) || (groups[n] == g && Succeeds(t, from, groups, turns, n))
  {
  }

  lemma OneRow(t: Tracker, from: string, groups: seq<string>, turns: seq<Turn>, n: nat, t1: Tracker, t2: Tracker)
    requires n < |groups| == |turns| && RowsAfter(t, from, groups, turns, n, t1)
    requires Steps(t1, DoUpsert(groups[n], from, turns[n].now, turns[n].fault), t2)
    ensures UpsertResult(t1, groups[n], from, turns[n].fault).Ok? <==> Succeeds(t, from, groups, turns, n)
    ensures RowsAfter(t, from, groups, turns, n + 1, t2)
  {
    UpsertExactly(t1, groups[n], from, turns[n].now, turns[n].fault, t2);
    assert (groups[n], from) in t1.table <==> Known(t, from, groups, turns, groups[n], n);
    forall g ensures (g, from) in t2.table <==> Known(t, from, groups, turns, g, n + 1) {
      KnownJoins(t, from, groups, turns, g, n);
    }
    forall k | k in t.table
      ensures k in t2.table && t2.table[k].firstSeen == t.table[k].firstSeen
      ensures k.1 != from || !Joins(t, from, groups, turns, k.0, n + 1) ==> t2.table[k] == t.table[k]
    {
      KnownJoins(t, from, groups, turns, k.0, n);
    }
  }

  lemma OneOnline(t: Tracker, from: string, groups: seq<string>, turns: seq<Turn>, n: nat, t1: Tracker, t2: Tracker)
    requires n < |groups| == |turns| && OnlineAfter(t, from, groups, turns, n, t1)
    requires Steps(t1, DoUpsert(groups[n], from, turns[n].now, turns[n].fault), t2)
    requires UpsertResult(t1, groups[n], from, turns[n].fault).Ok? <==> Succeeds(t, from, groups, turns, n)
    ensures OnlineAfter(t, from, groups, turns, n + 1, t2)
  {
    UpsertExactly(t1, groups[n], from, turns[n].now, turns[n].fault, t2);
    forall k | 0 <= k < n + 1 && LastJoin(t, from, groups, turns, k, n + 1)
      ensures (groups[k], from) in t2.table
      ensures t2.table[(groups[k], from)].online && t2.table[(groups[k], from)].lastSeen == turns[k].now
    {
      if k < n { assert LastJoin(t, from, groups, turns, k, n); }
    }
  }

  lemma OneList(t: Tracker, from: string, groups: seq<string>, turns: seq<Turn>, n: nat, t1: Tracker, t2: Tracker)
    requires n < |groups| == |turns| && ListsAfter(t, from, groups, turns, n, t1)
    requires Steps(t1, DoUpsert(groups[n], from, turns[n].now, turns[n].fault), t2)
    requires UpsertResult(t1, groups[n], from, turns[n].fault).Ok? <==> Succeeds(t, from, groups, turns, n)
    ensures ListsAfter(t, from, groups, turns, n + 1, t2)
  {
    UpsertExactly(t1, groups[n], from, turns[n].now, turns[n].fault, t2);
    forall g ensures Cached(t2, g) == if Joins(t, from, groups, turns, g, n + 1) && from !in Cached(t, g)
                                      then Cached(t, g) + [from] else Cached(t, g)
    {
      KnownJoins(t, from, groups, turns, g, n);
    }
  }

  /** What joining the first n groups of an exchange leaves, any statement failing. */
  lemma {:induction false} JoinExactly(t: Tracker, from: string, groups: seq<string>, turns: seq<Turn>, n: nat)
    requires n <= |groups| == |turns|
    ensures RowsAfter(t, from, groups, turns, n, After(t, from, groups, turns, n))
    ensures OnlineAfter(t, from, groups, turns, n, After(t, from, groups, turns, n))
    ensures ListsAfter(t, from, groups, turns, n, After(t, from, groups, turns, n))
  {
    if n == 0 {
      assert groups[..0] == [] && turns[..0] == [];
    } else {
      JoinExactly(t, from, groups, turns, n - 1);
      AfterNext(t, from, groups, turns, n - 1);
      var t1, t2 := After(t, from, groups, turns, n - 1), After(t, from, groups, turns, n);
      OneRow(t, from, groups, turns, n - 1, t1, t2);
      OneOnline(t, from, groups, turns, n - 1, t1, t2);
      OneList(t, from, groups, turns, n - 1, t1, t2);
    }
  }

  lemma JoinedOk(t: Tracker, from: string, groups: seq<string>, turns: seq<Turn>, n: nat)
    requires n < |groups| == |turns|
    ensures UpsertResult(After(t, from, groups, turns, n), groups[n], from, turns[n].fault).Ok?
            <==> Succeeds(t, from, groups, turns, n)
  {
    JoinExactly(t, from, groups, turns, n);
    AfterNext(t, from, groups, turns, n);
    OneRow(t, from, groups, turns, n, After(t, from, groups, turns, n), After(t, from, groups, turns, n + 1));
  }

  // ---------- who is introduced ----------

  /** The groups among the first n that are joined and list at least two peers in
      `t'`, in the order in which the exchange names them. */
  ghost function WithCompany(t: Tracker, from: string, groups: seq<string>, turns: seq<Turn>, n: nat, t': Tracker)
      : seq<string>
    requires n <= |groups| == |turns|
  {
    if n == 0 then []
    else
      WithCompany(t, from, groups, turns, n - 1, t')
      + if Succeeds(t, from, groups, turns, n - 1) && |Cached(t', groups[n - 1])| >= 2 then [groups[n - 1]] else []
  }

  ghost function GroupsOf(lists: seq<(string, seq<string>)>): (gs: seq<string>)
    ensures |gs| == |lists| && forall i :: 0 <= i < |lists| ==> gs[i] == lists[i].0
  {
    seq(|lists|, i requires 0 <= i < |lists| => lists[i].0)
  }

  /** The list of a joined group is the same at the end of the exchange. */
  lemma ListStays(t: Tracker, from: string, groups: seq<string>, turns: seq<Turn>, n: nat)
    requires n < |groups| == |turns| && Succeeds(t, from, groups, turns, n)
    ensures Cached(Joined(t, from, groups, turns), groups[n]) == Cached(After(t, from, groups, turns, n + 1), groups[n])
  {
    JoinedOk(t, from, groups, turns, n);
    AfterNext(t, from, groups, turns, n);
    var t2 := After(t, from, groups, turns, n + 1);
    UpsertExactly(After(t, from, groups, turns, n), groups[n], from, turns[n].now, turns[n].fault, t2);
    assert from in Cached(t2, groups[n]);
    JoinedFrom(t, from, groups, turns, n + 1);
    JoinedKeepsList(t2, from, groups[n + 1..], turns[n + 1..], groups[n]);
  }

  lemma {:induction false} ListsWithCompany(t: Tracker, from: string, groups: seq<string>, turns: seq<Turn>, n: nat)
    requires n <= |groups| == |turns|
    ensures GroupsOf(Lists(t, from, groups[..n], turns[..n]))
         == WithCompany(t, from, groups, turns, n, Joined(t, from, groups, turns))
  {
    if n == 0 {
      assert groups[..0] == [] && turns[..0] == [];
    } else {
      var k := n - 1;
      ListsWithCompany(t, from, groups, turns, k);
      AfterNext(t, from, groups, turns, k);
      JoinedOk(t, from, groups, turns, k);
      if Succeeds(t, from, groups, turns, k) { ListStays(t, from, groups, turns, k); }
      var aside := SetAside(After(t, from, groups, turns, k), from, groups[k], turns[k]);
      GroupsConcat(Lists(t, from, groups[..k], turns[..k]), aside);
    }
  }

  lemma GroupsConcat(a: seq<(string, seq<string>)>, b: seq<(string, seq<string>)>)
    ensures GroupsOf(a + b) == GroupsOf(a) + GroupsOf(b)
  {
  }

  /** The introductions of an exchange are complete: those that go out are for
      exactly the groups the peer joined that list at least two peers afterwards,
      one for each time such a group is named, in that order. */
  lemma ExchangeIntroduces(s: Loop, from: string, groups: seq<string>, turns: seq<Turn>, s': Loop, out: seq<Intro>)
    requires |groups| == |turns| && Turns(s, Received(GroupsExchange(from, groups), turns), s', out)
    ensures var named := WithCompany(s.tracker, from, groups, turns, |groups|, s'.tracker);
            |out| == |named| && forall i :: 0 <= i < |out| ==> out[i].group == named[i]
  {
    var n := |groups|;
    assert groups[..n] == groups && turns[..n] == turns;
    ListsWithCompany(s.tracker, from, groups, turns, n);
  }

  /** The state an exchange leaves, and the topics: a group is subscribed to from the
      first time on that it is named and the subscription succeeds. */
  lemma ExchangeJoins(s: Loop, from: string, groups: seq<string>, turns: seq<Turn>, s': Loop, out: seq<Intro>)
    requires |groups| == |turns| && Turns(s, Received(GroupsExchange(from, groups), turns), s', out)
    ensures RowsAfter(s.tracker, from, groups, turns, |groups|, s'.tracker)
    ensures OnlineAfter(s.tracker, from, groups, turns, |groups|, s'.tracker)
    ensures ListsAfter(s.tracker, from, groups, turns, |groups|, s'.tracker)
    ensures forall g :: g in s'.topics <==>
              g in s.topics || exists k :: 0 <= k < |groups| && groups[k] == g && turns[k].subscribeOk
    ensures s.forwarders <= s'.forwarders
  {
    var n := |groups|;
    assert groups[..n] == groups && turns[..n] == turns;
    JoinExactly(s.tracker, from, groups, turns, n);
    SubscribedExactly(s.topics, groups, turns);
  }

  lemma {:induction false} SubscribedExactly(topics: set<string>, groups: seq<string>, turns: seq<Turn>)
    requires |groups| == |turns|
    ensures forall g :: g in topics + Elements(Subscribed(topics, groups, turns)) <==>
              g in topics || exists k :: 0 <= k < |groups| && groups[k] == g && turns[k].subscribeOk
    decreases |groups|
  {
    if groups != [] {
      var one := NewTopic(topics, groups[0], turns[0]);
      var rest := Subscribed(topics + Elements(one), groups[1..], turns[1..]);
      SubscribedExactly(topics + Elements(one), groups[1..], turns[1..]);
      ElementsConcat(one, rest);
      forall g ensures g in topics + Elements(one + rest) <==>
          g in topics || exists k :: 0 <= k < |groups| && groups[k] == g && turns[k].subscribeOk
      {
        NamedInRest(g, groups, turns);
        assert g in topics + Elements(one) <==> g in topics || (groups[0] == g && turns[0].subscribeOk);
      }
    }
  }

  lemma NamedInRest(g: string, groups: seq<string>, turns: seq<Turn>)
    requires |groups| == |turns| > 0
    ensures (exists k :: 0 <= k < |groups| && groups[k] == g && turns[k].subscribeOk) <==>
            || (groups[0] == g && turns[0].subscribeOk)
            || exists k :: 0 <= k < |groups[1..]| && groups[1..][k] == g && turns[1..][k].subscribeOk
  {
    if k :| 0 <= k < |groups| && groups[k] == g && turns[k].subscribeOk {
      if k > 0 { assert groups[1..][k - 1] == g && turns[1..][k - 1].subscribeOk; }
    }
    if k :| 0 <= k < |groups[1..]| && groups[1..][k] == g && turns[1..][k].subscribeOk {
      assert groups[k + 1] == g && turns[k + 1].subscribeOk;
    }
  }

  // ---------- runs ----------

  lemma {:induction false} NamedExactly(t: Tracker, from: string, groups: seq<string>, turns: seq<Turn>, n: nat,
                                     t': Tracker, g: string)
    requires n <= |groups| == |turns|
    ensures g in WithCompany(t, from, groups, turns, n, t')
            <==> Joins(t, from, groups, turns, g, n) && |Cached(t', g)| >= 2
  {
    if n > 0 {
      NamedExactly(t, from, groups, turns, n - 1, t', g);
      KnownJoins(t, from, groups, turns, g, n - 1);
    }
  }

  /** Introduction completeness over runs: while no reload after a prune has failed,
      an exchange introduces exactly the groups the peer joined in it that then have
      two or more peers online; and each introduction lists exactly those. */
  lemma ExchangesAreComplete(ss: seq<Loop>, inputs: seq<Input>, outs: seq<seq<Intro>>, i: nat,
                             from: string, groups: seq<string>, g: string)
    requires LoopRun(ss, inputs, outs) && i < |inputs| && forall j :: 0 <= j <= i ==> ReloadOk(inputs[j])
    requires inputs[i].Received? && inputs[i].message == GroupsExchange(from, groups)
    requires |groups| == |inputs[i].turns|
    ensures (exists k :: 0 <= k < |outs[i]| && outs[i][k].group == g)
            <==> Joins(ss[i].tracker, from, groups, inputs[i].turns, g, |groups|)
                 && |Online(ss[i + 1].tracker.table, g)| >= 2
  {
    var t, t', turns := ss[i].tracker, ss[i + 1].tracker, inputs[i].turns;
    ExchangeIntroduces(ss[i], from, groups, turns, ss[i + 1], outs[i]);
    NamedExactly(t, from, groups, turns, |groups|, t', g);
    var named := WithCompany(t, from, groups, turns, |groups|, t');
    assert g in named <==> exists k :: 0 <= k < |named| && named[k] == g;
    AlwaysSound(ss, inputs, outs, i + 1);
    AlwaysAgrees(ss, inputs, outs, i + 1);
    ListsMatchRows(t', g);
    DistinctCount(Cached(t', g));
    if k :| 0 <= k < |outs[i]| && outs[i][k].group == g { assert named[k] == g; }
    if k :| 0 <= k < |named| && named[k] == g { assert outs[i][k].group == g; }
  }

  /** Where "b" announces a group that "a" is in, the two are introduced. */
  lemma TwoPeersMeet(t: Tracker, topics: set<string>, forwarders: seq<string>, a: string, b: string, g: string,
                     now: int, subscribeOk: bool, s': Loop, out: seq<Intro>)
    requires a != b && Cached(t, g) == [a]
    requires Turns(Loop(t, topics, forwarders),
                   Received(GroupsExchange(b, [g]), [Turn(subscribeOk, now, AllOk)]), s', out)
    ensures |out| == 1 && out[0].group == g && out[0].peers == [a, b]
  {
    var s, turns := Loop(t, topics, forwarders), [Turn(subscribeOk, now, AllOk)];
    assert Succeeds(t, b, [g], turns, 0);
    assert Joins(t, b, [g], turns, g, 1);
    ExchangeJoins(s, b, [g], turns, s', out);
    assert Cached(s'.tracker, g) == [a] + [b];
    assert WithCompany(t, b, [g], turns, 0, s'.tracker) == [];
    assert WithCompany(t, b, [g], turns, 1, s'.tracker) == [] + [g];
    ExchangeIntroduces(s, b, [g], turns, s', out);
    TurnIntroduces(s, Received(GroupsExchange(b, [g]), turns), s', out);
  }

  // ---------- departures and ticks ----------

  /** A recorded departure introduces exactly the groups the peer was online in and
      that still list two or more peers, each once; one that cannot be recorded
      changes and introduces nothing. */
  lemma DepartureIntroduces(s: Loop, p: string, now: int, fault: Fault, s': Loop, out: seq<Intro>)
    requires Turns(s, NeighborDown(p, now, fault), s', out)
    ensures fault != AllOk ==> s' == s && out == []
    ensures fault == AllOk ==>
              && Steps(s.tracker, DoMark(p, now, AllOk), s'.tracker)
              && (forall g :: (exists i :: 0 <= i < |out| && out[i].group == g) <==>
                    (g, p) in s.tracker.table && s.tracker.table[(g, p)].online && |Cached(s'.tracker, g)| >= 2)
              && (forall i, j :: 0 <= i < j < |out| ==> out[i].group != out[j].group)
  {
    AffectedExactly(s.tracker, p);
  }

  /** A prune tick takes out the rows not seen for 300 seconds and introduces nobody. */
  lemma PruneTickExactly(s: Loop, now: int, fault: Fault, s': Loop, out: seq<Intro>)
    requires Turns(s, PruneTick(now, fault), s', out)
    ensures out == [] && s'.topics == s.topics && s'.forwarders == s.forwarders
    ensures s'.tracker.table.Keys == s.tracker.table.Keys
    ensures forall k :: k in s.tracker.table ==>
              var late := fault != WriteFails && now - s.tracker.table[k].lastSeen > 300;
              s'.tracker.table[k] == if late then s.tracker.table[k].(online := false) else s.tracker.table[k]
  {
    PruneExactly(s.tracker, now, 300, fault, s'.tracker);
  }
}
