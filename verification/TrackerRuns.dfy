/** Runs of the peer tracker: any sequence of operations, any statement failing. */
module TrackerRuns {
  import opened Wrappers
  import opened PeerTracking

  datatype Op =
    | DoLoad(ok: bool)
    | DoUpsert(group: string, peer: string, now: int, fault: Fault)
    | DoMark(peer: string, now: int, fault: Fault)
    | DoPrune(now: int, maxAge: nat, fault: Fault)
  {
    predicate FaultFree() { if DoLoad? then ok else fault == AllOk }
  }

  ghost predicate Steps(t: Tracker, op: Op, t': Tracker) {
    match op
    case DoLoad(ok) => t'.table == t.table && if ok then Loaded(t.table, t'.cache) else t'.cache == t.cache
    case DoUpsert(g, p, now, fault) => t' == Upsert(t, g, p, now, fault)
    case DoMark(p, now, fault) => t' == MarkOffline(t, p, now, fault)
    case DoPrune(now, maxAge, fault) => Pruned(t, now - maxAge, fault, t')
  }

  /** A node starts serving only after the cache was loaded once. */
  ghost predicate Booted(t: Tracker) { Loaded(t.table, t.cache) }

  ghost predicate Run(ts: seq<Tracker>, ops: seq<Op>) {
    && |ts| == |ops| + 1
    && Booted(ts[0])
    && forall i :: 0 <= i < |ops| ==> Steps(ts[i], ops[i], ts[i + 1])
  }

  // ---------- cache and table ----------

  lemma DistinctTail<T>(s: seq<T>)
    requires s != []
    ensures Distinct(s) <==> s[0] !in s[1..] && Distinct(s[1..])
  {
    if Distinct(s) {
      forall i, j | 0 <= i < j < |s[1..]| ensures s[1..][i] != s[1..][j] { assert s[i + 1] != s[j + 1]; }
    }
    if s[0] !in s[1..] && Distinct(s[1..]) {
      forall i, j | 0 <= i < j < |s| ensures s[i] != s[j] {
        assert s[j] == s[1..][j - 1];
        if i > 0 { assert s[i] == s[1..][i - 1]; }
      }
    }
  }

  lemma {:induction false} WithoutMembers(peers: seq<string>, peer: string)
    ensures forall p :: p in Without(peers, peer) <==> p in peers && p != peer
    ensures Distinct(peers) ==> Distinct(Without(peers, peer))
  {
    if peers != [] {
      WithoutMembers(peers[1..], peer);
      assert peers == [peers[0]] + peers[1..];
      if Distinct(peers) {
        DistinctTail(peers);
        var rest := Without(peers[1..], peer);
        if peers[0] != peer {
          assert ([peers[0]] + rest)[1..] == rest;
          DistinctTail([peers[0]] + rest);
        }
      }
    }
  }

  lemma AddedKeys(c: Cache, group: string, peer: string)
    ensures CachedKeys(AddToCache(c, group, peer)) == CachedKeys(c) + {(group, peer)}
  {
    var c' := AddToCache(c, group, peer);
    forall k: Key ensures k in CachedKeys(c') <==> k in CachedKeys(c) || k == (group, peer) {
      if k.0 == group { assert k in CachedKeys(c') <==> k.1 in c'[group]; }
    }
  }

  lemma RemovedKeys(c: Cache, peer: string)
    ensures CachedKeys(OfflineCache(c, peer)) == set k | k in CachedKeys(c) && k.1 != peer
  {
    var c' := OfflineCache(c, peer);
    forall k: Key ensures k in CachedKeys(c') <==> k in CachedKeys(c) && k.1 != peer {
      if k.0 in c { WithoutMembers(c[k.0], peer); }
    }
  }

  lemma UpsertKeys(t: Tracker, group: string, peer: string, now: int, fault: Fault)
    requires UpsertResult(t, group, peer, fault).Ok?
    ensures OnlineKeys(Upsert(t, group, peer, now, fault).table) == OnlineKeys(t.table) + {(group, peer)}
    ensures CachedKeys(Upsert(t, group, peer, now, fault).cache) == CachedKeys(t.cache) + {(group, peer)}
  {
    AddedKeys(t.cache, group, peer);
  }

  lemma MarkKeys(t: Tracker, peer: string, now: int)
    ensures OnlineKeys(MarkOffline(t, peer, now, AllOk).table) == set k | k in OnlineKeys(t.table) && k.1 != peer
    ensures CachedKeys(MarkOffline(t, peer, now, AllOk).cache) == set k | k in CachedKeys(t.cache) && k.1 != peer
  {
    RemovedKeys(t.cache, peer);
  }

  lemma PruneKeys(p: Peers, cutoff: int)
    ensures PruneTable(p, cutoff).Keys == p.Keys
    ensures OnlineKeys(PruneTable(p, cutoff)) == OnlineKeys(p) - Stale(p, cutoff)
  {
  }

  /** The only way to lose agreement: an operation on an agreeing tracker leaves
      cache and table in agreement, unless it is a prune that turned a row offline
      and then failed to reload the cache. */
  lemma AgreementLostExactly(t: Tracker, op: Op, t': Tracker)
    requires Agrees(t) && Steps(t, op, t')
    ensures Agrees(t') <==> !(op.DoPrune? && op.fault == ReadFails && Stale(t.table, op.now - op.maxAge) != {})
  {
    match op
    case DoLoad(_) =>
    case DoUpsert(g, p, now, fault) => if UpsertResult(t, g, p, fault).Ok? { UpsertKeys(t, g, p, now, fault); }
    case DoMark(p, now, fault) => if fault == AllOk { MarkKeys(t, p, now); }
    case DoPrune(now, maxAge, fault) =>
      PruneKeys(t.table, now - maxAge);
      assert Stale(t.table, now - maxAge) <= OnlineKeys(t.table);
  }

  lemma StepSound(t: Tracker, op: Op, t': Tracker)
    requires DistinctLists(t) && Covers(t) && Tracked(t) && Steps(t, op, t')
    ensures DistinctLists(t') && Covers(t') && Tracked(t')
  {
    match op
    case DoLoad(_) =>
    case DoUpsert(g, p, now, fault) => if UpsertResult(t, g, p, fault).Ok? { UpsertKeys(t, g, p, now, fault); }
    case DoMark(p, now, fault) =>
      if fault == AllOk {
        MarkKeys(t, p, now);
        forall g | g in t'.cache ensures Distinct(t'.cache[g]) { WithoutMembers(t.cache[g], p); }
      }
    case DoPrune(now, maxAge, fault) => PruneKeys(t.table, now - maxAge);
  }

  /** Whatever fails: no list names a peer twice, every online row is listed, and
      everything listed has a row. */
  lemma {:induction false} AlwaysCovered(ts: seq<Tracker>, ops: seq<Op>, i: nat)
    requires Run(ts, ops) && i < |ts|
    ensures DistinctLists(ts[i]) && Covers(ts[i]) && Tracked(ts[i])
  {
    if i > 0 {
      AlwaysCovered(ts, ops, i - 1);
      StepSound(ts[i - 1], ops[i - 1], ts[i]);
    }
  }

  /** Without failures the lists are exactly the online rows, group by group. */
  lemma {:induction false} FaultFreeAgrees(ts: seq<Tracker>, ops: seq<Op>, i: nat)
    requires Run(ts, ops) && i < |ts| && forall j :: 0 <= j < |ops| ==> ops[j].FaultFree()
    ensures Agrees(ts[i])
    ensures forall g :: Distinct(Cached(ts[i], g)) && Elements(Cached(ts[i], g)) == Online(ts[i].table, g)
  {
    if i > 0 {
      FaultFreeAgrees(ts, ops, i - 1);
      AgreementLostExactly(ts[i - 1], ops[i - 1], ts[i]);
    }
    AlwaysCovered(ts, ops, i);
    forall g ensures Distinct(Cached(ts[i], g)) && Elements(Cached(ts[i], g)) == Online(ts[i].table, g) {
      AgreesPerGroup(ts[i], g);
    }
  }

  /** A successful prune restores agreement whatever happened before, and what it
      did is exact: the rows it turned offline are the stale ones, no stale row
      stays online, every other row is untouched. */
  lemma PruneIsExact(t: Tracker, now: int, maxAge: nat, t': Tracker)
    requires Steps(t, DoPrune(now, maxAge, AllOk), t')
    ensures Agrees(t')
    ensures Stale(t.table, now - maxAge) == OnlineKeys(t.table) - OnlineKeys(t'.table)
    ensures OnlineKeys(t'.table) <= OnlineKeys(t.table)
    ensures forall k :: k in OnlineKeys(t'.table) ==> t'.table[k].lastSeen >= now - maxAge
    ensures t'.table.Keys == t.table.Keys
    ensures forall k :: k in t.table && k !in Stale(t.table, now - maxAge) ==> t'.table[k] == t.table[k]
  {
    PruneKeys(t.table, now - maxAge);
  }

  // ---------- what the operations promise ----------

  /** An upsert fails on a failing write, and on a failing existence query when there
      is a row; then nothing changes. Otherwise it leaves the peer online, seen now
      and listed last unless it was listed before, tells whether there was no row,
      keeps the time the row was first seen, and touches nothing else. */
  lemma UpsertExactly(t: Tracker, g: string, p: string, now: int, fault: Fault, t': Tracker)
    requires Steps(t, DoUpsert(g, p, now, fault), t')
    ensures var known := (g, p) in t.table;
            if fault == AllOk || (fault == ReadFails && !known) then
              && UpsertResult(t, g, p, fault) == Ok(!known)
              && t'.table.Keys == t.table.Keys + {(g, p)}
              && t'.table[(g, p)] == Row(if known then t.table[(g, p)].firstSeen else now, now, true)
              && (forall k :: k in t.table && k != (g, p) ==> t'.table[k] == t.table[k])
              && Cached(t', g) == (if p in Cached(t, g) then Cached(t, g) else Cached(t, g) + [p])
              && (forall h :: h != g ==> Cached(t', h) == Cached(t, h))
            else
              UpsertResult(t, g, p, fault) == Err(()) && t' == t
  {
  }

  /** A known peer that left comes back with an announcement. */
  lemma KnownPeerRejoins(t: Tracker, g: string, p: string, left: int, t1: Tracker, now: int, t2: Tracker)
    requires (g, p) in t.table
    requires Steps(t, DoMark(p, left, AllOk), t1) && Steps(t1, DoUpsert(g, p, now, AllOk), t2)
    ensures !t1.table[(g, p)].online && p !in Cached(t1, g)
    ensures t2.table[(g, p)] == Row(t.table[(g, p)].firstSeen, now, true) && p in Cached(t2, g)
    ensures UpsertResult(t1, g, p, AllOk) == Ok(false)
  {
    MarkExactly(t, p, left, AllOk, t1);
    UpsertExactly(t1, g, p, now, AllOk, t2);
  }

  lemma WithoutOne(q: string, p: string)
    ensures Without([q], p) == if q == p then [] else [q]
  {
    assert [q][1..] == [];
  }

  /** Lists are filtered element by element, in order. */
  lemma {:induction false} WithoutInOrder(a: seq<string>, b: seq<string>, p: string)
    ensures Without(a + b, p) == Without(a, p) + Without(b, p)
  {
    if a == [] {
      assert a + b == b;
    } else {
      assert (a + b)[1..] == a[1..] + b;
      WithoutInOrder(a[1..], b, p);
      Glue(if a[0] == p then [] else [a[0]], Without(a[1..], p), Without(b, p));
    }
  }

  /** A departure fails as a whole or takes the peer offline in every group, seen
      now, and off every list; the order of the others and all other rows stay. */
  lemma MarkExactly(t: Tracker, p: string, now: int, fault: Fault, t': Tracker)
    requires Steps(t, DoMark(p, now, fault), t')
    ensures if fault == AllOk then
              && t'.table.Keys == t.table.Keys
              && (forall k :: k in t.table ==>
                    t'.table[k] == if k.1 == p then Row(t.table[k].firstSeen, now, false) else t.table[k])
              && (forall g :: Cached(t', g) == Without(Cached(t, g), p) && p !in Cached(t', g))
              && (forall g, q :: q != p ==> (q in Cached(t', g) <==> q in Cached(t, g)))
            else t' == t
  {
    forall g ensures forall q :: q in Without(Cached(t, g), p) <==> q in Cached(t, g) && q != p {
      WithoutMembers(Cached(t, g), p);
    }
  }

  /** A prune turns exactly the rows offline that were not seen within the age limit
      and leaves their times; when the reload fails that stands, and the lists are
      the old ones; when the statement fails nothing changes. */
  lemma PruneExactly(t: Tracker, now: int, maxAge: nat, fault: Fault, t': Tracker)
    requires Steps(t, DoPrune(now, maxAge, fault), t')
    ensures t'.table.Keys == t.table.Keys
    ensures forall k :: k in t.table ==>
              var late := fault != WriteFails && t.table[k].lastSeen < now - maxAge;
              t'.table[k] == if late then t.table[k].(online := false) else t.table[k]
    ensures fault != AllOk ==> t'.cache == t.cache
    ensures fault == AllOk ==> forall g, p :: p in Cached(t', g) <==> (g, p) in t'.table && t'.table[(g, p)].online
  {
    if fault == AllOk { ListsAreRows(t'); }
  }

  lemma ListsAreRows(t: Tracker)
    requires Agrees(t)
    ensures forall g, p :: p in Cached(t, g) <==> (g, p) in t.table && t.table[(g, p)].online
  {
    forall g, p ensures p in Cached(t, g) <==> (g, p) in t.table && t.table[(g, p)].online {
      assert p in Cached(t, g) <==> (g, p) in CachedKeys(t.cache);
      assert (g, p) in OnlineKeys(t.table) <==> (g, p) in t.table && t.table[(g, p)].online;
    }
  }

  // ---------- rows over time ----------

  /** Rows are never removed and keep the time they were first seen. */
  lemma {:induction false} RowsStay(ts: seq<Tracker>, ops: seq<Op>, i: nat, j: nat, k: Key)
    requires Run(ts, ops) && i <= j < |ts| && k in ts[i].table
    ensures k in ts[j].table && ts[j].table[k].firstSeen == ts[i].table[k].firstSeen
  {
    if i < j {
      RowsStay(ts, ops, i, j - 1, k);
      StepKeepsRow(ts[j - 1], ops[j - 1], ts[j], k);
    }
  }

  lemma StepKeepsRow(t: Tracker, op: Op, t': Tracker, k: Key)
    requires Steps(t, op, t') && k in t.table
    ensures k in t'.table && t'.table[k].firstSeen == t.table[k].firstSeen
  {
  }

  predicate ReportsNew(t: Tracker, op: Op, k: Key) {
    op.DoUpsert? && (op.group, op.peer) == k && UpsertResult(t, op.group, op.peer, op.fault) == Ok(true)
  }

  /** A peer is reported as new in a group at most once in a run, and only when it
      had no row there. */
  lemma ReportedNewOnce(ts: seq<Tracker>, ops: seq<Op>, i: nat, j: nat, k: Key)
    requires Run(ts, ops) && i < |ops| && j < |ops|
    requires ReportsNew(ts[i], ops[i], k) && ReportsNew(ts[j], ops[j], k)
    ensures i == j && k !in ts[i].table
  {
    if i < j { RowsStay(ts, ops, i + 1, j, k); }
    if j < i { RowsStay(ts, ops, j + 1, i, k); }
  }

  /** All times in the table lie in order before `now`. */
  ghost predicate TimesUpTo(p: Peers, now: int) {
    forall k :: k in p ==> p[k].firstSeen <= p[k].lastSeen <= now
  }

  /** The clock readings of a run, one per operation, never go back. */
  ghost predicate Clock(ts: seq<Tracker>, ops: seq<Op>, clock: seq<int>) {
    && |clock| == |ts| == |ops| + 1
    && TimesUpTo(ts[0].table, clock[0])
    && forall i :: 0 <= i < |ops| ==> clock[i] <= clock[i + 1] && (ops[i].DoLoad? || ops[i].now == clock[i + 1])
  }

  lemma StepTimes(t: Tracker, op: Op, t': Tracker, now: int, now': int)
    requires Steps(t, op, t') && TimesUpTo(t.table, now) && now <= now' && (op.DoLoad? || op.now == now')
    ensures TimesUpTo(t'.table, now')
    ensures forall k :: k in t.table ==> k in t'.table && t.table[k].lastSeen <= t'.table[k].lastSeen
  {
    match op
    case DoUpsert(g, p, n, fault) =>
      forall k | k in t'.table ensures t'.table[k].firstSeen <= t'.table[k].lastSeen <= now' {
        if k != (g, p) { assert k in t.table && t'.table[k] == t.table[k]; }
      }
    case _ =>
      forall k | k in t'.table ensures t'.table[k].firstSeen <= t'.table[k].lastSeen <= now' {
        assert k in t.table;
      }
  }

  /** With a clock that never goes back, first_seen <= last_seen in every row and
      last_seen never decreases: through upsert, leaving, rejoining and pruning. */
  lemma {:induction false} TimesInOrder(ts: seq<Tracker>, ops: seq<Op>, clock: seq<int>, i: nat, j: nat)
    requires Run(ts, ops) && Clock(ts, ops, clock) && i <= j < |ts|
    ensures TimesUpTo(ts[j].table, clock[j])
    ensures forall k :: k in ts[i].table ==> k in ts[j].table && ts[i].table[k].lastSeen <= ts[j].table[k].lastSeen
    decreases j
  {
    if j > 0 {
      TimesInOrder(ts, ops, clock, if i < j then i else j - 1, j - 1);
      StepTimes(ts[j - 1], ops[j - 1], ts[j], clock[j - 1], clock[j]);
    }
  }

  /** Whether an operation was a contact with the row's peer that was recorded: a
      successful upsert of the row, or a recorded departure of the peer. */
  predicate Contact(t: Tracker, op: Op, k: Key) {
    || (op.DoUpsert? && (op.group, op.peer) == k && UpsertResult(t, op.group, op.peer, op.fault).Ok?)
    || (op.DoMark? && op.peer == k.1 && op.fault == AllOk && k in t.table)
  }

  /** The time of the last recorded contact before state i, or what the table said
      at the start. */
  ghost function LastContact(ts: seq<Tracker>, ops: seq<Op>, i: nat, k: Key): Option<int>
    requires Run(ts, ops) && i < |ts|
  {
    if i == 0 then if k in ts[0].table then Some(ts[0].table[k].lastSeen) else None
    else if Contact(ts[i - 1], ops[i - 1], k) then Some(ops[i - 1].now)
    else LastContact(ts, ops, i - 1, k)
  }

  /** last_seen is the time of the last recorded contact: nothing else moves it,
      pruning and reloading included, and a row exists exactly when there was one. */
  lemma {:induction false} LastSeenIsLastContact(ts: seq<Tracker>, ops: seq<Op>, i: nat, k: Key)
    requires Run(ts, ops) && i < |ts|
    ensures LastContact(ts, ops, i, k) == if k in ts[i].table then Some(ts[i].table[k].lastSeen) else None
  {
    if i > 0 {
      LastSeenIsLastContact(ts, ops, i - 1, k);
    }
  }

  /** A peer that announced itself stays online through every successful prune
      within the age limit. */
  lemma AnnouncedPeerSurvivesPrune(t: Tracker, group: string, peer: string, now: int, fault: Fault, t1: Tracker,
                                   later: int, maxAge: nat, t2: Tracker)
    requires Steps(t, DoUpsert(group, peer, now, fault), t1) && UpsertResult(t, group, peer, fault).Ok?
    requires Steps(t1, DoPrune(later, maxAge, AllOk), t2)
    ensures (group, peer) in OnlineKeys(t2.table) <==> later - now <= maxAge
  {
  }
}
