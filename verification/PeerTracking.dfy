/** The peer tracker: the `group_peers` table and the in-memory list of online
    peers per group that is written through to it. Any statement may fail; its
    outcome is a parameter. */
module PeerTracking {
  import opened Wrappers

  datatype Row = Row(firstSeen: int, lastSeen: int, online: bool)

  /** Primary key (group, peer). */
  type Key = (string, string)
  type Peers = map<Key, Row>
  type Cache = map<string, seq<string>>

  datatype Tracker = Tracker(table: Peers, cache: Cache)

  function Cached(t: Tracker, group: string): seq<string> {
    if group in t.cache then t.cache[group] else []
  }

  /** The rows `WHERE is_online = 1`. */
  ghost function OnlineKeys(p: Peers): set<Key> { set k | k in p && p[k].online }

  ghost function Online(p: Peers, group: string): set<string> {
    set k | k in p && p[k].online && k.0 == group :: k.1
  }

  /** The pairs (group, peer) the cache lists. */
  ghost function CachedKeys(c: Cache): set<Key> {
    set g, p | g in c && p in c[g] :: (g, p)
  }

  // ---------- the states ----------

  /** No list names a peer twice. */
  ghost predicate DistinctLists(t: Tracker) { forall g :: g in t.cache ==> Distinct(t.cache[g]) }

  /** Every online row is listed. */
  ghost predicate Covers(t: Tracker) { OnlineKeys(t.table) <= CachedKeys(t.cache) }

  /** The lists are the online rows. */
  ghost predicate Agrees(t: Tracker) { CachedKeys(t.cache) == OnlineKeys(t.table) }

  /** Whoever is listed has a row. */
  ghost predicate Tracked(t: Tracker) { CachedKeys(t.cache) <= t.table.Keys }

  // ---------- what the operations do ----------

  datatype Fault = AllOk | ReadFails | WriteFails

  /** `upsert_peer`: a failing existence query counts as "no row", and an INSERT
      for an existing row fails on the primary key. Nothing changes on an error. */
  function UpsertResult(t: Tracker, group: string, peer: string, fault: Fault): Result<bool, ()> {
    var seenRow := (group, peer) in t.table && fault != ReadFails;
    if fault == WriteFails then Err(())
    else if !seenRow && (group, peer) in t.table then Err(())
    else Ok(!seenRow)
  }

  function Upsert(t: Tracker, group: string, peer: string, now: int, fault: Fault): Tracker {
    match UpsertResult(t, group, peer, fault)
    case Err(_) => t
    case Ok(isNew) =>
      var row := if isNew then Row(now, now, true) else t.table[(group, peer)].(lastSeen := now, online := true);
      Tracker(t.table[(group, peer) := row], AddToCache(t.cache, group, peer))
  }

  function AddToCache(c: Cache, group: string, peer: string): Cache {
    var peers := if group in c then c[group] else [];
    c[group := if peer in peers then peers else peers + [peer]]
  }

  /** `Vec::retain(|p| p != peer)`. */
  function Without(peers: seq<string>, peer: string): seq<string> {
    if peers == [] then []
    else (if peers[0] == peer then [] else [peers[0]]) + Without(peers[1..], peer)
  }

  function MarkOffline(t: Tracker, peer: string, now: int, fault: Fault): Tracker {
    if fault != AllOk then t
    else Tracker(OfflineTable(t.table, peer, now), OfflineCache(t.cache, peer))
  }

  /** `UPDATE ... SET is_online = 0, last_seen = now WHERE peer_id = peer`: rows that
      were offline already get the new time as well. */
  function OfflineTable(p: Peers, peer: string, now: int): Peers {
    map k | k in p :: if k.1 == peer then p[k].(online := false, lastSeen := now) else p[k]
  }

  function OfflineCache(c: Cache, peer: string): Cache {
    map g | g in c :: Without(c[g], peer)
  }

  /** The groups in which the peer was online. */
  ghost function AffectedGroups(t: Tracker, peer: string): set<string> {
    set k | k in t.table && k.1 == peer && t.table[k].online :: k.0
  }

  /** The rows a prune turns offline. */
  ghost function Stale(p: Peers, cutoff: int): set<Key> {
    set k | k in p && p[k].online && p[k].lastSeen < cutoff
  }

  function PruneTable(p: Peers, cutoff: int): Peers {
    map k | k in p :: if p[k].online && p[k].lastSeen < cutoff then p[k].(online := false) else p[k]
  }

  /** `load_cache` rebuilds the lists from the online rows; the order within a list
      is the order of the result set, which is not specified. */
  ghost predicate Loaded(table: Peers, cache: Cache) {
    && (forall g :: g in cache ==> Distinct(cache[g]) && cache[g] != [])
    && CachedKeys(cache) == OnlineKeys(table)
  }

  /** `prune_stale`: the UPDATE commits before the lists are reloaded, so with
      ReadFails the table has changed and the lists have not. */
  ghost predicate Pruned(t: Tracker, cutoff: int, fault: Fault, t': Tracker) {
    match fault
    case WriteFails => t' == t
    case ReadFails => t' == Tracker(PruneTable(t.table, cutoff), t.cache)
    case AllOk => t'.table == PruneTable(t.table, cutoff) && Loaded(t'.table, t'.cache)
  }

  // ---------- the object ----------

  class PeerTracker {
    var table: Peers
    var cache: Cache

    ghost function State(): Tracker
      reads this
    {
      Tracker(table, cache)
    }

    /** The tracker over the table found on disk, with nothing listed yet. */
    constructor (onDisk: Peers)
      ensures State() == Tracker(onDisk, map[])
    {
      table, cache := onDisk, map[];
    }

    method LoadCache(ok: bool) returns (r: Result<(), ()>)
      modifies this`cache
      ensures r == if ok then Ok(()) else Err(())
      ensures if ok then Loaded(table, cache) else cache == old(cache)
    {
      if !ok { return Err(()); }
      var rows := Listed(set k | k in table && table[k].online);
      cache := map[];
      var i := 0;
      while i < |rows|
        invariant 0 <= i <= |rows|
        invariant forall g :: g in cache ==> Distinct(cache[g]) && cache[g] != []
        invariant CachedKeys(cache) == Elements(rows[..i])
      {
        var (g, p) := rows[i];
        assert (g, p) !in Elements(rows[..i]);
        assert g in cache ==> p !in cache[g];
        ghost var before := cache;
        cache := cache[g := (if g in cache then cache[g] else []) + [p]];
        PushedKey(before, g, p);
        assert rows[..i + 1] == rows[..i] + [rows[i]];
        i := i + 1;
      }
      assert rows[..i] == rows;
      r := Ok(());
    }

    method UpsertPeer(group: string, peer: string, now: int, fault: Fault) returns (r: Result<bool, ()>)
      modifies this
      ensures State() == Upsert(old(State()), group, peer, now, fault)
      ensures r == UpsertResult(old(State()), group, peer, fault)
      // it fails on a failing write, and on a failing existence query when there is a row
      ensures r.Ok? <==> fault == AllOk || (fault == ReadFails && (group, peer) !in old(table))
      ensures r.Ok? ==> (r.value <==> (group, peer) !in old(table))
    {
      var known := fault != ReadFails && (group, peer) in table;
      if fault == WriteFails { return Err(()); }
      var isNew;
      if known {
        table := table[(group, peer) := table[(group, peer)].(lastSeen := now, online := true)];
        isNew := false;
      } else {
        if (group, peer) in table { return Err(()); }
        table := table[(group, peer) := Row(now, now, true)];
        isNew := true;
      }
      var peers := if group in cache then cache[group] else [];
      if peer !in peers {
        peers := peers + [peer];
      }
      cache := cache[group := peers];
      r := Ok(isNew);
    }

    method MarkPeerOffline(peer: string, now: int, fault: Fault) returns (r: Result<seq<string>, ()>)
      modifies this
      ensures State() == MarkOffline(old(State()), peer, now, fault)
      ensures r.Ok? <==> fault == AllOk
      ensures r.Ok? ==> Distinct(r.value) && Elements(r.value) == AffectedGroups(old(State()), peer)
      ensures r.Ok? ==>
                forall g :: g in r.value <==> (g, peer) in old(table) && old(table)[(g, peer)].online
    {
      if fault != AllOk { return Err(()); }
      var affected := Listed(set k | k in table && k.1 == peer && table[k].online :: k.0);
      table := OfflineTable(table, peer, now);
      var rest := cache.Keys;
      while rest != {}
        invariant rest <= cache.Keys == old(cache).Keys
        invariant table == OfflineTable(old(table), peer, now)
        invariant forall g :: g in cache ==>
                    cache[g] == if g in rest then old(cache)[g] else Without(old(cache)[g], peer)
        decreases rest
      {
        var g :| g in rest;
        var kept := Retain(cache[g], peer);
        cache := cache[g := kept];
        rest := rest - {g};
      }
      AffectedExactly(old(State()), peer);
      assert forall g :: g in affected <==> g in Elements(affected);
      r := Ok(affected);
    }

    static method Retain(peers: seq<string>, peer: string) returns (kept: seq<string>)
      ensures kept == Without(peers, peer)
    {
      kept := [];
      var i := 0;
      while i < |peers|
        invariant 0 <= i <= |peers|
        invariant kept + Without(peers[i..], peer) == Without(peers, peer)
      {
        assert peers[i..][1..] == peers[i + 1..];
        var keep := if peers[i] == peer then [] else [peers[i]];
        Glue(kept, keep, Without(peers[i + 1..], peer));
        kept := kept + keep;
        i := i + 1;
      }
    }

    method GetPeers(group: string) returns (peers: seq<string>)
      ensures peers == Cached(State(), group)
      ensures DistinctLists(State()) && Agrees(State()) ==> Distinct(peers) && Elements(peers) == Online(table, group)
    {
      peers := if group in cache then cache[group] else [];
      if Agrees(State()) { AgreesPerGroup(State(), group); }
    }

    method GetActiveGroups() returns (groups: seq<string>)
      ensures Distinct(groups)
      ensures Elements(groups) == set g | g in cache && cache[g] != []
      ensures Agrees(State()) ==> Elements(groups) == set k | k in table && table[k].online :: k.0
    {
      groups := Listed(set g | g in cache && cache[g] != []);
      if Agrees(State()) {
        forall g: string ensures (g in cache && cache[g] != []) <==> g in set k | k in table && table[k].online :: k.0 {
          AgreesPerGroup(State(), g);
          if g in cache && cache[g] != [] {
            assert cache[g][0] in Elements(cache[g]);
            assert cache[g][0] in Online(table, g);
          }
          if k :| k in table && table[k].online && k.0 == g {
            assert k.1 in Online(table, g);
          }
        }
      }
    }

    method PruneStale(now: int, maxAge: nat, fault: Fault) returns (r: Result<nat, ()>)
      modifies this
      ensures Pruned(old(State()), now - maxAge, fault, State())
      ensures r == if fault == AllOk then Ok(|Stale(old(table), now - maxAge)|) else Err(())
    {
      var cutoff := now - maxAge;
      if fault == WriteFails { return Err(()); }
      var count := |set k | k in table && table[k].online && table[k].lastSeen < cutoff|;
      table := PruneTable(table, cutoff);
      var loaded := LoadCache(fault == AllOk);
      r := if loaded.Ok? then Ok(count) else Err(());
    }

    /** The number of lists, empty ones included, and the sum of their lengths. */
    method Stats() returns (groups: nat, peers: nat)
      requires DistinctLists(State())
      ensures groups == |cache.Keys|
      ensures peers == |CachedKeys(cache)|
      ensures Agrees(State()) ==> peers == |OnlineKeys(table)|
    {
      groups, peers := |cache.Keys|, 0;
      var rest := cache.Keys;
      ghost var counted: set<Key> := {};
      while rest != {}
        invariant rest <= cache.Keys
        invariant counted == set g, p | g in cache.Keys - rest && p in cache[g] :: (g, p)
        invariant peers == |counted|
        decreases rest
      {
        var g :| g in rest;
        ListKeys(g, cache[g]);
        ghost var these := set p | p in cache[g] :: (g, p);
        assert counted !! these;
        assert |counted + these| == |counted| + |cache[g]|;
        peers := peers + |cache[g]|;
        rest := rest - {g};
        counted := counted + these;
      }
      assert counted == CachedKeys(cache);
    }
  }

  lemma AffectedExactly(t: Tracker, peer: string)
    ensures forall g :: g in AffectedGroups(t, peer) <==> (g, peer) in t.table && t.table[(g, peer)].online
  {
    forall g ensures g in AffectedGroups(t, peer) <==> (g, peer) in t.table && t.table[(g, peer)].online {
      if (g, peer) in t.table && t.table[(g, peer)].online { assert (g, peer).0 in AffectedGroups(t, peer); }
    }
  }

  lemma PushedKey(c: Cache, g: string, p: string)
    ensures CachedKeys(c[g := (if g in c then c[g] else []) + [p]]) == CachedKeys(c) + {(g, p)}
  {
    var c' := c[g := (if g in c then c[g] else []) + [p]];
    forall k ensures k in CachedKeys(c') <==> k in CachedKeys(c) || k == (g, p) {
      if k.0 == g {
        assert k in CachedKeys(c') <==> k.1 in c'[g];
      }
    }
  }

  lemma {:induction false} ListKeys(g: string, peers: seq<string>)
    requires Distinct(peers)
    ensures |set p | p in peers :: (g, p)| == |peers|
  {
    if peers != [] {
      var last := peers[|peers| - 1];
      var before := peers[..|peers| - 1];
      ListKeys(g, before);
      assert last !in before;
      assert (set p | p in peers :: (g, p)) == (set p | p in before :: (g, p)) + {(g, last)};
    }
  }

  lemma AgreesPerGroup(t: Tracker, group: string)
    requires Agrees(t)
    ensures Elements(Cached(t, group)) == Online(t.table, group)
  {
    forall p ensures p in Elements(Cached(t, group)) <==> p in Online(t.table, group) {
      assert p in Elements(Cached(t, group)) <==> (group, p) in CachedKeys(t.cache);
      assert p in Online(t.table, group) <==> (group, p) in OnlineKeys(t.table);
    }
  }
}
