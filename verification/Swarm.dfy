/** The blob swarm: who-has / i-have negotiation and the multi-holder fetch. */
module Swarm {
  import opened Wrappers
  import opened Json
  import opened JsonRoundTrip
  import Hex

  type Bytes = seq<Hex.byte>
  type Hash = Bytes
  type NodeId = string

  /** The chunks of a blob, in order. */
  type Blob = seq<Bytes>

  /** How blobs are named: a hash as text, the texts that are read as a hash (more
      than one may be read as the same), the hash function, and the blob behind
      each hash. */
  datatype Naming = Naming(show: Hash -> string, read: string -> Option<Hash>, hash: Bytes -> Hash,
                           blob: Hash -> Blob)
  {
    ghost predicate Canonical() { forall h :: read(show(h)) == Some(h) }

    /** The blob behind h is one that hashes to h. */
    predicate Addressed(h: Hash) { hash(Content(blob(h))) == h }

    function Chunks(h: Hash): set<nat> { Indexes(blob(h)) }
  }

  function Indexes(b: Blob): set<nat> { set k {:trigger b[k]} | 0 <= k < |b| }

  function Content(b: Blob): Bytes { if b == [] then [] else Content(b[..|b| - 1]) + b[|b| - 1] }

  lemma ContentOne(chunk: Bytes)
    ensures Content([chunk]) == chunk
  {
    assert [chunk][..0] == [];
  }

  /** The content is the chunks one after the other. */
  lemma {:induction false} ContentInOrder(a: Blob, b: Blob)
    ensures Content(a + b) == Content(a) + Content(b)
    decreases |b|
  {
    if b == [] {
      assert a + b == a;
    } else {
      var n := |b| - 1;
      assert (a + b)[..|a + b| - 1] == a + b[..n];
      ContentInOrder(a, b[..n]);
      Glue(Content(a), Content(b[..n]), b[n]);
    }
  }

  /** The bytes a store puts together from the chunks it has. */
  function Assembled(b: Blob, present: set<nat>): Bytes {
    if b == [] then []
    else
      var n := |b| - 1;
      Assembled(b[..n], present) + if n in present then b[n] else []
  }

  lemma {:induction false} AssembledWhole(b: Blob, present: set<nat>)
    requires Indexes(b) <= present
    ensures Assembled(b, present) == Content(b)
  {
    if b != [] {
      AssembledWhole(b[..|b| - 1], present);
      assert |b| - 1 in Indexes(b);
    }
  }

  // ---------- messages ----------

  datatype Message =
    | IHave(hash: string, holder: NodeId)
    | WhoHas(hash: string, requester: NodeId)

  function Encode(m: Message): Json {
    match m
    case IHave(hash, holder) =>
      Obj([Field("type", Str("IHave")), Field("hash", Str(hash)), Field("holder_node_id", Str(holder))])
    case WhoHas(hash, requester) =>
      Obj([Field("type", Str("WhoHas")), Field("hash", Str(hash)), Field("requester_node_id", Str(requester))])
  }

  function Decode(v: Json): Option<Message> {
    if !v.Obj? then None
    else
      match (StrMember(v.fields, "type"), StrMember(v.fields, "hash"),
             StrMember(v.fields, "holder_node_id"), StrMember(v.fields, "requester_node_id"))
      case (Some(t), Some(hash), holder, requester) =>
        if t == "IHave" && holder.Some? then Some(IHave(hash, holder.value))
        else if t == "WhoHas" && requester.Some? then Some(WhoHas(hash, requester.value))
        else None
      case _ => None
  }

  function ReadMessage(text: string): Option<Message> {
    var v := Parse(text);
    if v.Some? then Decode(v.value) else None
  }

  /** A message put on gossip is received as it was sent. */
  lemma MessageRoundTrip(m: Message)
    ensures ReadMessage(Print(Encode(m), Compact)) == Some(m)
  {
    var fs := Encode(m).fields;
    assert fs[0].name == "type" && fs[1].name == "hash" && |fs[2].name| > 4 && fs[0].name[0] != fs[1].name[0];
    forall i | 0 <= i < 3 ensures Member(fs, fs[i].name) == Found(fs[i].value) { OnlyMember(fs, i); }
    ParseOfPrint(Encode(m), Compact);
    assert "IHave"[0] != "WhoHas"[0];
  }

  // ---------- one node ----------

  /** hash text -> the nodes that announced it */
  type Registry = map<string, set<NodeId>>

  function Record(r: Registry, self: NodeId, hash: string, holder: NodeId): Registry {
    if holder == self then r
    else r[hash := (if hash in r then r[hash] else {}) + {holder}]
  }

  function Holders(r: Registry, naming: Naming, h: Hash): set<NodeId> {
    if naming.show(h) in r then r[naming.show(h)] else {}
  }

  datatype MessageError = Malformed | UnreadableHash | StoreFailed

  /** The blob a message asks for. */
  function Asked(naming: Naming, m: Message): Option<Hash> {
    if m.WhoHas? then naming.read(m.hash) else None
  }

  /** The reply to a message; `holds` tells whether the asked blob is held. */
  function Reply(self: NodeId, naming: Naming, m: Message, holds: bool): Result<Option<Message>, MessageError> {
    if m.IHave? then Ok(None)
    else
      match Asked(naming, m)
      case None => Err(UnreadableHash)
      case Some(h) => Ok(if holds then Some(IHave(naming.show(h), self)) else None)
  }

  // ---------- fetching ----------

  datatype Dial = Connected | Refused | TimedOut

  /** What happens when a holder is tried: whether the local store can be asked,
      whether the holder answers, the chunks that arrive before the transfer ends,
      and whether it ends without an error. */
  datatype Visit = Visit(queryOk: bool, dial: Dial, serves: set<nat>, transferOk: bool)

  datatype FetchError =
    | NoHolders
    | InvalidHolderId
    | StoreError
    | DialFailed(holder: NodeId)
    | DialTimedOut(holder: NodeId)
    | TransferFailed(holder: NodeId)
    | NoneServed
    | IntegrityFailed

  /** The chunks a node has after trying holders in turn: it stops when the store
      cannot be asked or the blob is complete, and a transfer adds only chunks of
      the blob. */
  function After(all: set<nat>, present: set<nat>, visits: seq<Visit>): set<nat>
    decreases |visits|
  {
    if visits == [] || !visits[0].queryOk || present == all then present
    else After(all, Transferred(all, present, visits[0]), visits[1..])
  }

  function Transferred(all: set<nat>, present: set<nat>, v: Visit): set<nat> {
    if v.dial == Connected then present + v.serves * all else present
  }

  /** The number of holders that are tried. */
  function Tried(all: set<nat>, present: set<nat>, visits: seq<Visit>): (n: nat)
    ensures n <= |visits|
    decreases |visits|
  {
    if visits == [] || !visits[0].queryOk || present == all then 0
    else 1 + Tried(all, Transferred(all, present, visits[0]), visits[1..])
  }

  /** The store cannot be asked before some holder. */
  function Stopped(all: set<nat>, present: set<nat>, visits: seq<Visit>): bool {
    var n := Tried(all, present, visits);
    n < |visits| && !visits[n].queryOk
  }

  /** What trying one holder leaves as an error, if anything. */
  function FailureOf(holder: NodeId, v: Visit): Option<FetchError> {
    match v.dial
    case Refused => Some(DialFailed(holder))
    case TimedOut => Some(DialTimedOut(holder))
    case Connected => if v.transferOk then None else Some(TransferFailed(holder))
  }

  /** The error of the last holder that left one. */
  function LastFailure(holders: seq<NodeId>, visits: seq<Visit>): Option<FetchError>
    requires |holders| == |visits|
  {
    if holders == [] then None
    else
      var n := |holders| - 1;
      var last := FailureOf(holders[n], visits[n]);
      if last.Some? then last else LastFailure(holders[..n], visits[..n])
  }

  /** What the store answers at the end: nothing, the chunks it has put together, or
      other bytes. */
  datatype Readback = Unanswered | Intact | Altered(bytes: Bytes)

  /** How a fetch ends: `present` are the chunks at the start, `parses` tells which
      holder ids are node ids, `visits` what happens at each holder. */
  function FetchResult(naming: Naming, h: Hash, present: set<nat>, holders: seq<NodeId>, parses: NodeId -> bool,
                       visits: seq<Visit>, readback: Readback): Result<Bytes, FetchError>
    requires |visits| == |holders|
  {
    var all := naming.Chunks(h);
    var n := Tried(all, present, visits);
    var lastErr := LastFailure(holders[..n], visits[..n]);
    var bytes := ReadBack(naming.blob(h), After(all, present, visits), readback);
    if holders == [] then Err(NoHolders)
    else if exists p :: p in holders && !parses(p) then Err(InvalidHolderId)
    else if Stopped(all, present, visits) || readback.Unanswered? then Err(StoreError)
    else if After(all, present, visits) != all then Err(if lastErr.Some? then lastErr.value else NoneServed)
    else if naming.hash(bytes) != h then Err(IntegrityFailed)
    else Ok(bytes)
  }

  function ReadBack(b: Blob, present: set<nat>, readback: Readback): Bytes {
    if readback.Altered? then readback.bytes else Assembled(b, present)
  }

  class BlobSwarm {
    const nodeId: NodeId
    const naming: Naming
    var store: map<Hash, set<nat>>
    var registry: Registry
    ghost var dialled: seq<NodeId>

    function Present(h: Hash): set<nat>
      reads this
    {
      if h in store then store[h] else {}
    }

    /** The store holds only chunks of the blob (verified streaming). */
    ghost predicate Valid()
      reads this
    {
      forall h :: h in store ==> store[h] <= naming.Chunks(h)
    }

    predicate Has(h: Hash)
      reads this
    {
      Present(h) == naming.Chunks(h)
    }

    constructor (nodeId: NodeId, naming: Naming)
      ensures Valid() && store == map[] && registry == map[] && dialled == []
      ensures this.nodeId == nodeId && this.naming == naming
    {
      this.nodeId, this.naming := nodeId, naming;
      store, registry, dialled := map[], map[], [];
    }

    method RecordHolder(hash: string, holder: NodeId)
      modifies this`registry
      ensures registry == Record(old(registry), nodeId, hash, holder)
    {
      if holder == nodeId { return; }
      var known := if hash in registry then registry[hash] else {};
      registry := registry[hash := known + {holder}];
    }

    /** `storeOk` is whether the store can be asked. Only a well-formed IHave
        changes anything. */
    method OnMessage(raw: string, storeOk: bool) returns (r: Result<Option<Message>, MessageError>)
      modifies this`registry
      ensures ReadMessage(raw).None? ==> r == Err(Malformed)
      ensures ReadMessage(raw).Some? ==>
                var m := ReadMessage(raw).value;
                var asked := Asked(naming, m);
                r == if asked.Some? && !storeOk then Err(StoreFailed)
                     else Reply(nodeId, naming, m, asked.Some? && Has(asked.value))
      // an IHave has no answer; a WhoHas needs a readable hash and a store that answers,
      // and is answered in the node's own name exactly when the blob is complete
      ensures ReadMessage(raw).Some? && ReadMessage(raw).value.IHave? ==> r == Ok(None)
      ensures ReadMessage(raw).Some? && ReadMessage(raw).value.WhoHas? ==>
                match naming.read(ReadMessage(raw).value.hash)
                case None => r == Err(UnreadableHash)
                case Some(h) =>
                  r == if !storeOk then Err(StoreFailed)
                       else Ok(if Has(h) then Some(IHave(naming.show(h), nodeId)) else None)
      ensures registry == match ReadMessage(raw)
                          case Some(IHave(hash, holder)) => Record(old(registry), nodeId, hash, holder)
                          case _ => old(registry)
    {
      var m := ReadMessage(raw);
      if m.None? { return Err(Malformed); }
      match m.value {
        case IHave(hash, holder) =>
          RecordHolder(hash, holder);
          r := Ok(None);
        case WhoHas(hash, _) =>
          var parsed := naming.read(hash);
          if parsed.None? { return Err(UnreadableHash); }
          if !storeOk { return Err(StoreFailed); }
          r := Ok(if Has(parsed.value) then Some(IHave(naming.show(parsed.value), nodeId)) else None);
      }
    }

    /** The other blobs are as they were. */
    twostate predicate OthersKept(h: Hash)
      reads this
    {
      forall g :: g in old(store) && g != h ==> g in store && store[g] == old(store)[g]
    }

    method TryHolder(h: Hash, holder: NodeId, v: Visit) returns (error: Option<FetchError>)
      requires Valid()
      modifies this`store, this`dialled
      ensures Valid() && OthersKept(h)
      ensures Present(h) == Transferred(naming.Chunks(h), old(Present(h)), v)
      ensures dialled == old(dialled) + [holder]
      ensures error == FailureOf(holder, v)
      ensures error.None? <==> v.dial == Connected && v.transferOk
    {
      dialled := dialled + [holder];
      match v.dial {
        case Refused =>
          error := Some(DialFailed(holder));
        case TimedOut =>
          error := Some(DialTimedOut(holder));
        case Connected =>
          store := store[h := Present(h) + v.serves * naming.Chunks(h)];
          error := if v.transferOk then None else Some(TransferFailed(holder));
      }
    }

    /** The loop over the holders; the last error met, or None when the store
        could not be asked. */
    method TryHolders(h: Hash, holders: seq<NodeId>, visits: seq<Visit>) returns (r: Option<Option<FetchError>>)
      requires Valid() && |visits| == |holders|
      modifies this`store, this`dialled
      ensures Valid() && OthersKept(h) && old(Present(h)) <= Present(h)
      ensures Present(h) == After(naming.Chunks(h), old(Present(h)), visits)
      ensures r.None? <==> Stopped(naming.Chunks(h), old(Present(h)), visits)
      ensures var n := Tried(naming.Chunks(h), old(Present(h)), visits);
              && dialled == old(dialled) + holders[..n]
              && (r.Some? ==> r.value == LastFailure(holders[..n], visits[..n]))
    {
      ghost var all := naming.Chunks(h);
      var lastErr := None;
      var i := 0;
      while i < |holders|
        invariant 0 <= i <= |holders|
        invariant Valid() && OthersKept(h) && old(Present(h)) <= Present(h)
        invariant After(all, Present(h), visits[i..]) == After(all, old(Present(h)), visits)
        invariant i + Tried(all, Present(h), visits[i..]) == Tried(all, old(Present(h)), visits)
        invariant dialled == old(dialled) + holders[..i]
        invariant lastErr == LastFailure(holders[..i], visits[..i])
      {
        if !visits[i].queryOk { return None; }
        if Has(h) { break; }
        assert visits[i..][1..] == visits[i + 1..];
        assert holders[..i + 1][..i] == holders[..i] && visits[..i + 1][..i] == visits[..i];
        var error := TryHolder(h, holders[i], visits[i]);
        lastErr := if error.Some? then error else lastErr;
        i := i + 1;
      }
      r := Some(lastErr);
    }

    /** `fetch`: see `FetchResult` for what the environment decides. */
    method Fetch(h: Hash, holders: seq<NodeId>, parses: NodeId -> bool, visits: seq<Visit>, readback: Readback)
        returns (r: Result<Bytes, FetchError>)
      requires Valid() && |visits| == |holders|
      modifies this`store, this`dialled
      ensures Valid() && OthersKept(h)
      ensures r == FetchResult(naming, h, old(Present(h)), holders, parses, visits, readback)
      // whatever the store answers, wrong bytes are not returned
      ensures r.Ok? ==> naming.hash(r.value) == h && Has(h)
      // what was present stays
      ensures old(Present(h)) <= Present(h) <= naming.Chunks(h)
      // a bad request changes nothing
      ensures holders == [] || (exists p :: p in holders && !parses(p)) ==>
                store == old(store) && dialled == old(dialled)
      // otherwise holders are tried in turn
      ensures holders != [] && (forall p :: p in holders ==> parses(p)) ==>
                && Present(h) == After(naming.Chunks(h), old(Present(h)), visits)
                && dialled == old(dialled) + holders[..Tried(naming.Chunks(h), old(Present(h)), visits)]
    {
      if holders == [] { return Err(NoHolders); }
      var i := 0;
      while i < |holders|
        invariant 0 <= i <= |holders|
        invariant forall k :: 0 <= k < i ==> parses(holders[k])
      {
        if !parses(holders[i]) { return Err(InvalidHolderId); }
        i := i + 1;
      }
      var tried := TryHolders(h, holders, visits);
      if tried.None? || readback.Unanswered? { return Err(StoreError); }
      var lastErr := tried.value;
      if !Has(h) { return Err(if lastErr.Some? then lastErr.value else NoneServed); }
      var bytes := ReadBack(naming.blob(h), Present(h), readback);
      if naming.hash(bytes) != h { return Err(IntegrityFailed); }
      r := Ok(bytes);
    }
  }

  // ---------- what a fetch achieves ----------

  /** The store answers before every holder. */
  ghost predicate Answering(visits: seq<Visit>) { forall v :: v in visits ==> v.queryOk }

  /** The chunks offered by the holders that answer. */
  ghost function Offered(visits: seq<Visit>): set<nat> {
    if visits == [] then {}
    else (if visits[0].dial == Connected then visits[0].serves else {}) + Offered(visits[1..])
  }

  /** Trying the holders in turn completes the blob exactly when the chunks already
      present and those offered by the holders that answer cover it, whatever the
      order of the holders and wherever their transfers break off. */
  lemma {:induction false} CompleteExactly(all: set<nat>, present: set<nat>, visits: seq<Visit>)
    requires present <= all && Answering(visits)
    ensures present <= After(all, present, visits) <= all
    ensures After(all, present, visits) == all <==> all <= present + Offered(visits)
    ensures !Stopped(all, present, visits)
    decreases |visits|
  {
    if visits != [] && present != all {
      CompleteExactly(all, Transferred(all, present, visits[0]), visits[1..]);
    }
  }

  /** A fetch of an addressed blob returns its content exactly when the chunks
      present at the start and those offered by the holders that answer cover it;
      nothing else can make it fail while ids parse and the store answers. */
  lemma FetchSucceedsExactly(naming: Naming, h: Hash, present: set<nat>, holders: seq<NodeId>,
                             parses: NodeId -> bool, visits: seq<Visit>)
    requires naming.Addressed(h) && present <= naming.Chunks(h)
    requires |visits| == |holders| > 0 && Answering(visits) && forall p :: p in holders ==> parses(p)
    ensures var r := FetchResult(naming, h, present, holders, parses, visits, Intact);
            && (r.Ok? ==> r.value == Content(naming.blob(h)))
            && (r.Ok? <==> naming.Chunks(h) <= present + Offered(visits))
  {
    CompleteExactly(naming.Chunks(h), present, visits);
    AssembledWhole(naming.blob(h), naming.Chunks(h));
  }

  lemma {:induction false} OfferedIncludes(visits: seq<Visit>, i: nat)
    requires i < |visits| && visits[i].dial == Connected
    ensures visits[i].serves <= Offered(visits)
  {
    if i > 0 { OfferedIncludes(visits[1..], i - 1); }
  }

  /** One holder that answers and serves what is missing makes the fetch succeed,
      whatever the holders before and after it do. */
  lemma OneGoodHolderSuffices(naming: Naming, h: Hash, present: set<nat>, holders: seq<NodeId>,
                              parses: NodeId -> bool, visits: seq<Visit>, i: nat)
    requires naming.Addressed(h) && present <= naming.Chunks(h)
    requires |visits| == |holders| && Answering(visits) && forall p :: p in holders ==> parses(p)
    requires i < |visits| && visits[i].dial == Connected && naming.Chunks(h) - present <= visits[i].serves
    ensures FetchResult(naming, h, present, holders, parses, visits, Intact) == Ok(Content(naming.blob(h)))
  {
    OfferedIncludes(visits, i);
    FetchSucceedsExactly(naming, h, present, holders, parses, visits);
  }

  /** The first `n` holders are tried and no more: before each of them the blob was
      incomplete, and after them it is complete, the store does not answer, or no
      holder is left. */
  lemma {:induction false} TriedExactlyUntilComplete(all: set<nat>, present: set<nat>, visits: seq<Visit>)
    ensures var n := Tried(all, present, visits);
            && (forall k :: 0 <= k < n ==> After(all, present, visits[..k]) != all && visits[k].queryOk)
            && After(all, present, visits[..n]) == After(all, present, visits)
            && (n < |visits| ==> After(all, present, visits) == all || !visits[n].queryOk)
    decreases |visits|
  {
    if visits != [] && visits[0].queryOk && present != all {
      var next := Transferred(all, present, visits[0]);
      TriedExactlyUntilComplete(all, next, visits[1..]);
      var n := Tried(all, present, visits);
      forall k | 0 < k <= n ensures After(all, present, visits[..k]) == After(all, next, visits[1..][..k - 1]) {
        assert visits[..k][1..] == visits[1..][..k - 1];
      }
    }
  }

  // ---------- how a fetch fails ----------

  /** What is reported about one holder. */
  ghost predicate Reports(e: FetchError, holder: NodeId, v: Visit) {
    || (v.dial == Refused && e == DialFailed(holder))
    || (v.dial == TimedOut && e == DialTimedOut(holder))
    || (v.dial == Connected && !v.transferOk && e == TransferFailed(holder))
  }

  ghost predicate Served(v: Visit) { v.dial == Connected && v.transferOk }

  /** The error kept is that of the last holder that did not serve without one. */
  lemma {:induction false} LastFailureExactly(holders: seq<NodeId>, visits: seq<Visit>)
    requires |holders| == |visits|
    ensures LastFailure(holders, visits).None? <==> forall k :: 0 <= k < |visits| ==> Served(visits[k])
    ensures LastFailure(holders, visits).Some? ==>
              exists k :: 0 <= k < |visits| && Reports(LastFailure(holders, visits).value, holders[k], visits[k])
                          && forall j :: k < j < |visits| ==> Served(visits[j])
  {
    if holders != [] {
      var n := |holders| - 1;
      LastFailureExactly(holders[..n], visits[..n]);
      if FailureOf(holders[n], visits[n]).Some? {
        assert Reports(FailureOf(holders[n], visits[n]).value, holders[n], visits[n]);
      } else {
        assert Served(visits[n]);
        assert forall k :: 0 <= k < n ==> visits[..n][k] == visits[k] && holders[..n][k] == holders[k];
      }
    }
  }

  /** Which error a failed fetch reports, in the order of precedence: no holders, an
      id that is none, a store that does not answer before a holder or at the end, the
      last failure among the holders tried while the blob stays incomplete, "none
      served" when there was no failure, and other bytes than those asked for. */
  lemma FetchFailsExactly(naming: Naming, h: Hash, present: set<nat>, holders: seq<NodeId>,
                          parses: NodeId -> bool, visits: seq<Visit>, readback: Readback)
    requires |visits| == |holders|
    ensures var r := FetchResult(naming, h, present, holders, parses, visits, readback);
            var all := naming.Chunks(h);
            var n := Tried(all, present, visits);
            var silent := readback.Unanswered? || (n < |visits| && !visits[n].queryOk);
            if holders == [] then r == Err(NoHolders)
            else if exists p :: p in holders && !parses(p) then r == Err(InvalidHolderId)
            else if silent then r == Err(StoreError)
            else if After(all, present, visits) != all then
              && r.Err?
              && (if forall k :: 0 <= k < n ==> Served(visits[k]) then r.error == NoneServed
                  else exists k :: 0 <= k < n && Reports(r.error, holders[k], visits[k])
                                   && forall j :: k < j < n ==> Served(visits[j]))
            else r.Ok? || r == Err(IntegrityFailed)
  {
    var n := Tried(naming.Chunks(h), present, visits);
    LastFailureExactly(holders[..n], visits[..n]);
    assert forall k :: 0 <= k < n ==> visits[..n][k] == visits[k] && holders[..n][k] == holders[k];
  }
}
