/** The snapshot provider: an event stream folded into one materialised state per
    group, and the requester that downloads it. */
module Snapshot {
  import opened Wrappers
  import Events
  import opened Hex
  import Utf8

  type Event = Events.Event

  // ---------- data ----------

  datatype GroupData = GroupData(id: string, name: string, icon: string, color: string, createdAt: int)
  datatype WorkspaceData = WorkspaceData(id: string, groupId: string, name: string, createdAt: int)
  datatype BoardData = BoardData(id: string, workspaceId: string, name: string, boardMode: string, createdAt: int)
  datatype FileData = FileData(id: string, groupId: string, workspaceId: Option<string>, boardId: Option<string>,
                               name: string, hash: string, size: nat, createdAt: int)
  datatype ChatData = ChatData(id: string, workspaceId: string, message: string, author: string,
                               parentId: Option<string>, timestamp: int)

  datatype GroupSnapshot = GroupSnapshot(
    group: GroupData,
    workspaces: seq<WorkspaceData>,
    boards: seq<BoardData>,
    files: seq<FileData>,
    recentChats: seq<ChatData>,
    snapshotTs: nat)

  /** What the payload of an event parses to. `Other` is a payload that is not
      JSON, has no type or an unknown one, or misses a field of its type. A board
      event need not carry a time. */
  datatype Parsed =
    | GroupCreated(group: GroupData)
    | WorkspaceCreated(workspace: WorkspaceData)
    | BoardCreated(id: string, workspaceId: string, name: string, createdAt: Option<int>)
    | FileAvailable(file: FileData)
    | ChatSent(chat: ChatData)
    | Other

  const CHAT_WINDOW := 100

  // ---------- the fold ----------

  function EmptySnapshot(group: string): GroupSnapshot {
    GroupSnapshot(GroupData(group, "", "", "", 0), [], [], [], [], 0)
  }

  /** Push unless an element with the same key is there. */
  function PushNew<T>(list: seq<T>, x: T, key: T -> string): seq<T> {
    if key(x) in Keys(list, key) then list else list + [x]
  }

  function Keys<T>(list: seq<T>, key: T -> string): set<string> { set i | 0 <= i < |list| :: key(list[i]) }

  const WorkspaceId := (w: WorkspaceData) => w.id
  const BoardId := (b: BoardData) => b.id
  const FileId := (f: FileData) => f.id

  /** Push and keep at most CHAT_WINDOW elements. */
  function PushRecent<T>(list: seq<T>, x: T): seq<T> {
    (if |list| >= CHAT_WINDOW then list[1..] else list) + [x]
  }

  function Board(p: Parsed): BoardData
    requires p.BoardCreated?
  {
    BoardData(p.id, p.workspaceId, p.name, "freeform", if p.createdAt.Some? then p.createdAt.value else 0)
  }

  function Update(s: GroupSnapshot, p: Parsed, ts: nat): GroupSnapshot {
    var s' :=
      match p
      case GroupCreated(group) => s.(group := group)
      case WorkspaceCreated(w) => s.(workspaces := PushNew(s.workspaces, w, WorkspaceId))
      case BoardCreated(_, _, _, _) => s.(boards := PushNew(s.boards, Board(p), BoardId))
      case FileAvailable(f) => s.(files := PushNew(s.files, f, FileId))
      case ChatSent(c) => s.(recentChats := PushRecent(s.recentChats, c))
      case Other => s;
    s'.(snapshotTs := ts)
  }

  /** One update: the group it is for, the parsed payload and the event's time. */
  datatype Item = Item(group: string, parsed: Parsed, ts: nat)

  type Snapshots = map<string, GroupSnapshot>

  function UpdateAll(m: Snapshots, item: Item): Snapshots {
    var s := if item.group in m then m[item.group] else EmptySnapshot(item.group);
    m[item.group := Update(s, item.parsed, item.ts)]
  }

  /** The state after a stream of updates. */
  function Fold(items: seq<Item>): Snapshots {
    if items == [] then map[] else UpdateAll(Fold(items[..|items| - 1]), items[|items| - 1])
  }

  /** Exactly the groups that had an update have a snapshot. */
  lemma {:induction false} FoldKeys(items: seq<Item>, g: string)
    ensures g in Fold(items) <==> exists i :: 0 <= i < |items| && items[i].group == g
  {
    if items != [] {
      var before := items[..|items| - 1];
      FoldKeys(before, g);
      assert forall i :: 0 <= i < |before| ==> before[i] == items[i];
    }
  }

  // ---------- the provider ----------

  datatype SnapshotMessage =
    | RequestSnapshot(groupId: string, requesterNodeId: string, sinceTs: nat)
    | SnapshotAvailable(groupId: string, providerNodeId: string, itemCount: nat, latestTs: nat)
  {
    /** The count is a u32, the times are u64. */
    predicate InRange() {
      match this
      case RequestSnapshot(_, _, since) => since < U64
      case SnapshotAvailable(_, _, count, latest) => count < U32 && latest < U64
    }
  }

  const U32: nat := 0x1_0000_0000
  const U64: nat := 0x1_0000_0000_0000_0000

  class SnapshotProvider {
    const nodeId: string
    var snapshots: Snapshots
    /** The updates applied so far. */
    ghost var applied: seq<Item>

    ghost predicate Valid()
      reads this
    {
      snapshots == Fold(applied)
    }

    constructor (nodeId: string)
      ensures Valid() && this.nodeId == nodeId && applied == []
    {
      this.nodeId, snapshots, applied := nodeId, map[], [];
    }

    method UpdateFromEvent(group: string, parsed: Parsed, ts: nat)
      requires Valid()
      modifies this`snapshots, this`applied
      ensures Valid() && applied == old(applied) + [Item(group, parsed, ts)]
    {
      applied := applied + [Item(group, parsed, ts)];
      assert applied[..|applied| - 1] == old(applied);
      var s := if group in snapshots then snapshots[group] else EmptySnapshot(group);
      match parsed {
        case GroupCreated(g) =>
          s := s.(group := g);
        case WorkspaceCreated(w) =>
          if !(exists i :: 0 <= i < |s.workspaces| && s.workspaces[i].id == w.id) {
            s := s.(workspaces := s.workspaces + [w]);
          }
        case BoardCreated(id, workspaceId, name, createdAt) =>
          if !(exists i :: 0 <= i < |s.boards| && s.boards[i].id == id) {
            var at := if createdAt.Some? then createdAt.value else 0;
            s := s.(boards := s.boards + [BoardData(id, workspaceId, name, "freeform", at)]);
          }
        case FileAvailable(f) =>
          if !(exists i :: 0 <= i < |s.files| && s.files[i].id == f.id) {
            s := s.(files := s.files + [f]);
          }
        case ChatSent(c) =>
          var chats := s.recentChats;
          if |chats| >= 100 {
            chats := chats[1..];
          }
          s := s.(recentChats := chats + [c]);
        case Other =>
      }
      snapshots := snapshots[group := s.(snapshotTs := ts)];
    }

    /** There is a snapshot exactly when an event of the group was applied, and it
        is what the events applied so far fold into. */
    method GetSnapshot(group: string) returns (s: Option<GroupSnapshot>)
      requires Valid()
      ensures s.Some? <==> exists i :: 0 <= i < |applied| && applied[i].group == group
      ensures s.Some? ==> group in Fold(applied) && s.value == Fold(applied)[group]
    {
      FoldKeys(applied, group);
      s := if group in snapshots then Some(snapshots[group]) else None;
    }

    /** Counts are u32 in the message: the sum wraps modulo 2^32. */
    method HandleRequest(group: string) returns (m: Option<SnapshotMessage>)
      requires Valid()
      ensures m.Some? <==> group in Fold(applied)
      ensures m.Some? ==>
                var s := Fold(applied)[group];
                var items := 1 + |s.workspaces| + |s.boards| + |s.files| + |s.recentChats|;
                m.value == SnapshotAvailable(group, nodeId, items % U32, s.snapshotTs)
    {
      if group !in snapshots { return None; }
      var s := snapshots[group];
      var count := AddU32(1, |s.workspaces|);
      count := AddU32(count, |s.boards|);
      count := AddU32(count, |s.files|);
      count := AddU32(count, |s.recentChats|);
      WrappedSum(1 + |s.workspaces| + |s.boards| + |s.files|, |s.recentChats|);
      WrappedSum(1 + |s.workspaces| + |s.boards|, |s.files|);
      WrappedSum(1 + |s.workspaces|, |s.boards|);
      WrappedSum(1, |s.workspaces|);
      m := Some(SnapshotAvailable(group, nodeId, count, s.snapshotTs));
    }

    /** The bytes written to the stream, or None when there is no snapshot. */
    method ServeSnapshot(group: string, encode: GroupSnapshot -> seq<byte>) returns (sent: Option<seq<byte>>)
      requires Valid()
      ensures sent == if group in Fold(applied) then Some(WriteFrame(encode(Fold(applied)[group]))) else None
    {
      FoldKeys(applied, group);
      var s := GetSnapshot(group);
      if s.None? { return None; }
      var data := encode(s.value);
      var len := BigEndian(|data| % U32, 4);
      sent := Some(len + data);
    }
  }

  /** `a + len as u32` in wrapping arithmetic. */
  function AddU32(a: nat, len: nat): nat { (a + len % U32) % U32 }

  lemma WrappedSum(n: nat, len: nat)
    ensures AddU32(n % U32, len) == (n + len) % U32
  {
  }

  // ---------- framing ----------

  /** The last `k` base-256 digits of n, most significant first; for k = 4 this is
      `u32::to_be_bytes`. */
  function BigEndian(n: nat, k: nat): (b: seq<byte>)
    ensures |b| == k
  {
    if k == 0 then [] else BigEndian(n / 256, k - 1) + [n % 256]
  }

  function FromBigEndian(b: seq<byte>): nat {
    if b == [] then 0
    else
      var low: int := b[|b| - 1];
      256 * FromBigEndian(b[..|b| - 1]) + low
  }

  /** The length is cut to 32 bits before it is written. */
  function WriteFrame(data: seq<byte>): seq<byte> { BigEndian(|data| % U32, 4) + data }

  /** Read a length, then that many bytes; the payload and what follows it. None
      when the stream ends too early. */
  function ReadFrame(stream: seq<byte>): Option<(seq<byte>, seq<byte>)> {
    if |stream| < 4 then None
    else
      var len := FromBigEndian(stream[..4]);
      if |stream| < 4 + len then None
      else Some((stream[4..4 + len], stream[4 + len..]))
  }

  /** What the requester writes: the group id as UTF-8, framed. */
  function RequestBytes(group: string): seq<byte> { WriteFrame(Utf8.Encode(group)) }

  /** How the accepting side reads a request. */
  function ReadRequest(stream: seq<byte>): Option<string> {
    match ReadFrame(stream)
    case None => None
    case Some((data, _)) => Utf8.Decode(data)
  }

  // ---------- the requester ----------

  const SYNC_INTERVAL := 6 * 3600

  datatype DownloadError = ConnectFailed | StreamEnded | NotASnapshot

  /** The answer of `needs_snapshot`. The difference of times is unsigned: with
      overflow checks a last sync in the future panics, without it wraps. */
  datatype Needs = Answer(needed: bool) | Overflow

  function NeedsSnapshotAt(syncState: map<string, nat>, group: string, now: nat, checked: bool): Needs {
    if group !in syncState then Answer(true)
    else if syncState[group] <= now then Answer(now - syncState[group] > SYNC_INTERVAL)
    else if checked then Overflow
    else Answer((now - syncState[group]) % U64 > SYNC_INTERVAL)
  }

  class SnapshotRequester {
    const nodeId: string
    var syncState: map<string, nat>

    constructor (nodeId: string)
      ensures this.nodeId == nodeId && syncState == map[]
    {
      this.nodeId, syncState := nodeId, map[];
    }

    function CreateRequest(group: string): (m: SnapshotMessage)
      ensures m.RequestSnapshot? && m.groupId == group && m.requesterNodeId == nodeId && m.sinceTs == 0
    {
      RequestSnapshot(group, nodeId, 0)
    }

    /** `incoming` is what arrives on the stream; None when no connection could be
        made. The sync clock moves only when a whole snapshot was read. */
    method DownloadSnapshot(group: string, incoming: Option<seq<byte>>, decode: seq<byte> -> Option<GroupSnapshot>)
        returns (r: Result<GroupSnapshot, DownloadError>)
      modifies this`syncState
      ensures r == Download(incoming, decode)
      // a connection, a whole frame and a decodable payload are needed, in this order
      ensures r == Err(ConnectFailed) <==> incoming.None?
      ensures r == Err(StreamEnded) <==> incoming.Some? && ReadFrame(incoming.value).None?
      ensures r.Ok? ==> incoming.Some? && ReadFrame(incoming.value).Some?
                        && decode(ReadFrame(incoming.value).value.0) == Some(r.value)
      ensures syncState == if r.Ok? then old(syncState)[group := r.value.snapshotTs] else old(syncState)
    {
      if incoming.None? { return Err(ConnectFailed); }
      var stream := incoming.value;
      if |stream| < 4 { return Err(StreamEnded); }
      var len := FromBigEndian(stream[..4]);
      stream := stream[4..];
      if |stream| < len { return Err(StreamEnded); }
      assert incoming.value[4..4 + len] == stream[..len];
      var snapshot := decode(stream[..len]);
      if snapshot.None? { return Err(NotASnapshot); }
      syncState := syncState[group := snapshot.value.snapshotTs];
      r := Ok(snapshot.value);
    }

    /** From `ts` on the group needs a snapshot exactly when more than six hours have
        passed since; what the other groups need stays as it was. */
    method MarkSynced(group: string, ts: nat)
      modifies this`syncState
      ensures syncState == old(syncState)[group := ts]
      ensures forall now, checked :: ts <= now ==>
                NeedsSnapshotAt(syncState, group, now, checked) == Answer(now - ts > SYNC_INTERVAL)
      ensures forall g, now, checked :: g != group ==>
                NeedsSnapshotAt(syncState, g, now, checked) == NeedsSnapshotAt(old(syncState), g, now, checked)
    {
      syncState := syncState[group := ts];
    }

    method NeedsSnapshot(group: string, now: nat, checked: bool) returns (r: Needs)
      ensures r == NeedsSnapshotAt(syncState, group, now, checked)
      // a group never synced needs one, any other when it was synced more than six hours ago
      ensures group !in syncState ==> r == Answer(true)
      ensures group in syncState && syncState[group] <= now ==> r == Answer(now - syncState[group] > 21600)
    {
      if group !in syncState { return Answer(true); }
      var lastTs := syncState[group];
      if checked && now < lastTs { return Overflow; }
      var age := if lastTs <= now then now - lastTs else (now - lastTs) % U64;
      r := Answer(age > SYNC_INTERVAL);
    }
  }

  function Download(incoming: Option<seq<byte>>, decode: seq<byte> -> Option<GroupSnapshot>)
      : Result<GroupSnapshot, DownloadError>
  {
    if incoming.None? then Err(ConnectFailed)
    else
      match ReadFrame(incoming.value)
      case None => Err(StreamEnded)
      case Some((data, _)) => if decode(data).Some? then Ok(decode(data).value) else Err(NotASnapshot)
  }
}
