/** The scope tracker of the bootstrap node: an index from boards to workspaces and
    from workspaces to groups, built from the events that pass by. */
module Scope {
  import opened Wrappers
  import Utf8

  const U64: int := 0x1_0000_0000_0000_0000

  /** The events that are forwarded, with the fields the conversion uses; a
      notebook cell is one added or updated, `Unforwarded` is any other event. */
  datatype NetworkEvent =
    | GroupCreated(id: string, createdAt: int)
    | GroupRenamed(id: string)
    | WorkspaceCreated(id: string, groupId: string, createdAt: int)
    | BoardCreated(id: string, workspaceId: string, createdAt: int)
    | ChatSent(id: string, workspaceId: string, timestamp: int)
    | FileAvailable(id: string, fileGroup: Option<string>, fileWorkspace: Option<string>, createdAt: int)
    | WhiteboardElementAdded(id: string, boardId: string, createdAt: int)
    | NotebookCell(id: string, boardId: string, content: Option<string>)
    | Unforwarded
  {
    predicate OnBoard() { WhiteboardElementAdded? || NotebookCell? }

    /** The event says when something was created. */
    predicate Created() {
      GroupCreated? || WorkspaceCreated? || BoardCreated? || FileAvailable? || WhiteboardElementAdded?
    }
  }

  /** Times are i64 in events and u64 when forwarded: a negative one wraps. Renames
      and notebook cells carry no time of their own. */
  function Time(e: NetworkEvent, now: int): int {
    if e.GroupRenamed? || e.NotebookCell? || e.Unforwarded? then now
    else if e.ChatSent? then e.timestamp % U64
    else e.createdAt % U64
  }

  datatype RawEvent = RawEvent(
    groupId: string, workspaceId: string, externalId: string, threadId: Option<string>, ts: int)

  /** White_Space of Unicode, as `char::is_whitespace` tests it. */
  predicate IsWhitespace(c: char) {
    var n := c as int;
    9 <= n <= 13 || n == 0x20 || n == 0x85 || n == 0xA0 || n == 0x1680 || 0x2000 <= n <= 0x200A
    || n == 0x2028 || n == 0x2029 || n == 0x202F || n == 0x205F || n == 0x3000
  }

  /** `text.trim().is_empty()` */
  predicate IsBlank(text: string) { forall c :: c in text ==> IsWhitespace(c) }

  /** The group a message came from: the topic name without its "group/" prefix. */
  function GroupOfTopic(source: string): string {
    if "group/" <= source then source[6..] else source
  }

  /** The first 16 bytes of an id, or the whole of a shorter one, can be printed. */
  predicate Printable(id: string) { Utf8.Cut(id, 16).Some? }

  function OrElse(o: Option<string>, otherwise: string): string {
    if o.Some? then o.value else otherwise
  }

  function Lookup(m: map<string, string>, k: string): Option<string> {
    if k in m then Some(m[k]) else None
  }

  // ---------- history ----------

  /** The group of the latest WorkspaceCreated for a workspace. */
  ghost function LatestGroup(history: seq<NetworkEvent>, workspace: string): Option<string> {
    if history == [] then None
    else
      var e := history[|history| - 1];
      if e.WorkspaceCreated? && e.id == workspace then Some(e.groupId)
      else LatestGroup(history[..|history| - 1], workspace)
  }

  /** The workspace of the latest BoardCreated for a board. */
  ghost function LatestWorkspace(history: seq<NetworkEvent>, board: string): Option<string> {
    if history == [] then None
    else
      var e := history[|history| - 1];
      if e.BoardCreated? && e.id == board then Some(e.workspaceId)
      else LatestWorkspace(history[..|history| - 1], board)
  }

  /** The (group, workspace) of the last event of a history, read off the history;
      None when the event is not forwarded. */
  ghost function ScopeInHistory(history: seq<NetworkEvent>, topic: string): Option<(string, string)>
    requires history != []
  {
    match history[|history| - 1]
    case GroupCreated(id, _) => Some((id, ""))
    case GroupRenamed(id) => Some((id, ""))
    case WorkspaceCreated(id, group, _) => Some((group, id))
    case BoardCreated(_, w, _) => Some((OrElse(LatestGroup(history, w), topic), w))
    case ChatSent(_, w, _) => Some((OrElse(LatestGroup(history, w), topic), w))
    case FileAvailable(_, group, w, _) => Some((OrElse(group, topic), OrElse(w, "")))
    case WhiteboardElementAdded(_, board, _) => Some(BoardScope(history, board))
    case NotebookCell(_, board, content) =>
      if IsBlank(OrElse(content, "")) then None else Some(BoardScope(history, board))
    case Unforwarded => None
  }

  ghost function BoardScope(history: seq<NetworkEvent>, board: string): (string, string) {
    var w := OrElse(LatestWorkspace(history, board), "unknown");
    (OrElse(LatestGroup(history, w), "unknown"), w)
  }

  /** The maps of the tracker answer like a scan of the history. */
  ghost predicate Indexes(history: seq<NetworkEvent>, groups: map<string, string>, workspaces: map<string, string>) {
    && (forall w :: Lookup(groups, w) == LatestGroup(history, w))
    && (forall b :: Lookup(workspaces, b) == LatestWorkspace(history, b))
  }

  ghost function Scopes(out: Option<RawEvent>): Option<(string, string)> {
    if out.Some? then Some((out.value.groupId, out.value.workspaceId)) else None
  }

  /** The turn for the last event of a history panics: the group of its topic cannot
      be printed, or the event was forwarded and its id cannot be. */
  ghost predicate Panics(history: seq<NetworkEvent>, source: string, sent: bool)
    requires history != []
  {
    || !Printable(GroupOfTopic(source))
    || (ScopeInHistory(history, GroupOfTopic(source)).Some? && sent && !Printable(history[|history| - 1].id))
  }

  /** The turn for the last event of a history ends, and this is its conversion. */
  ghost predicate Converts(history: seq<NetworkEvent>, source: string, now: int, sent: bool, raw: Option<RawEvent>)
    requires history != []
  {
    && !Panics(history, source, sent)
    && Scopes(raw) == ScopeInHistory(history, GroupOfTopic(source))
    && var e := history[|history| - 1];
       raw.Some? ==> !e.Unforwarded? && raw.value.externalId == e.id && raw.value.ts == Time(e, now)
  }

  // ---------- the tracker ----------

  class ScopeTracker {
    var workspaceToGroup: map<string, string>
    var boardToWorkspace: map<string, string>

    constructor ()
      ensures Indexes([], workspaceToGroup, boardToWorkspace)
    {
      workspaceToGroup, boardToWorkspace := map[], map[];
    }

    function GroupForWorkspace(workspace: string): Option<string>
      reads this
    {
      Lookup(workspaceToGroup, workspace)
    }

    function ScopeForBoard(board: string): (string, string)
      reads this
    {
      var workspace := OrElse(Lookup(boardToWorkspace, board), "unknown");
      (OrElse(Lookup(workspaceToGroup, workspace), "unknown"), workspace)
    }

    /** `convert_network_event` at time `now`, after the events of `before`. */
    method Convert(event: NetworkEvent, topic: string, now: int, ghost before: seq<NetworkEvent>)
        returns (raw: Option<RawEvent>)
      requires Indexes(before, workspaceToGroup, boardToWorkspace)
      modifies this
      ensures Indexes(before + [event], workspaceToGroup, boardToWorkspace)
      ensures Scopes(raw) == ScopeInHistory(before + [event], topic)
      ensures raw.Some? ==> raw.value.externalId == event.id && raw.value.ts == Time(event, now)
      ensures raw.Some? ==> raw.value.threadId == if event.OnBoard() then Some(event.boardId) else None
    {
      assert (before + [event])[..|before|] == before;
      match event {
        case GroupCreated(id, createdAt) =>
          raw := Some(RawEvent(id, "", id, None, createdAt % U64));
        case GroupRenamed(id) =>
          raw := Some(RawEvent(id, "", id, None, now));
        case WorkspaceCreated(id, groupId, createdAt) =>
          workspaceToGroup := workspaceToGroup[id := groupId];
          raw := Some(RawEvent(groupId, id, id, None, createdAt % U64));
        case BoardCreated(id, workspaceId, createdAt) =>
          boardToWorkspace := boardToWorkspace[id := workspaceId];
          var group := OrElse(GroupForWorkspace(workspaceId), topic);
          raw := Some(RawEvent(group, workspaceId, id, None, createdAt % U64));
        case ChatSent(id, workspaceId, timestamp) =>
          var group := OrElse(GroupForWorkspace(workspaceId), topic);
          raw := Some(RawEvent(group, workspaceId, id, None, timestamp % U64));
        case FileAvailable(id, group, workspace, createdAt) =>
          raw := Some(RawEvent(OrElse(group, topic), OrElse(workspace, ""), id, None, createdAt % U64));
        case WhiteboardElementAdded(id, boardId, createdAt) =>
          var (group, workspace) := ScopeForBoard(boardId);
          raw := Some(RawEvent(group, workspace, id, Some(boardId), createdAt % U64));
        case NotebookCell(id, boardId, content) =>
          var (group, workspace) := ScopeForBoard(boardId);
          if IsBlank(OrElse(content, "")) {
            raw := None;
          } else {
            raw := Some(RawEvent(group, workspace, id, Some(boardId), now));
          }
        case Unforwarded =>
          raw := None;
      }
    }

    /** One turn of the receive loop; None when it panics. `sent` tells whether the
        broker takes the event. */
    method Receive(event: NetworkEvent, source: string, now: int, sent: bool, ghost before: seq<NetworkEvent>)
        returns (raw: Option<Option<RawEvent>>)
      requires Indexes(before, workspaceToGroup, boardToWorkspace)
      modifies this
      ensures raw.None? <==> Panics(before + [event], source, sent)
      ensures raw.Some? ==> Indexes(before + [event], workspaceToGroup, boardToWorkspace)
      ensures raw.Some? ==> Converts(before + [event], source, now, sent, raw.value)
    {
      var topic := GroupOfTopic(source);
      if !Printable(topic) { return None; }
      var converted := Convert(event, topic, now, before);
      if converted.Some? && sent && !Printable(converted.value.externalId) { return None; }
      raw := Some(converted);
    }

    /** The receive loop: each event is converted under the scope that the events
        up to it determine. The loop ends at the first turn that panics, and only
        there; `raws` holds the conversions of the turns before. */
    method ConvertAll(events: seq<NetworkEvent>, sources: seq<string>, times: seq<int>, sent: seq<bool>)
        returns (raws: seq<Option<RawEvent>>)
      requires |sources| == |times| == |sent| == |events| && Indexes([], workspaceToGroup, boardToWorkspace)
      modifies this
      ensures |raws| <= |events|
      ensures forall i :: 0 <= i < |raws| ==> Converts(events[..i + 1], sources[i], times[i], sent[i], raws[i])
      ensures |raws| < |events| ==> Panics(events[..|raws| + 1], sources[|raws|], sent[|raws|])
    {
      raws := [];
      var i := 0;
      while i < |events|
        invariant 0 <= i <= |events| && |raws| == i
        invariant Indexes(events[..i], workspaceToGroup, boardToWorkspace)
        invariant forall k :: 0 <= k < i ==> Converts(events[..k + 1], sources[k], times[k], sent[k], raws[k])
      {
        assert events[..i + 1] == events[..i] + [events[i]];
        var raw := Receive(events[i], sources[i], times[i], sent[i], events[..i]);
        if raw.None? { return; }
        raws := raws + [raw.value];
        i := i + 1;
      }
    }
  }

  // ---------- the latest event wins ----------

  /** The scan finds the last creation of a workspace: some event created it with
      that group, and no later event created it again. */
  lemma {:induction false} LatestGroupIsLatest(history: seq<NetworkEvent>, w: string, i: nat)
    requires i < |history| && history[i].WorkspaceCreated? && history[i].id == w
    requires forall k :: i < k < |history| ==> !(history[k].WorkspaceCreated? && history[k].id == w)
    ensures LatestGroup(history, w) == Some(history[i].groupId)
  {
    if i < |history| - 1 { LatestGroupIsLatest(history[..|history| - 1], w, i); }
  }

  lemma {:induction false} LatestWorkspaceIsLatest(history: seq<NetworkEvent>, b: string, i: nat)
    requires i < |history| && history[i].BoardCreated? && history[i].id == b
    requires forall k :: i < k < |history| ==> !(history[k].BoardCreated? && history[k].id == b)
    ensures LatestWorkspace(history, b) == Some(history[i].workspaceId)
  {
    if i < |history| - 1 { LatestWorkspaceIsLatest(history[..|history| - 1], b, i); }
  }

  lemma {:induction false} NeverCreated(history: seq<NetworkEvent>, w: string)
    ensures LatestGroup(history, w).None?
            <==> forall k :: 0 <= k < |history| ==> !(history[k].WorkspaceCreated? && history[k].id == w)
  {
    if history != [] {
      NeverCreated(history[..|history| - 1], w);
      var last := history[|history| - 1];
      assert last.WorkspaceCreated? && last.id == w ==> LatestGroup(history, w).Some?;
      assert forall k :: 0 <= k < |history| - 1 ==> history[..|history| - 1][k] == history[k];
    }
  }

  // ---------- the scope of each kind of event ----------

  /** The i-th event is the last one that creates the workspace. */
  ghost predicate CreatesLast(history: seq<NetworkEvent>, w: string, i: nat) {
    && i < |history| && history[i].WorkspaceCreated? && history[i].id == w
    && forall k :: i < k < |history| ==> !(history[k].WorkspaceCreated? && history[k].id == w)
  }

  /** The i-th event is the last one that creates the board. */
  ghost predicate PlacesLast(history: seq<NetworkEvent>, b: string, i: nat) {
    && i < |history| && history[i].BoardCreated? && history[i].id == b
    && forall k :: i < k < |history| ==> !(history[k].BoardCreated? && history[k].id == b)
  }

  /** Chats and boards belong to the group in which their workspace was last created;
      when nobody created it, to the group of the topic they came on. */
  lemma InWorkspace(history: seq<NetworkEvent>, topic: string)
    requires history != [] && (history[|history| - 1].ChatSent? || history[|history| - 1].BoardCreated?)
    ensures var w := history[|history| - 1].workspaceId;
            && (forall i: nat :: CreatesLast(history, w, i) ==>
                  ScopeInHistory(history, topic) == Some((history[i].groupId, w)))
            && ((forall i :: 0 <= i < |history| ==> !(history[i].WorkspaceCreated? && history[i].id == w)) ==>
                  ScopeInHistory(history, topic) == Some((topic, w)))
  {
    var w := history[|history| - 1].workspaceId;
    forall i: nat | CreatesLast(history, w, i) ensures ScopeInHistory(history, topic) == Some((history[i].groupId, w)) {
      LatestGroupIsLatest(history, w, i);
    }
    NeverCreated(history, w);
  }

  /** Elements of a board belong to the workspace in which the board was last created
      and to the group in which that was, or to the group "unknown"; a notebook cell
      only counts if it has text. */
  lemma OnBoard(history: seq<NetworkEvent>, topic: string, j: nat)
    requires history != [] && history[|history| - 1].OnBoard()
    requires PlacesLast(history, history[|history| - 1].boardId, j)
    ensures var e, w := history[|history| - 1], history[j].workspaceId;
            if e.NotebookCell? && IsBlank(OrElse(e.content, "")) then ScopeInHistory(history, topic) == None
            else
              && (forall i: nat :: CreatesLast(history, w, i) ==>
                    ScopeInHistory(history, topic) == Some((history[i].groupId, w)))
              && ((forall i :: 0 <= i < |history| ==> !(history[i].WorkspaceCreated? && history[i].id == w)) ==>
                    ScopeInHistory(history, topic) == Some(("unknown", w)))
  {
    var e, w := history[|history| - 1], history[j].workspaceId;
    LatestWorkspaceIsLatest(history, e.boardId, j);
    forall i: nat | CreatesLast(history, w, i) ensures LatestGroup(history, w) == Some(history[i].groupId) {
      LatestGroupIsLatest(history, w, i);
    }
    NeverCreated(history, w);
  }

  /** Groups, workspaces and files say themselves where they belong; a file that names
      no group belongs to that of its topic, one that names no workspace to none. */
  lemma SaysItself(history: seq<NetworkEvent>, e: NetworkEvent, topic: string)
    ensures var scope := ScopeInHistory(history + [e], topic);
            && (e.GroupCreated? || e.GroupRenamed? ==> scope == Some((e.id, "")))
            && (e.WorkspaceCreated? ==> scope == Some((e.groupId, e.id)))
            && (e.FileAvailable? ==> scope == Some((if e.fileGroup.Some? then e.fileGroup.value else topic,
                                                    if e.fileWorkspace.Some? then e.fileWorkspace.value else "")))
            && (e.Unforwarded? ==> scope == None)
  {
  }

  /** The group of a topic is what follows "group/"; a topic without it is a group. */
  lemma TopicGroup(g: string)
    ensures GroupOfTopic("group/" + g) == g
    ensures !("group/" <= g) ==> GroupOfTopic(g) == g
  {
    assert ("group/" + g)[6..] == g;
  }

  /** A time of an event is forwarded as it is, a negative one 2^64 later; renames and
      notebook cells get the time of the conversion. */
  lemma TimeExactly(e: NetworkEvent, t: int, now: int)
    requires -U64 <= t < U64
    ensures var sent := if t < 0 then t + 0x1_0000_0000_0000_0000 else t;
            && (e.ChatSent? && e.timestamp == t ==> Time(e, now) == sent)
            && (e.Created() && e.createdAt == t ==> Time(e, now) == sent)
    ensures e.GroupRenamed? || e.NotebookCell? ==> Time(e, now) == now
  {
    assert t < 0 ==> t % U64 == t + U64;
  }

  /** A board nobody created is filed under ("unknown", "unknown") exactly when no
      workspace with the id "unknown" was created, or the latest one was created in
      a group of that name. */
  lemma UnknownBoardExactly(history: seq<NetworkEvent>, b: string)
    requires LatestWorkspace(history, b).None?
    ensures BoardScope(history, b) == ("unknown", "unknown") <==>
              || (forall k :: 0 <= k < |history| ==> !(history[k].WorkspaceCreated? && history[k].id == "unknown"))
              || LatestGroup(history, "unknown") == Some("unknown")
  {
    NeverCreated(history, "unknown");
  }

  /** Otherwise it lands in the group of that workspace. */
  lemma UnknownBoardMisfiled()
    ensures var history := [WorkspaceCreated("unknown", "g", 0), WhiteboardElementAdded("e", "b", 0)];
            ScopeInHistory(history, "t") == Some(("g", "unknown"))
  {
    var history := [WorkspaceCreated("unknown", "g", 0), WhiteboardElementAdded("e", "b", 0)];
    assert history[..1] == [history[0]] && [history[0]][..0] == [];
    LatestGroupIsLatest(history, "unknown", 0);
    assert LatestWorkspace(history[..1], "b") == LatestWorkspace([], "b");
  }
}
