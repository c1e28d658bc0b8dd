/** What a snapshot holds, entry by entry and field by field, read off the stream of
    updates. */
module SnapshotContents {
  import opened Wrappers
  import opened Snapshot
  import opened SnapshotFold

  datatype Kind = Workspaces | Boards | Files

  /** The id of what a payload creates, if it is of this kind. */
  ghost function IdOf(kind: Kind, p: Parsed): Option<string> {
    match (kind, p)
    case (Workspaces, WorkspaceCreated(w)) => Some(w.id)
    case (Boards, BoardCreated(id, _, _, _)) => Some(id)
    case (Files, FileAvailable(f)) => Some(f.id)
    case _ => None
  }

  /** The i-th update of the stream is the first of its group that creates this id. */
  ghost predicate IsFirst(items: seq<Item>, g: string, kind: Kind, i: nat) {
    && i < |items| && items[i].group == g && IdOf(kind, items[i].parsed).Some?
    && forall j :: 0 <= j < i && items[j].group == g ==> IdOf(kind, items[j].parsed) != IdOf(kind, items[i].parsed)
  }

  /** How many of the first n updates are such first ones. */
  ghost function Firsts(items: seq<Item>, g: string, kind: Kind, n: nat): nat
    requires n <= |items|
  {
    if n == 0 then 0 else Firsts(items, g, kind, n - 1) + if IsFirst(items, g, kind, n - 1) then 1 else 0
  }

  /** The entry for the update: ids and names are its own, a board is freeform and has
      time 0 when it names none, workspaces and files are taken as they are. */
  ghost predicate EntryFor(s: GroupSnapshot, kind: Kind, at: nat, p: Parsed) {
    match (kind, p)
    case (Workspaces, WorkspaceCreated(w)) => at < |s.workspaces| && s.workspaces[at] == w
    case (Boards, BoardCreated(id, workspaceId, name, createdAt)) =>
      && at < |s.boards|
      && s.boards[at].id == id && s.boards[at].workspaceId == workspaceId && s.boards[at].name == name
      && s.boards[at].boardMode == "freeform"
      && s.boards[at].createdAt == (if createdAt.Some? then createdAt.value else 0)
    case (Files, FileAvailable(f)) => at < |s.files| && s.files[at] == f
    case _ => false
  }

  ghost function Length(s: GroupSnapshot, kind: Kind): nat {
    match kind
    case Workspaces => |s.workspaces|
    case Boards => |s.boards|
    case Files => |s.files|
  }

  /** The list of a kind has one entry for each first update, in order of arrival. */
  ghost predicate ListExactly(items: seq<Item>, g: string, kind: Kind, s: GroupSnapshot) {
    Length(s, kind) == Firsts(items, g, kind, |items|) && forall i: nat :: EntryExactly(items, g, kind, s, i)
  }

  /** If the i-th update is a first one, its entry stands in its place. */
  ghost predicate EntryExactly(items: seq<Item>, g: string, kind: Kind, s: GroupSnapshot, i: nat) {
    IsFirst(items, g, kind, i) ==> EntryFor(s, kind, Firsts(items, g, kind, i), items[i].parsed)
  }

  // ---------- first updates ----------

  lemma {:induction false} FirstsOfPrefix(items: seq<Item>, it: Item, g: string, kind: Kind, n: nat)
    requires n <= |items|
    ensures Firsts(items + [it], g, kind, n) == Firsts(items, g, kind, n)
    ensures n < |items| ==> (IsFirst(items + [it], g, kind, n) <==> IsFirst(items, g, kind, n))
  {
    if n > 0 { FirstsOfPrefix(items, it, g, kind, n - 1); }
    if n < |items| { assert forall j :: 0 <= j <= n ==> (items + [it])[j] == items[j]; }
  }

  lemma {:induction false} FirstsGrow(items: seq<Item>, g: string, kind: Kind, m: nat, n: nat)
    requires m <= n <= |items|
    ensures Firsts(items, g, kind, m) <= Firsts(items, g, kind, n)
    ensures m < n && IsFirst(items, g, kind, m) ==> Firsts(items, g, kind, m) < Firsts(items, g, kind, n)
  {
    if m < n { FirstsGrow(items, g, kind, m, n - 1); }
  }

  /** Every entry comes from a first update. */
  lemma {:induction false} FirstAt(items: seq<Item>, g: string, kind: Kind, n: nat, at: nat) returns (i: nat)
    requires n <= |items| && at < Firsts(items, g, kind, n)
    ensures i < n && IsFirst(items, g, kind, i) && Firsts(items, g, kind, i) == at
  {
    if at == Firsts(items, g, kind, n - 1) {
      i := n - 1;
    } else {
      i := FirstAt(items, g, kind, n - 1, at);
    }
  }

  /** Before every update that creates an id there is the first one that does. */
  lemma {:induction false} FirstOf(items: seq<Item>, g: string, kind: Kind, j: nat) returns (i: nat)
    requires j < |items| && items[j].group == g && IdOf(kind, items[j].parsed).Some?
    ensures i <= j && IsFirst(items, g, kind, i) && IdOf(kind, items[i].parsed) == IdOf(kind, items[j].parsed)
  {
    if IsFirst(items, g, kind, j) {
      i := j;
    } else {
      var k :| 0 <= k < j && items[k].group == g && IdOf(kind, items[k].parsed) == IdOf(kind, items[j].parsed);
      i := FirstOf(items, g, kind, k);
    }
  }

  /** The id of the entry at a position. */
  ghost function EntryId(s: GroupSnapshot, kind: Kind, at: nat): string
    requires at < Length(s, kind)
  {
    match kind
    case Workspaces => s.workspaces[at].id
    case Boards => s.boards[at].id
    case Files => s.files[at].id
  }

  /** An id is listed exactly when some update of the group created it. */
  lemma ListedExactly(items: seq<Item>, g: string, kind: Kind, s: GroupSnapshot, id: string)
    requires ListExactly(items, g, kind, s)
    ensures (exists at :: 0 <= at < Length(s, kind) && EntryId(s, kind, at) == id)
            <==> exists j :: 0 <= j < |items| && items[j].group == g && IdOf(kind, items[j].parsed) == Some(id)
  {
    if at :| 0 <= at < Length(s, kind) && EntryId(s, kind, at) == id {
      var i := FirstAt(items, g, kind, |items|, at);
      assert EntryExactly(items, g, kind, s, i);
    }
    if j :| 0 <= j < |items| && items[j].group == g && IdOf(kind, items[j].parsed) == Some(id) {
      var i := FirstOf(items, g, kind, j);
      FirstsGrow(items, g, kind, i, |items|);
      assert EntryExactly(items, g, kind, s, i);
      assert EntryId(s, kind, Firsts(items, g, kind, i)) == id;
    }
  }

  // ---------- one more update ----------

  /** The lists of one kind are the same. */
  ghost predicate SameList(s: GroupSnapshot, s': GroupSnapshot, kind: Kind) {
    match kind
    case Workspaces => s'.workspaces == s.workspaces
    case Boards => s'.boards == s.boards
    case Files => s'.files == s.files
  }

  lemma EntrySame(s: GroupSnapshot, s': GroupSnapshot, kind: Kind, at: nat, p: Parsed)
    requires EntryFor(s, kind, at, p) && SameList(s, s', kind)
    ensures EntryFor(s', kind, at, p)
  {
  }

  lemma OtherUpdate(items: seq<Item>, it: Item, g: string, kind: Kind, s: GroupSnapshot, s': GroupSnapshot)
    requires ListExactly(items, g, kind, s) && !IsFirst(items + [it], g, kind, |items|) && SameList(s, s', kind)
    ensures ListExactly(items + [it], g, kind, s')
  {
    FirstsOfPrefix(items, it, g, kind, |items|);
    assert Length(s', kind) == Length(s, kind);
    forall i: nat ensures EntryExactly(items + [it], g, kind, s', i) {
      if i < |items| {
        FirstsOfPrefix(items, it, g, kind, i);
        assert (items + [it])[i] == items[i] && EntryExactly(items, g, kind, s, i);
        if IsFirst(items, g, kind, i) { EntrySame(s, s', kind, Firsts(items, g, kind, i), items[i].parsed); }
      }
    }
  }

  lemma EntryStays(s: GroupSnapshot, s': GroupSnapshot, kind: Kind, at: nat, p: Parsed)
    requires EntryFor(s, kind, at, p)
    requires s.workspaces <= s'.workspaces && s.boards <= s'.boards && s.files <= s'.files
    ensures EntryFor(s', kind, at, p)
  {
  }

  lemma NewUpdate(items: seq<Item>, it: Item, g: string, kind: Kind, s: GroupSnapshot, s': GroupSnapshot)
    requires ListExactly(items, g, kind, s) && IsFirst(items + [it], g, kind, |items|)
    requires Length(s', kind) == Length(s, kind) + 1 && EntryFor(s', kind, Length(s, kind), it.parsed)
    requires s.workspaces <= s'.workspaces && s.boards <= s'.boards && s.files <= s'.files
    ensures ListExactly(items + [it], g, kind, s')
  {
    NewLength(items, it, g, kind);
    forall i: nat ensures EntryExactly(items + [it], g, kind, s', i) {
      NewEntry(items, it, g, kind, s, s', i);
    }
  }

  lemma NewLength(items: seq<Item>, it: Item, g: string, kind: Kind)
    requires IsFirst(items + [it], g, kind, |items|)
    ensures Firsts(items + [it], g, kind, |items|) == Firsts(items, g, kind, |items|)
    ensures Firsts(items + [it], g, kind, |items + [it]|) == Firsts(items, g, kind, |items|) + 1
  {
    FirstsOfPrefix(items, it, g, kind, |items|);
  }

  lemma NewEntry(items: seq<Item>, it: Item, g: string, kind: Kind, s: GroupSnapshot, s': GroupSnapshot, i: nat)
    requires ListExactly(items, g, kind, s) && IsFirst(items + [it], g, kind, |items|)
    requires EntryFor(s', kind, Length(s, kind), it.parsed)
    requires s.workspaces <= s'.workspaces && s.boards <= s'.boards && s.files <= s'.files
    ensures EntryExactly(items + [it], g, kind, s', i)
  {
    if i < |items| {
      FirstsOfPrefix(items, it, g, kind, i);
      assert (items + [it])[i] == items[i] && EntryExactly(items, g, kind, s, i);
      if IsFirst(items, g, kind, i) { EntryStays(s, s', kind, Firsts(items, g, kind, i), items[i].parsed); }
    } else if i == |items| {
      NewLength(items, it, g, kind);
      assert (items + [it])[i] == it;
    }
  }

  /** The update is the first of its id exactly when the id is not listed yet. */
  lemma FirstWhenNotListed(items: seq<Item>, it: Item, g: string, kind: Kind, s: GroupSnapshot)
    requires ListExactly(items, g, kind, s) && it.group == g && IdOf(kind, it.parsed).Some?
    ensures IsFirst(items + [it], g, kind, |items|)
            <==> forall at :: 0 <= at < Length(s, kind) ==> EntryId(s, kind, at) != IdOf(kind, it.parsed).value
  {
    var all := items + [it];
    ListedExactly(items, g, kind, s, IdOf(kind, it.parsed).value);
    assert forall j :: 0 <= j < |items| ==> all[j] == items[j];
    if j :| 0 <= j < |items| && items[j].group == g && IdOf(kind, items[j].parsed) == IdOf(kind, it.parsed) {
      assert all[j].group == g && IdOf(kind, all[j].parsed) == IdOf(kind, all[|items|].parsed);
    }
  }

  /** An id that is not listed is pushed. */
  lemma EntryPushed(s: GroupSnapshot, kind: Kind, p: Parsed, ts: nat)
    requires IdOf(kind, p).Some?
    requires forall at :: 0 <= at < Length(s, kind) ==> EntryId(s, kind, at) != IdOf(kind, p).value
    ensures var s' := Update(s, p, ts);
            Length(s', kind) == Length(s, kind) + 1 && EntryFor(s', kind, Length(s, kind), p)
  {
    match kind
    case Workspaces => assert p.workspace.id !in Keys(s.workspaces, WorkspaceId) by {
      assert forall at :: 0 <= at < |s.workspaces| ==> EntryId(s, kind, at) == WorkspaceId(s.workspaces[at]);
    }
    case Boards => assert p.id !in Keys(s.boards, BoardId) by {
      assert forall at :: 0 <= at < |s.boards| ==> EntryId(s, kind, at) == BoardId(s.boards[at]);
    }
    case Files => assert p.file.id !in Keys(s.files, FileId) by {
      assert forall at :: 0 <= at < |s.files| ==> EntryId(s, kind, at) == FileId(s.files[at]);
    }
  }

  lemma StepList(items: seq<Item>, it: Item, g: string, kind: Kind, s: GroupSnapshot)
    requires ListExactly(items, g, kind, s) && it.group == g
    ensures ListExactly(items + [it], g, kind, Update(s, it.parsed, it.ts))
  {
    var s' := Update(s, it.parsed, it.ts);
    if IdOf(kind, it.parsed).None? {
      OtherUpdate(items, it, g, kind, s, s');
    } else {
      FirstWhenNotListed(items, it, g, kind, s);
      if IsFirst(items + [it], g, kind, |items|) {
        EntryPushed(s, kind, it.parsed, it.ts);
        NewUpdate(items, it, g, kind, s, s');
      } else {
        OtherUpdate(items, it, g, kind, s, s');
      }
    }
  }

  // ---------- whole streams ----------

  ghost function SnapshotOf(items: seq<Item>, g: string): GroupSnapshot {
    if g in Fold(items) then Fold(items)[g] else EmptySnapshot(g)
  }

  /** The lists of a snapshot: for each kind one entry for every id the group's
      updates created, in order of arrival, and with the data of the first update
      that created it. */
  lemma {:induction false} ListsExactly(items: seq<Item>, g: string, kind: Kind)
    ensures ListExactly(items, g, kind, SnapshotOf(items, g))
  {
    if items != [] {
      var before, it := items[..|items| - 1], items[|items| - 1];
      ListsExactly(before, g, kind);
      assert items == before + [it];
      if it.group == g {
        StepList(before, it, g, kind, SnapshotOf(before, g));
      } else {
        OtherUpdate(before, it, g, kind, SnapshotOf(before, g), SnapshotOf(items, g));
      }
    }
  }

  /** A board, spelled out. */
  lemma BoardExactly(items: seq<Item>, g: string, i: nat)
    requires IsFirst(items, g, Boards, i)
    ensures g in Fold(items)
    ensures var p := items[i].parsed;
            exists b :: b in Fold(items)[g].boards && b.id == p.id && b.workspaceId == p.workspaceId && b.name == p.name
                        && b.boardMode == "freeform"
                        && b.createdAt == if p.createdAt.Some? then p.createdAt.value else 0
  {
    FoldKeys(items, g);
    ListsExactly(items, g, Boards);
    assert EntryExactly(items, g, Boards, SnapshotOf(items, g), i);
    var b := Fold(items)[g].boards[Firsts(items, g, Boards, i)];
    assert b in Fold(items)[g].boards;
  }

  /** The group data of the latest GroupCreated, if there was one. */
  ghost predicate LatestGroupData(items: seq<Item>, g: string, i: nat) {
    && i < |items| && items[i].group == g && items[i].parsed.GroupCreated?
    && forall j :: i < j < |items| && items[j].group == g ==> !items[j].parsed.GroupCreated?
  }

  lemma SameLatest(before: seq<Item>, it: Item, g: string, i: nat)
    requires !(it.group == g && it.parsed.GroupCreated?)
    ensures LatestGroupData(before + [it], g, i) <==> LatestGroupData(before, g, i)
  {
    var items := before + [it];
    assert forall j :: 0 <= j < |before| ==> items[j] == before[j];
    if LatestGroupData(items, g, i) {
      forall j | i < j < |before| && before[j].group == g ensures !before[j].parsed.GroupCreated? {
        assert items[j].group == g;
      }
    }
  }

  /** The group data a snapshot shows: that of the latest GroupCreated; before there
      was one the id of the group, no name, icon or colour, and time 0. */
  lemma {:induction false} GroupDataExactly(items: seq<Item>, g: string)
    requires g in Fold(items)
    ensures forall i: nat :: LatestGroupData(items, g, i) ==> Fold(items)[g].group == items[i].parsed.group
    ensures (forall i: nat :: !LatestGroupData(items, g, i)) ==>
              var d := Fold(items)[g].group;
              d.id == g && d.name == "" && d.icon == "" && d.color == "" && d.createdAt == 0
  {
    var n := |items| - 1;
    var before, it := items[..n], items[n];
    assert items == before + [it];
    assert it.group == g && it.parsed.GroupCreated? ==> LatestGroupData(items, g, n);
    if !(it.group == g && it.parsed.GroupCreated?) {
      forall i: nat ensures LatestGroupData(items, g, i) <==> LatestGroupData(before, g, i) {
        SameLatest(before, it, g, i);
      }
      if g in Fold(before) {
        GroupDataExactly(before, g);
      } else {
        FoldKeys(before, g);
      }
    }
  }

  /** The chats of a group, in order of arrival. */
  ghost function ChatsOf(items: seq<Item>, g: string): seq<ChatData> {
    if items == [] then []
    else
      var it := items[|items| - 1];
      ChatsOf(items[..|items| - 1], g) + if it.group == g && it.parsed.ChatSent? then [it.parsed.chat] else []
  }

  /** The last hundred, or all when there are fewer. */
  ghost function LastHundred(chats: seq<ChatData>): seq<ChatData> {
    chats[if |chats| <= 100 then 0 else |chats| - 100..]
  }

  lemma OneMoreChat(chats: seq<ChatData>, c: ChatData)
    ensures LastHundred(chats + [c]) == PushRecent(LastHundred(chats), c)
  {
  }

  lemma ChatsOfUpdate(s: GroupSnapshot, p: Parsed, ts: nat)
    ensures Update(s, p, ts).recentChats == if p.ChatSent? then PushRecent(s.recentChats, p.chat) else s.recentChats
  {
  }

  /** The window holds the last hundred chats of the group. */
  lemma {:induction false} ChatsExactly(items: seq<Item>, g: string)
    ensures SnapshotOf(items, g).recentChats == LastHundred(ChatsOf(items, g))
  {
    if items != [] {
      var before, it := items[..|items| - 1], items[|items| - 1];
      ChatsExactly(before, g);
      if it.group == g {
        ChatsOfUpdate(SnapshotOf(before, g), it.parsed, it.ts);
        if it.parsed.ChatSent? { OneMoreChat(ChatsOf(before, g), it.parsed.chat); }
      }
    }
  }

  /** The time of a snapshot is that of the last update of the group. */
  lemma {:induction false} TimeExactly(items: seq<Item>, g: string, i: nat)
    requires i < |items| && items[i].group == g && forall j :: i < j < |items| ==> items[j].group != g
    ensures g in Fold(items) && Fold(items)[g].snapshotTs == items[i].ts
    decreases |items|
  {
    if i < |items| - 1 { TimeExactly(items[..|items| - 1], g, i); }
  }
}
