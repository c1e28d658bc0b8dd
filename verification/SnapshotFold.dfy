/** What the snapshot of a group is, in terms of the events that were applied. */
module SnapshotFold {
  import opened Wrappers
  import opened Snapshot
  import opened Hex
  import Utf8

  // ---------- first occurrences ----------

  /** The elements whose key no earlier element has, in order of arrival. */
  ghost function FirstByKey<T>(xs: seq<T>, key: T -> string): seq<T> {
    if xs == [] then []
    else
      var before, x := xs[..|xs| - 1], xs[|xs| - 1];
      FirstByKey(before, key) + if key(x) in Keys(before, key) then [] else [x]
  }

  lemma KeysSnoc<T>(xs: seq<T>, x: T, key: T -> string)
    ensures Keys(xs + [x], key) == Keys(xs, key) + {key(x)}
  {
    var all := xs + [x];
    assert key(x) in Keys(all, key) by { assert all[|xs|] == x; }
    forall k | k in Keys(xs, key) ensures k in Keys(all, key) {
      var i :| 0 <= i < |xs| && key(xs[i]) == k;
      assert all[i] == xs[i];
    }
  }

  lemma {:induction false} FirstByKeyKeys<T>(xs: seq<T>, key: T -> string)
    ensures Keys(FirstByKey(xs, key), key) == Keys(xs, key)
  {
    if xs != [] {
      var before, x := xs[..|xs| - 1], xs[|xs| - 1];
      FirstByKeyKeys(before, key);
      assert xs == before + [x];
      KeysSnoc(before, x, key);
      if key(x) in Keys(before, key) {
        assert FirstByKey(xs, key) == FirstByKey(before, key);
      } else {
        assert FirstByKey(xs, key) == FirstByKey(before, key) + [x];
        KeysSnoc(FirstByKey(before, key), x, key);
      }
    }
  }

  /** Pushing what is not there yet keeps the list of first occurrences. */
  lemma SnocFirst<T>(xs: seq<T>, x: T, key: T -> string)
    ensures FirstByKey(xs + [x], key) == PushNew(FirstByKey(xs, key), x, key)
  {
    FirstByKeyKeys(xs, key);
    assert (xs + [x])[..|xs|] == xs;
  }

  /** Elements with the same key are the same. */
  ghost predicate Consistent<T>(xs: seq<T>, key: T -> string) {
    forall i, j :: 0 <= i < |xs| && 0 <= j < |xs| && key(xs[i]) == key(xs[j]) ==> xs[i] == xs[j]
  }

  lemma {:induction false} ConsistentElements<T>(xs: seq<T>, key: T -> string)
    requires Consistent(xs, key)
    ensures Elements(FirstByKey(xs, key)) == Elements(xs)
  {
    if xs != [] {
      var before, x := xs[..|xs| - 1], xs[|xs| - 1];
      ConsistentElements(before, key);
      assert xs == before + [x];
      assert Elements(xs) == Elements(before) + {x};
      if key(x) in Keys(before, key) {
        var i :| 0 <= i < |before| && key(before[i]) == key(x);
        assert xs[i] == xs[|xs| - 1];
        assert x in before;
      }
    }
  }

  /** Consistency depends only on what a list holds. */
  lemma ConsistentTogether<T>(xs: seq<T>, ys: seq<T>, key: T -> string)
    requires Consistent(xs, key) && Elements(xs) == Elements(ys)
    ensures Consistent(ys, key)
  {
    forall i, j | 0 <= i < |ys| && 0 <= j < |ys| && key(ys[i]) == key(ys[j]) ensures ys[i] == ys[j] {
      assert ys[i] in Elements(xs) && ys[j] in Elements(xs);
      var k :| 0 <= k < |xs| && xs[k] == ys[i];
      var l :| 0 <= l < |xs| && xs[l] == ys[j];
    }
  }

  /** Elements that were all seen add nothing. */
  lemma {:induction false} ReplayAddsNothing<T>(xs: seq<T>, ys: seq<T>, key: T -> string)
    requires Elements(ys) <= Elements(xs)
    ensures FirstByKey(xs + ys, key) == FirstByKey(xs, key)
    decreases |ys|
  {
    if ys == [] {
      assert xs + ys == xs;
    } else {
      var before, y := ys[..|ys| - 1], ys[|ys| - 1];
      assert y in Elements(ys);
      assert forall x :: x in before ==> x in ys;
      ReplayAddsNothing(xs, before, key);
      assert (xs + ys)[..|xs + ys| - 1] == xs + before;
      assert y in xs;
      var i :| 0 <= i < |xs| && xs[i] == y;
      assert (xs + before)[i] == y;
    }
  }

  // ---------- the last entries ----------

  ghost function Last<T>(xs: seq<T>, n: nat): seq<T> {
    if |xs| <= n then xs else xs[|xs| - n..]
  }

  // ---------- the events of a group ----------

  ghost function ForGroup(items: seq<Item>, g: string): seq<Item> {
    if items == [] then []
    else
      var n := |items| - 1;
      ForGroup(items[..n], g) + if items[n].group == g then [items[n]] else []
  }

  lemma {:induction false} ForGroupMembers(items: seq<Item>, g: string)
    ensures forall it :: it in ForGroup(items, g) <==> it in items && it.group == g
  {
    if items != [] {
      ForGroupMembers(items[..|items| - 1], g);
      assert items == items[..|items| - 1] + [items[|items| - 1]];
    }
  }

  /** Everything a stream says about a group, kind by kind, in order of arrival. */
  datatype Record = Record(
    group: GroupData,
    workspaces: seq<WorkspaceData>,
    boards: seq<BoardData>,
    files: seq<FileData>,
    chats: seq<ChatData>,
    lastTs: nat)

  function Append(r: Record, p: Parsed, ts: nat): Record {
    var r' :=
      match p
      case GroupCreated(group) => r.(group := group)
      case WorkspaceCreated(w) => r.(workspaces := r.workspaces + [w])
      case BoardCreated(_, _, _, _) => r.(boards := r.boards + [Board(p)])
      case FileAvailable(f) => r.(files := r.files + [f])
      case ChatSent(c) => r.(chats := r.chats + [c])
      case Other => r;
    r'.(lastTs := ts)
  }

  ghost function History(g: string, items: seq<Item>): Record {
    if items == [] then Record(EmptySnapshot(g).group, [], [], [], [], 0)
    else
      var it := items[|items| - 1];
      Append(History(g, items[..|items| - 1]), it.parsed, it.ts)
  }

  /** The snapshot the history calls for: first occurrences by id, the last hundred
      chats, the last group data, the time of the last event. */
  ghost function View(r: Record): GroupSnapshot {
    GroupSnapshot(r.group, FirstByKey(r.workspaces, WorkspaceId), FirstByKey(r.boards, BoardId),
                  FirstByKey(r.files, FileId), Last(r.chats, CHAT_WINDOW), r.lastTs)
  }

  lemma SnocLast<T>(xs: seq<T>, x: T)
    ensures Last(xs + [x], CHAT_WINDOW) == PushRecent(Last(xs, CHAT_WINDOW), x)
  {
  }

  lemma UpdateOfView(r: Record, p: Parsed, ts: nat)
    ensures Update(View(r), p, ts) == View(Append(r, p, ts))
  {
    match p
    case WorkspaceCreated(w) => SnocFirst(r.workspaces, w, WorkspaceId);
    case BoardCreated(_, _, _, _) => SnocFirst(r.boards, Board(p), BoardId);
    case FileAvailable(f) => SnocFirst(r.files, f, FileId);
    case ChatSent(c) => SnocLast(r.chats, c);
    case _ =>
  }

  lemma HistorySnoc(g: string, items: seq<Item>, it: Item)
    ensures History(g, items + [it]) == Append(History(g, items), it.parsed, it.ts)
  {
    assert (items + [it])[..|items|] == items;
  }

  /** The fold is the naive reading of the stream, group by group; events of other
      groups have no influence. */
  lemma {:induction false} FoldIsPerGroup(items: seq<Item>, g: string)
    ensures g in Fold(items) <==> ForGroup(items, g) != []
    ensures g in Fold(items) ==> Fold(items)[g] == View(History(g, ForGroup(items, g)))
  {
    if items != [] {
      var before, it := items[..|items| - 1], items[|items| - 1];
      FoldIsPerGroup(before, g);
      if it.group == g {
        UpdateOfView(History(g, ForGroup(before, g)), it.parsed, it.ts);
        HistorySnoc(g, ForGroup(before, g), it);
        assert ForGroup(items, g) == ForGroup(before, g) + [it];
      } else {
        assert ForGroup(items, g) == ForGroup(before, g);
      }
    }
  }

  // ---------- order and overlap ----------

  ghost function WorkspacesIn(items: seq<Item>): set<WorkspaceData> {
    set it | it in items && it.parsed.WorkspaceCreated? :: it.parsed.workspace
  }

  ghost function BoardsIn(items: seq<Item>): set<BoardData> {
    set it | it in items && it.parsed.BoardCreated? :: Board(it.parsed)
  }

  ghost function FilesIn(items: seq<Item>): set<FileData> {
    set it | it in items && it.parsed.FileAvailable? :: it.parsed.file
  }

  /** A list that grew by what one item adds. */
  lemma GrownElements<T>(list: seq<T>, x: T)
    ensures Elements(list + [x]) == Elements(list) + {x}
  {
  }

  lemma InSnoc(items: seq<Item>, it: Item)
    ensures WorkspacesIn(items + [it])
         == WorkspacesIn(items) + (if it.parsed.WorkspaceCreated? then {it.parsed.workspace} else {})
    ensures BoardsIn(items + [it]) == BoardsIn(items) + (if it.parsed.BoardCreated? then {Board(it.parsed)} else {})
    ensures FilesIn(items + [it]) == FilesIn(items) + (if it.parsed.FileAvailable? then {it.parsed.file} else {})
  {
    assert forall x :: x in items + [it] <==> x in items || x == it;
  }

  /** The history holds exactly the data of the events. */
  lemma {:induction false} HistoryMembers(g: string, items: seq<Item>)
    ensures Elements(History(g, items).workspaces) == WorkspacesIn(items)
    ensures Elements(History(g, items).boards) == BoardsIn(items)
    ensures Elements(History(g, items).files) == FilesIn(items)
  {
    if items != [] {
      var before, it := items[..|items| - 1], items[|items| - 1];
      var r := History(g, before);
      HistoryMembers(g, before);
      assert items == before + [it];
      InSnoc(before, it);
      match it.parsed
      case WorkspaceCreated(w) => GrownElements(r.workspaces, w);
      case BoardCreated(_, _, _, _) => GrownElements(r.boards, Board(it.parsed));
      case FileAvailable(f) => GrownElements(r.files, f);
      case _ =>
    }
  }

  /** Events of one kind with one id carry the same data. */
  ghost predicate ConsistentRecord(r: Record) {
    Consistent(r.workspaces, WorkspaceId) && Consistent(r.boards, BoardId) && Consistent(r.files, FileId)
  }

  lemma ViewElements(r: Record)
    requires ConsistentRecord(r)
    ensures Elements(View(r).workspaces) == Elements(r.workspaces)
    ensures Elements(View(r).boards) == Elements(r.boards)
    ensures Elements(View(r).files) == Elements(r.files)
  {
    ConsistentElements(r.workspaces, WorkspaceId);
    ConsistentElements(r.boards, BoardId);
    ConsistentElements(r.files, FileId);
  }

  lemma SameHistoryElements(g: string, a: seq<Item>, b: seq<Item>)
    requires forall it :: it in a <==> it in b
    ensures Elements(History(g, a).workspaces) == Elements(History(g, b).workspaces)
    ensures Elements(History(g, a).boards) == Elements(History(g, b).boards)
    ensures Elements(History(g, a).files) == Elements(History(g, b).files)
  {
    HistoryMembers(g, a);
    HistoryMembers(g, b);
  }

  ghost predicate SameSets(s: GroupSnapshot, s': GroupSnapshot) {
    && Elements(s.workspaces) == Elements(s'.workspaces)
    && Elements(s.boards) == Elements(s'.boards)
    && Elements(s.files) == Elements(s'.files)
  }

  /** Events of one kind with one id carry the same data, in one group. */
  ghost predicate ConsistentFor(items: seq<Item>, g: string) { ConsistentRecord(History(g, ForGroup(items, g))) }

  /** Two streams with the same events, in any order and with any repetitions,
      give every group the same sets of workspaces, boards and files. */
  lemma OrderInsensitive(items: seq<Item>, items': seq<Item>, g: string)
    requires Elements(items) == Elements(items')
    requires ConsistentFor(items, g)
    ensures g in Fold(items) <==> g in Fold(items')
    ensures g in Fold(items) && g in Fold(items') ==> SameSets(Fold(items)[g], Fold(items')[g])
  {
    var a, b := ForGroup(items, g), ForGroup(items', g);
    assert forall it :: it in items <==> it in Elements(items);
    assert forall it :: it in items' <==> it in Elements(items');
    FoldIsPerGroup(items, g);
    FoldIsPerGroup(items', g);
    ForGroupMembers(items, g);
    ForGroupMembers(items', g);
    SameMembersBothEmpty(a, b);
    SameHistoryElements(g, a, b);
    ConsistentTogether(History(g, a).workspaces, History(g, b).workspaces, WorkspaceId);
    ConsistentTogether(History(g, a).boards, History(g, b).boards, BoardId);
    ConsistentTogether(History(g, a).files, History(g, b).files, FileId);
    ViewElements(History(g, a));
    ViewElements(History(g, b));
  }

  lemma SameMembersBothEmpty(a: seq<Item>, b: seq<Item>)
    requires forall it :: it in a <==> it in b
    ensures a == [] <==> b == []
  {
    if a != [] { assert a[0] in b; }
    if b != [] { assert b[0] in a; }
  }

  lemma {:induction false} ForGroupConcat(items: seq<Item>, more: seq<Item>, all: seq<Item>, g: string)
    requires all == items + more
    ensures ForGroup(all, g) == ForGroup(items, g) + ForGroup(more, g)
    decreases |more|
  {
    if more == [] {
      assert all == items;
    } else {
      assert all[..|all| - 1] == items + more[..|more| - 1];
      ForGroupConcat(items, more[..|more| - 1], all[..|all| - 1], g);
    }
  }

  /** `r` lists what `first` lists, followed by what `second` lists. */
  ghost predicate Follows(r: Record, first: Record, second: Record) {
    && r.workspaces == first.workspaces + second.workspaces
    && r.boards == first.boards + second.boards
    && r.files == first.files + second.files
  }

  lemma AppendFollows(r: Record, first: Record, second: Record, p: Parsed, ts: nat)
    requires Follows(r, first, second)
    ensures Follows(Append(r, p, ts), first, Append(second, p, ts))
  {
  }

  lemma {:induction false} HistoryConcat(g: string, a: seq<Item>, b: seq<Item>, all: seq<Item>)
    requires all == a + b
    ensures Follows(History(g, all), History(g, a), History(g, b))
    decreases |b|
  {
    if b == [] {
      assert all == a;
    } else {
      var allBefore, before, it := all[..|all| - 1], b[..|b| - 1], b[|b| - 1];
      assert allBefore == a + before && all[|all| - 1] == it;
      HistoryConcat(g, a, before, allBefore);
      AppendFollows(History(g, allBefore), History(g, a), History(g, before), it.parsed, it.ts);
    }
  }

  /** Applying events again that were applied before, as a snapshot followed by an
      overlapping stream does, leaves the three lists exactly as they were. */
  lemma ReplayTolerant(items: seq<Item>, again: seq<Item>, g: string)
    requires forall it :: it in again ==> it in items
    requires g in Fold(items)
    ensures g in Fold(items + again)
    ensures Fold(items + again)[g].workspaces == Fold(items)[g].workspaces
    ensures Fold(items + again)[g].boards == Fold(items)[g].boards
    ensures Fold(items + again)[g].files == Fold(items)[g].files
  {
    var a, b := ForGroup(items, g), ForGroup(again, g);
    FoldIsPerGroup(items, g);
    FoldIsPerGroup(items + again, g);
    ForGroupConcat(items, again, items + again, g);
    ForGroupMembers(items, g);
    ForGroupMembers(again, g);
    HistoryReplay(g, a, b);
  }

  lemma HistoryReplay(g: string, a: seq<Item>, b: seq<Item>)
    requires forall it :: it in b ==> it in a
    ensures View(History(g, a + b)).workspaces == View(History(g, a)).workspaces
    ensures View(History(g, a + b)).boards == View(History(g, a)).boards
    ensures View(History(g, a + b)).files == View(History(g, a)).files
  {
    HistoryConcat(g, a, b, a + b);
    HistoryMembers(g, a);
    HistoryMembers(g, b);
    ReplayAddsNothing(History(g, a).workspaces, History(g, b).workspaces, WorkspaceId);
    ReplayAddsNothing(History(g, a).boards, History(g, b).boards, BoardId);
    ReplayAddsNothing(History(g, a).files, History(g, b).files, FileId);
  }

  // ---------- replayed chats ----------

  /** A list that is its own tail followed by x holds nothing but x. */
  lemma {:induction false} ShiftedIsConstant<T>(xs: seq<T>, x: T, i: nat)
    requires i < |xs| && xs == xs[1..] + [x]
    ensures xs[i] == x
    decreases |xs| - i
  {
    if i < |xs| - 1 {
      ShiftedIsConstant(xs, x, i + 1);
      assert xs[i] == xs[1..][i];
    }
  }

  lemma PushChangesNothing<T>(xs: seq<T>, x: T)
    requires |xs| <= CHAT_WINDOW
    ensures PushRecent(xs, x) == xs <==> |xs| == CHAT_WINDOW && forall i :: 0 <= i < |xs| ==> xs[i] == x
  {
    if PushRecent(xs, x) == xs {
      assert |xs| == CHAT_WINDOW;
      forall i | 0 <= i < |xs| ensures xs[i] == x { ShiftedIsConstant(xs, x, i); }
    }
  }

  lemma ChatApplied(items: seq<Item>, g: string, c: ChatData, ts: nat)
    requires g in Fold(items)
    ensures var again := Fold(items + [Item(g, ChatSent(c), ts)]);
            g in again && again[g].recentChats == PushRecent(Fold(items)[g].recentChats, c)
  {
    assert (items + [Item(g, ChatSent(c), ts)])[..|items|] == items;
  }

  /** Chats carry no check for repetitions: a chat, new or replayed, changes the
      window of its group unless the window is full and holds nothing else. */
  lemma ReplayedChatExactly(items: seq<Item>, g: string, c: ChatData, ts: nat)
    requires g in Fold(items)
    ensures var chats, again := Fold(items)[g].recentChats, Fold(items + [Item(g, ChatSent(c), ts)]);
            && g in again
            && (again[g].recentChats == chats
                <==> |chats| == CHAT_WINDOW && forall i :: 0 <= i < |chats| ==> chats[i] == c)
  {
    var chats := Fold(items)[g].recentChats;
    FoldIsPerGroup(items, g);
    ChatApplied(items, g, c, ts);
    PushChangesNothing(chats, c);
  }

  // ---------- the advertised time ----------

  /** The time of the newest event that carried an item. */
  ghost function NewestItem(items: seq<Item>): Option<nat> {
    if items == [] then None
    else
      var earlier, last := NewestItem(items[..|items| - 1]), items[|items| - 1];
      if last.parsed.Other? || (earlier.Some? && earlier.value > last.ts) then earlier else Some(last.ts)
  }

  lemma {:induction false} NewestItemIsNewest(items: seq<Item>)
    ensures NewestItem(items).None? <==> forall it :: it in items ==> it.parsed.Other?
    ensures NewestItem(items).Some? ==>
              && (exists it :: it in items && !it.parsed.Other? && it.ts == NewestItem(items).value)
              && (forall it :: it in items && !it.parsed.Other? ==> it.ts <= NewestItem(items).value)
  {
    if items != [] {
      var before, last := items[..|items| - 1], items[|items| - 1];
      NewestItemIsNewest(before);
      assert forall it :: it in items <==> it in before || it == last;
    }
  }

  /** The time a snapshot carries is that of the last event applied. It is the time
      of the group's most recent item exactly when that event carries an item and no
      earlier item is newer, or it carries none and has the time of the newest one. */
  lemma LatestTimeExactly(items: seq<Item>, last: Item)
    ensures var g := last.group;
            var earlier := NewestItem(ForGroup(items, g));
            && g in Fold(items + [last])
            && (Some(Fold(items + [last])[g].snapshotTs) == NewestItem(ForGroup(items + [last], g)) <==>
                if last.parsed.Other? then earlier == Some(last.ts)
                else forall it :: it in ForGroup(items, g) && !it.parsed.Other? ==> it.ts <= last.ts)
  {
    var g := last.group;
    var mine := ForGroup(items, g);
    FoldIsPerGroup(items + [last], g);
    assert (items + [last])[..|items|] == items;
    assert ForGroup(items + [last], g) == mine + [last];
    assert (mine + [last])[..|mine|] == mine;
    NewestItemIsNewest(mine);
  }

  /** An old item applied late sets the time back. */
  lemma LateItemSetsTimeBack(g: string, w: WorkspaceData, v: WorkspaceData)
    ensures var items := [Item(g, WorkspaceCreated(w), 9), Item(g, WorkspaceCreated(v), 5)];
            && g in Fold(items) && Fold(items)[g].snapshotTs == 5
            && NewestItem(ForGroup(items, g)) == Some(9)
  {
    TwoUpdates(Item(g, WorkspaceCreated(w), 9), Item(g, WorkspaceCreated(v), 5));
  }

  /** An event that carries no item moves the time even when all times are in order. */
  lemma UnreadableEventMovesTime(g: string, w: WorkspaceData)
    ensures var items := [Item(g, WorkspaceCreated(w), 5), Item(g, Other, 9)];
            && g in Fold(items) && Fold(items)[g].snapshotTs == 9
            && NewestItem(ForGroup(items, g)) == Some(5)
  {
    TwoUpdates(Item(g, WorkspaceCreated(w), 5), Item(g, Other, 9));
  }

  lemma TwoUpdates(a: Item, b: Item)
    requires a.group == b.group && !a.parsed.Other?
    ensures a.group in Fold([a, b]) && Fold([a, b])[a.group].snapshotTs == b.ts
    ensures NewestItem(ForGroup([a, b], a.group)) == Some(if b.parsed.Other? || a.ts > b.ts then a.ts else b.ts)
  {
    assert [a, b][..1] == [a] && [a][..0] == [];
    assert ForGroup([a], a.group) == [a];
    assert ForGroup([a, b], a.group) == [a] + [b] == [a, b];
    assert NewestItem([a]) == Some(a.ts);
    FoldIsPerGroup([a, b], a.group);
  }

  // ---------- transfer ----------

  function Pow256(k: nat): nat { if k == 0 then 1 else 256 * Pow256(k - 1) }

  lemma {:induction false} BigEndianRoundTrip(n: nat, k: nat)
    requires n < Pow256(k)
    ensures FromBigEndian(BigEndian(n, k)) == n
  {
    if k > 0 {
      BigEndianRoundTrip(n / 256, k - 1);
      assert BigEndian(n, k)[..k - 1] == BigEndian(n / 256, k - 1);
    }
  }

  lemma FourBytes()
    ensures Pow256(4) == U32
  {
    assert Pow256(2) == 256 * Pow256(1) == 0x1_0000;
    assert Pow256(3) == 256 * Pow256(2);
  }

  /** What a reader gets from a frame followed by `rest`: the payload cut to the
      length modulo 2^32, the remainder staying on the stream. */
  lemma FrameRead(data: seq<byte>, rest: seq<byte>)
    ensures ReadFrame(WriteFrame(data) + rest) == Some((data[..|data| % U32], data[|data| % U32..] + rest))
  {
    var len := |data| % U32;
    var stream := WriteFrame(data) + rest;
    FourBytes();
    BigEndianRoundTrip(len, 4);
    assert stream[..4] == BigEndian(len, 4);
    assert stream[4..4 + len] == data[..len];
    assert stream[4 + len..] == data[len..] + rest;
  }

  /** The length stands in front as four bytes, the most significant first. */
  lemma LengthBytes(n: nat)
    requires n < U32
    ensures BigEndian(n, 4) == [n / 0x100_0000, n / 0x1_0000 % 256, n / 256 % 256, n % 256]
  {
    var m := n / 256;
    assert BigEndian(n, 4) == BigEndian(m, 3) + [n % 256];
    assert BigEndian(m, 3) == BigEndian(m / 256, 2) + [m % 256];
    assert BigEndian(m / 256, 2) == BigEndian(m / 256 / 256, 1) + [m / 256 % 256];
    assert BigEndian(m / 256 / 256, 1) == [] + [m / 256 / 256 % 256];
  }

  /** A frame that is cut off anywhere is not read. */
  lemma TruncatedFrame(data: seq<byte>, k: nat)
    requires |data| < U32 && k < |WriteFrame(data)|
    ensures ReadFrame(WriteFrame(data)[..k]).None?
  {
    if k >= 4 {
      FourBytes();
      BigEndianRoundTrip(|data|, 4);
      assert WriteFrame(data)[..k][..4] == BigEndian(|data|, 4);
    }
  }

  /** A frame gives back its payload and leaves the rest of the stream untouched
      exactly when the payload is shorter than 2^32 bytes. */
  lemma FrameRoundTripExactly(data: seq<byte>, rest: seq<byte>)
    ensures ReadFrame(WriteFrame(data) + rest) == Some((data, rest)) <==> |data| < U32
  {
    FrameRead(data, rest);
    if |data| < U32 {
      assert data[..|data|] == data && data[|data|..] + rest == rest;
    } else {
      assert |data[..|data| % U32]| < |data|;
    }
  }

  /** A request reaches the provider as the group it is for. */
  lemma RequestRoundTrip(group: string)
    requires |Utf8.Encode(group)| < U32
    ensures ReadRequest(RequestBytes(group)) == Some(group)
  {
    FrameRoundTripExactly(Utf8.Encode(group), []);
    assert RequestBytes(group) + [] == RequestBytes(group);
    Utf8.DecodeOfEncode(group);
  }

  /** End to end: a requester that downloads from a provider gets the provider's
      snapshot, and afterwards needs a new one exactly when the newest event is
      more than six hours old, if the events of the group arrived in time order
      and the clock is not behind them. */
  lemma TransferAndFreshness(items: seq<Item>, g: string, encode: GroupSnapshot -> seq<byte>,
                             decode: seq<byte> -> Option<GroupSnapshot>, sync: map<string, nat>, now: nat,
                             checked: bool)
    requires g in Fold(items) && |encode(Fold(items)[g])| < U32
    requires decode(encode(Fold(items)[g])) == Some(Fold(items)[g])
    requires var mine := ForGroup(items, g); forall i, j :: 0 <= i <= j < |mine| ==> mine[i].ts <= mine[j].ts
    requires forall it :: it in ForGroup(items, g) ==> it.ts <= now
    ensures Download(Some(WriteFrame(encode(Fold(items)[g]))), decode) == Ok(Fold(items)[g])
    ensures exists newest :: newest in ForGroup(items, g)
              && (forall it :: it in ForGroup(items, g) ==> it.ts <= newest.ts)
              && NeedsSnapshotAt(sync[g := Fold(items)[g].snapshotTs], g, now, checked)
                 == Answer(now - newest.ts > SYNC_INTERVAL)
  {
    var s := Fold(items)[g];
    var mine := ForGroup(items, g);
    FrameRoundTripExactly(encode(s), []);
    assert WriteFrame(encode(s)) + [] == WriteFrame(encode(s));
    FoldIsPerGroup(items, g);
    var newest := mine[|mine| - 1];
    assert newest in mine;
  }

  /** The freshness check asks whether more than six hours have passed, and answers
      that exactly when the last sync does not lie in the future, or when overflow
      goes unchecked and the clock is at least 2^64 - 21600 behind. Otherwise it
      panics, or asks for a snapshot although no time has passed. */
  lemma FreshnessExactly(sync: map<string, nat>, g: string, now: nat, checked: bool)
    requires g in sync && sync[g] < U64
    ensures NeedsSnapshotAt(sync, g, now, checked) == Answer(now - sync[g] > 21600)
            <==> sync[g] <= now || (!checked && sync[g] - now >= U64 - 21600)
    ensures now < sync[g] && (checked || sync[g] - now < U64 - 21600) ==>
              NeedsSnapshotAt(sync, g, now, checked) == if checked then Overflow else Answer(true)
  {
    if now < sync[g] {
      var d := sync[g] - now;
      assert (now - sync[g]) % U64 == U64 - d;
    }
  }
}
