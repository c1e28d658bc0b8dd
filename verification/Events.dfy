/** The replicated event: its id and its wire form. */
module Events {
  import opened Wrappers
  import opened Json
  import opened JsonRoundTrip
  import Decimal

  datatype Event = Event(id: string, payload: string, source: string, ts: nat)

  // ---------- event ids ----------

  /** The text whose hash is the event id. */
  function IdPreimage(payload: string, source: string, ts: nat): string {
    payload + source + Decimal.Print(ts)
  }

  function GenerateEventId(hash: string -> string, payload: string, source: string, ts: nat): string {
    hash(IdPreimage(payload, source, ts))
  }

  /** The hash does not collide on these two texts. */
  ghost predicate NoCollision(hash: string -> string, s: string, t: string) { hash(s) == hash(t) ==> s == t }

  /** Cutting two equal texts at suffixes of the same length gives equal parts. */
  lemma SplitEqual(a: string, b: string, a': string, b': string)
    requires a + b == a' + b' && |b| == |b'|
    ensures a == a' && b == b'
  {
    var s := a + b;
    assert |a| == |a'|;
    assert a == s[..|a|] && b == s[|a|..];
    assert a' == (a' + b')[..|a'|] && b' == (a' + b')[|a'|..];
  }

  /** The id is the hash of the payload, the source and the decimal time, in this
      order and with nothing between them. */
  lemma IdText(hash: string -> string, p: string, s: string, t: nat)
    ensures exists text ::
              && GenerateEventId(hash, p, s, t) == hash(text)
              && |text| > |p| + |s| && text[..|p|] == p && text[|p|..|p| + |s|] == s
              && Decimal.AllDigits(text[|p| + |s|..]) && Decimal.Value(text[|p| + |s|..]) == t
  {
    var text := IdPreimage(p, s, t);
    assert text[..|p|] == p && text[|p|..|p| + |s|] == s && text[|p| + |s|..] == Decimal.Print(t);
    Decimal.ValueOfPrint(t);
  }

  /** The id has no separators. Where the hash does not collide, two events with
      the same id are the same event exactly when their sources have the same length
      and their timestamps the same number of decimal digits. */
  lemma IdDeterminesEvent(hash: string -> string, p: string, s: string, t: nat, p': string, s': string, t': nat)
    requires NoCollision(hash, IdPreimage(p, s, t), IdPreimage(p', s', t'))
    requires GenerateEventId(hash, p, s, t) == GenerateEventId(hash, p', s', t')
    ensures (p == p' && s == s' && t == t') <==> |s| == |s'| && |Decimal.Print(t)| == |Decimal.Print(t')|
  {
    if |s| == |s'| && |Decimal.Print(t)| == |Decimal.Print(t')| {
      SplitEqual(p + s, Decimal.Print(t), p' + s', Decimal.Print(t'));
      SplitEqual(p, s, p', s');
      Decimal.PrintInjective(t, t');
    }
  }

  /** Without the condition ids collide: node "1" sending "" at 11 and "1" at 1,
      and nodes of different name lengths sending at the same time. */
  lemma IdCollision(hash: string -> string, t: nat)
    ensures GenerateEventId(hash, "", "1", 11) == GenerateEventId(hash, "1", "1", 1)
    ensures GenerateEventId(hash, "a", "b", t) == GenerateEventId(hash, "", "ab", t)
  {
    assert Decimal.Print(11) == Decimal.Print(1) + "1" && Decimal.Print(1) == "1";
    assert IdPreimage("", "1", 11) == "111" == IdPreimage("1", "1", 1);
    assert IdPreimage("a", "b", t) == IdPreimage("", "ab", t);
  }

  // ---------- the gossip form of an event ----------

  function EncodeEvent(e: Event): Json {
    Obj([Field("id", Str(e.id)), Field("payload", Str(e.payload)), Field("source", Str(e.source)),
         Field("ts", Number(e.ts))])
  }

  function DecodeEvent(v: Json): (e: Option<Event>)
    ensures e.Some? ==> e.value.ts < U64
  {
    if !v.Obj? then None
    else
      match (StrMember(v.fields, "id"), StrMember(v.fields, "payload"), StrMember(v.fields, "source"),
             U64Member(v.fields, "ts"))
      case (Some(id), Some(payload), Some(source), Some(ts)) => Some(Event(id, payload, source, ts))
      case _ => None
  }

  function ReadEvent(text: string): Option<Event> {
    var v := Parse(text);
    if v.Some? then DecodeEvent(v.value) else None
  }

  /** A broadcast event arrives as the event that was sent. */
  lemma EventRoundTrip(e: Event)
    requires e.ts < U64
    ensures ReadEvent(Print(EncodeEvent(e), Compact)) == Some(e)
  {
    var fs := EncodeEvent(e).fields;
    assert fs[0].name == "id" && fs[1].name == "payload" && fs[2].name == "source" && fs[3].name == "ts";
    assert fs[0].name[0] != fs[3].name[0];
    forall i | 0 <= i < |fs| ensures Member(fs, fs[i].name) == Found(fs[i].value) { OnlyMember(fs, i); }
    ParseOfPrint(EncodeEvent(e), Compact);
    U64RoundTrip(e.ts);
  }

  // ---------- discovery messages ----------

  /** `peer_introduction_json`. */
  function EncodeIntroduction(group: string, peers: seq<string>): Json {
    Obj([Field("group_id", Str(group)), Field("msg_type", Str("peer_introduction")),
         Field("peers", Arr(Strings(peers)))])
  }

  /** What the discovery loop makes of a received message: it looks only at
      `groups_exchange`; a group entry that is not a string is skipped. */
  datatype DiscoveryMessage =
    | GroupsExchange(from: string, groups: seq<string>)
    | MissingNodeId
    | MissingGroups
    | Unrelated

  function OnlyStrings(items: seq<Json>): seq<string> {
    if items == [] then []
    else (if items[0].Str? then [items[0].s] else []) + OnlyStrings(items[1..])
  }

  function ReadDiscovery(text: string): DiscoveryMessage {
    var v := Parse(text);
    if v.None? || Get(v.value, "msg_type") != Some(Str("groups_exchange")) then Unrelated
    else
      match Get(v.value, "node_id")
      case Some(Str(from)) =>
        (match Get(v.value, "local_groups")
         case Some(Arr(items)) => GroupsExchange(from, OnlyStrings(items))
         case _ => MissingGroups)
      case _ => MissingNodeId
  }

  /** How a peer reads an introduction: group and peers by member name. */
  function ReadIntroduction(text: string): Option<(string, seq<string>)> {
    var v := Parse(text);
    if v.None? || Get(v.value, "msg_type") != Some(Str("peer_introduction")) then None
    else
      match (Get(v.value, "group_id"), Get(v.value, "peers"))
      case (Some(Str(group)), Some(Arr(items))) => Some((group, OnlyStrings(items)))
      case _ => None
  }

  lemma {:induction false} OnlyStringsOfStrings(ss: seq<string>)
    ensures OnlyStrings(Strings(ss)) == ss
  {
    if ss != [] {
      OnlyStringsOfStrings(ss[1..]);
      assert Strings(ss)[1..] == Strings(ss[1..]);
      assert [ss[0]] + ss[1..] == ss;
    }
  }

  /** Every group and peer list reaches the peers as sent, and the discovery loop
      of another node does not take an introduction for an exchange. */
  lemma IntroductionRoundTrip(group: string, peers: seq<string>)
    ensures var text := Print(EncodeIntroduction(group, peers), Compact);
            ReadIntroduction(text) == Some((group, peers)) && ReadDiscovery(text) == Unrelated
  {
    var fs := EncodeIntroduction(group, peers).fields;
    assert fs[0].name == "group_id" && fs[1].name == "msg_type" && fs[2].name == "peers";
    assert fs[0].name[0] != fs[1].name[0];
    forall i | 0 <= i < |fs| ensures GetLast(fs, fs[i].name) == Some(fs[i].value) { OnlyMember(fs, i); }
    ParseOfPrint(EncodeIntroduction(group, peers), Compact);
    OnlyStringsOfStrings(peers);
    assert "peer_introduction"[0] != "groups_exchange"[0];
  }

  lemma OnlyStringsOne(v: Json)
    ensures OnlyStrings([v]) == if v.Str? then [v.s] else []
  {
    assert [v][1..] == [];
  }

  /** Group entries that are not strings are skipped, the others kept in order. */
  lemma {:induction false} OnlyStringsInOrder(a: seq<Json>, b: seq<Json>)
    ensures OnlyStrings(a + b) == OnlyStrings(a) + OnlyStrings(b)
  {
    if a == [] {
      assert a + b == b;
    } else {
      assert (a + b)[1..] == a[1..] + b;
      OnlyStringsInOrder(a[1..], b);
      Glue(if a[0].Str? then [a[0].s] else [], OnlyStrings(a[1..]), OnlyStrings(b));
    }
  }

  /** The exchange message peers send. */
  function EncodeExchange(from: string, groups: seq<string>): Json {
    Obj([Field("msg_type", Str("groups_exchange")), Field("node_id", Str(from)),
         Field("local_groups", Arr(Strings(groups)))])
  }

  /** Every exchange is understood as sent: the peer and its groups, in order. */
  lemma ExchangeRead(from: string, groups: seq<string>, style: Style)
    ensures ReadDiscovery(Print(EncodeExchange(from, groups), style)) == GroupsExchange(from, groups)
  {
    var fs := EncodeExchange(from, groups).fields;
    assert fs[0].name == "msg_type" && fs[1].name == "node_id" && fs[2].name == "local_groups";
    forall i | 0 <= i < |fs| ensures GetLast(fs, fs[i].name) == Some(fs[i].value) { OnlyMember(fs, i); }
    ParseOfPrint(EncodeExchange(from, groups), style);
    OnlyStringsOfStrings(groups);
  }
}
