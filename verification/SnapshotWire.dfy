/** The gossip form of the snapshot messages. */
module SnapshotWire {
  import opened Wrappers
  import opened Json
  import opened JsonRoundTrip
  import opened Snapshot

  function Encode(m: SnapshotMessage): Json {
    match m
    case RequestSnapshot(group, requester, since) =>
      Obj([Field("type", Str("RequestSnapshot")), Field("group_id", Str(group)),
           Field("requester_node_id", Str(requester)), Field("since_ts", Number(since))])
    case SnapshotAvailable(group, provider, count, latest) =>
      Obj([Field("type", Str("SnapshotAvailable")), Field("group_id", Str(group)),
           Field("provider_node_id", Str(provider)), Field("item_count", Number(count)),
           Field("latest_ts", Number(latest))])
  }

  function Decode(v: Json): (m: Option<SnapshotMessage>)
    ensures m.Some? ==> m.value.InRange()
  {
    if !v.Obj? then None
    else if StrMember(v.fields, "type") == Some("RequestSnapshot") then
      match (StrMember(v.fields, "group_id"), StrMember(v.fields, "requester_node_id"), U64Member(v.fields, "since_ts"))
      case (Some(group), Some(requester), Some(since)) => Some(RequestSnapshot(group, requester, since))
      case _ => None
    else if StrMember(v.fields, "type") == Some("SnapshotAvailable") then
      match (StrMember(v.fields, "group_id"), StrMember(v.fields, "provider_node_id"),
             U64Member(v.fields, "item_count"), U64Member(v.fields, "latest_ts"))
      case (Some(group), Some(provider), Some(count), Some(latest)) =>
        if count < U32 then Some(SnapshotAvailable(group, provider, count, latest)) else None
      case _ => None
    else None
  }

  function ReadMessage(text: string): Option<SnapshotMessage> {
    var v := Parse(text);
    if v.Some? then Decode(v.value) else None
  }

  lemma Members(m: SnapshotMessage)
    ensures var fs := Encode(m).fields;
            forall i :: 0 <= i < |fs| ==> Member(fs, fs[i].name) == Found(fs[i].value)
  {
    var fs := Encode(m).fields;
    assert fs[0].name[0] == 't' && fs[1].name[0] == 'g' && fs[2].name[0] != 'g' && fs[2].name[0] != 't';
    assert m.SnapshotAvailable? ==> fs[3].name[0] == 'i' && fs[4].name[0] == 'l';
    forall i | 0 <= i < |fs| ensures Member(fs, fs[i].name) == Found(fs[i].value) { OnlyMember(fs, i); }
  }

  /** A message is received as it was sent exactly when its numbers fit their widths. */
  lemma MessageRoundTripExactly(m: SnapshotMessage)
    ensures ReadMessage(Print(Encode(m), Compact)) == Some(m) <==> m.InRange()
  {
    Members(m);
    ParseOfPrint(Encode(m), Compact);
    match m
    case RequestSnapshot(_, _, since) =>
      var fs := Encode(m).fields;
      assert fs[0].name == "type" && fs[1].name == "group_id" && fs[2].name == "requester_node_id"
          && fs[3].name == "since_ts";
      U64RoundTrip(since);
    case SnapshotAvailable(_, _, count, latest) =>
      var fs := Encode(m).fields;
      assert fs[0].name == "type" && fs[1].name == "group_id" && fs[2].name == "provider_node_id"
          && fs[3].name == "item_count" && fs[4].name == "latest_ts";
      assert "RequestSnapshot"[0] != "SnapshotAvailable"[0];
      U64RoundTrip(count);
      U64RoundTrip(latest);
  }
}
