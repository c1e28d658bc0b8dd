/** Every message and file the program writes, written out: the members in order, with
    their names and values. */
module MessageTexts {
  import opened Wrappers
  import opened Json
  import opened WireText
  import Utf8
  import Rendezvous
  import Events
  import Swarm
  import Snapshot
  import SnapshotWire

  // ---------- no name needs an escape ----------

  lemma ConfigNames()
    ensures Plain("env") && Plain("discovery_key") && Plain("bootstrap") && Plain("relay_url") && Plain("ts")
  {
  }

  lemma SnapshotNames()
    ensures Plain("type") && Plain("group_id") && Plain("since_ts") && Plain("item_count") && Plain("latest_ts")
  {
  }

  lemma NodeNames()
    ensures Plain("requester_node_id") && Plain("provider_node_id") && Plain("holder_node_id") && Plain("hash")
  {
  }

  /** A flat object. */
  ghost predicate Flat(p: Part) {
    p.O? && forall i :: 0 <= i < |p.ms| ==> Plain(p.ms[i].name) && !p.ms[i].part.O?
  }

  lemma FlatNames(p: Part)
    requires Flat(p)
    ensures PlainNames(p)
  {
  }

  // ---------- the rendezvous config ----------

  ghost function BootstrapPart(b: Rendezvous.BootstrapInfo): Part {
    O([M("node_id", S(b.nodeId)), M("addr", L(b.addr))])
  }

  ghost function ConfigPart(c: Rendezvous.Config): Part {
    O([M("env", S(c.env)),
       M("discovery_key", S(c.discoveryKey)),
       M("bootstrap", BootstrapPart(c.bootstrap)),
       M("relay_url", if c.relayUrl.Some? then S(c.relayUrl.value) else Absent),
       M("ts", N(c.ts))])
  }

  ghost function SignedPart(s: Rendezvous.SignedConfig): Part {
    O([M("config", ConfigPart(s.config)), M("signer", S(s.signer)), M("signature", S(s.signature))])
  }

  lemma BootstrapValue(b: Rendezvous.BootstrapInfo)
    ensures ValueOf(BootstrapPart(b)) == Rendezvous.EncodeBootstrap(b) && PlainNames(BootstrapPart(b))
  {
    var p := BootstrapPart(b);
    assert FieldsOf(p.ms) == Rendezvous.EncodeBootstrap(b).fields;
  }

  lemma ConfigValue(c: Rendezvous.Config)
    ensures ValueOf(ConfigPart(c)) == Rendezvous.EncodeConfig(c)
  {
    BootstrapValue(c.bootstrap);
    assert FieldsOf(ConfigPart(c).ms) == Rendezvous.EncodeConfig(c).fields;
  }

  lemma ConfigIsPlain(c: Rendezvous.Config)
    ensures PlainNames(ConfigPart(c))
  {
    BootstrapValue(c.bootstrap);
    ConfigNames();
    var p := ConfigPart(c);
    forall i | 0 <= i < |p.ms| ensures Plain(p.ms[i].name) && PlainNames(p.ms[i].part) {
      assert i == 0 || i == 1 || i == 2 || i == 3 || i == 4;
    }
  }

  /** What is signed: the compact text of the config, members in the order of
      declaration and no space between tokens, in UTF-8. */
  lemma SignedBytesExactly(c: Rendezvous.Config)
    ensures Rendezvous.CanonicalBytes(c) == Utf8.Encode(TextOf(ConfigPart(c), Compact, 0))
  {
    ConfigValue(c);
    ConfigIsPlain(c);
    PrintedPart(Rendezvous.EncodeConfig(c), ConfigPart(c), Compact);
  }

  /** What is published: the pretty text of config, signer and signature, in UTF-8. */
  lemma PublishedBytesExactly(s: Rendezvous.SignedConfig)
    ensures Rendezvous.PublishedBytes(s) == Utf8.Encode(TextOf(SignedPart(s), Pretty, 0))
  {
    ConfigValue(s.config);
    ConfigIsPlain(s.config);
    var p := SignedPart(s);
    assert FieldsOf(p.ms) == Rendezvous.EncodeSigned(s).fields;
    PrintedPart(Rendezvous.EncodeSigned(s), p, Pretty);
  }

  /** The signing text begins at once with the first member, without a space. */
  lemma SigningTextBegins(c: Rendezvous.Config)
    ensures "{\"env\":" + Quoted(c.env) <= TextOf(ConfigPart(c), Compact, 0)
  {
    var ms := TextsOf(ConfigPart(c).ms, Compact, 1);
    ObjectBegins(ms, Compact, 0);
    assert ms[0] == ("env", Quoted(c.env));
    assert "\"" + "env" + "\"" + ":" == "\"env\":";
    Glue("{", "\"env\":", Quoted(c.env));
    assert "" + ("\"env\":" + Quoted(c.env)) == "\"env\":" + Quoted(c.env);
    assert "{" + "\"env\":" == "{\"env\":";
  }

  /** The published text begins with a line break and two spaces, and has a space
      after the colon. */
  lemma PublishedTextBegins(s: Rendezvous.SignedConfig)
    ensures "{\n  \"config\": " <= TextOf(SignedPart(s), Pretty, 0)
  {
    var ms := TextsOf(SignedPart(s).ms, Pretty, 1);
    PrettyBegins(ms, ms[0].1);
  }

  lemma PrettyBegins(ms: seq<(string, string)>, config: string)
    requires ms != [] && ms[0] == ("config", config)
    ensures "{\n  \"config\": " <= ObjectOf(ms, Pretty, 0)
  {
    ObjectBegins(ms, Pretty, 0);
    TwoSpaces();
    assert "\"" + "config" + "\"" + ": " == "\"config\": ";
    Glue("{", "\n  ", "\"config\": " + config);
    Glue("{" + "\n  ", "\"config\": ", config);
    assert "{" + "\n  " + "\"config\": " == "{\n  \"config\": ";
  }

  lemma TwoSpaces()
    ensures Line(Pretty, 1) == "\n  "
  {
    assert Spaces(0) == "" && Spaces(1) == " " + Spaces(0) && Spaces(2) == " " + Spaces(1);
  }

  // ---------- gossip ----------

  /** A broadcast event. */
  lemma EventText(e: Events.Event)
    ensures Print(Events.EncodeEvent(e), Compact)
         == TextOf(O([M("id", S(e.id)), M("payload", S(e.payload)), M("source", S(e.source)), M("ts", N(e.ts))]),
                   Compact, 0)
  {
    var p := O([M("id", S(e.id)), M("payload", S(e.payload)), M("source", S(e.source)), M("ts", N(e.ts))]);
    assert FieldsOf(p.ms) == Events.EncodeEvent(e).fields;
    PrintedPart(Events.EncodeEvent(e), p, Compact);
  }

  /** A peer introduction. */
  lemma IntroductionText(group: string, peers: seq<string>)
    ensures Print(Events.EncodeIntroduction(group, peers), Compact)
         == TextOf(O([M("group_id", S(group)), M("msg_type", S("peer_introduction")), M("peers", L(peers))]),
                   Compact, 0)
  {
    var p := O([M("group_id", S(group)), M("msg_type", S("peer_introduction")), M("peers", L(peers))]);
    assert FieldsOf(p.ms) == Events.EncodeIntroduction(group, peers).fields;
    PrintedPart(Events.EncodeIntroduction(group, peers), p, Compact);
  }

  ghost function SwarmPart(m: Swarm.Message): Part {
    match m
    case IHave(hash, holder) => O([M("type", S("IHave")), M("hash", S(hash)), M("holder_node_id", S(holder))])
    case WhoHas(hash, requester) =>
      O([M("type", S("WhoHas")), M("hash", S(hash)), M("requester_node_id", S(requester))])
  }

  lemma IHaveValue(hash: string, holder: string)
    ensures ValueOf(SwarmPart(Swarm.IHave(hash, holder))) == Swarm.Encode(Swarm.IHave(hash, holder))
    ensures PlainNames(SwarmPart(Swarm.IHave(hash, holder)))
  {
    assert FieldsOf(SwarmPart(Swarm.IHave(hash, holder)).ms) == Swarm.Encode(Swarm.IHave(hash, holder)).fields;
  }

  lemma WhoHasValue(hash: string, requester: string)
    ensures ValueOf(SwarmPart(Swarm.WhoHas(hash, requester))) == Swarm.Encode(Swarm.WhoHas(hash, requester))
    ensures PlainNames(SwarmPart(Swarm.WhoHas(hash, requester)))
  {
    assert FieldsOf(SwarmPart(Swarm.WhoHas(hash, requester)).ms) == Swarm.Encode(Swarm.WhoHas(hash, requester)).fields;
  }

  /** A message of the blob negotiation. */
  lemma SwarmText(m: Swarm.Message)
    ensures Print(Swarm.Encode(m), Compact) == TextOf(SwarmPart(m), Compact, 0)
  {
    match m {
      case IHave(hash, holder) => IHaveValue(hash, holder);
      case WhoHas(hash, requester) => WhoHasValue(hash, requester);
    }
    PrintedPart(Swarm.Encode(m), SwarmPart(m), Compact);
  }

  ghost function RequestPart(group: string, requester: string, since: nat): Part {
    O([M("type", S("RequestSnapshot")), M("group_id", S(group)), M("requester_node_id", S(requester)),
       M("since_ts", N(since))])
  }

  lemma RequestValue(group: string, requester: string, since: nat)
    ensures ValueOf(RequestPart(group, requester, since))
         == SnapshotWire.Encode(Snapshot.RequestSnapshot(group, requester, since))
  {
    assert FieldsOf(RequestPart(group, requester, since).ms)
        == SnapshotWire.Encode(Snapshot.RequestSnapshot(group, requester, since)).fields;
  }

  /** A request for a snapshot. */
  lemma RequestText(group: string, requester: string, since: nat)
    ensures Print(SnapshotWire.Encode(Snapshot.RequestSnapshot(group, requester, since)), Compact)
         == TextOf(RequestPart(group, requester, since), Compact, 0)
  {
    var p := RequestPart(group, requester, since);
    RequestValue(group, requester, since);
    SnapshotNames();
    NodeNames();
    assert Flat(p);
    FlatNames(p);
    PrintedPart(ValueOf(p), p, Compact);
  }

  ghost function AvailablePart(group: string, provider: string, count: nat, latest: nat): Part {
    O([M("type", S("SnapshotAvailable")), M("group_id", S(group)), M("provider_node_id", S(provider)),
       M("item_count", N(count)), M("latest_ts", N(latest))])
  }

  lemma AvailableValue(group: string, provider: string, count: nat, latest: nat)
    ensures ValueOf(AvailablePart(group, provider, count, latest))
         == SnapshotWire.Encode(Snapshot.SnapshotAvailable(group, provider, count, latest))
  {
    assert FieldsOf(AvailablePart(group, provider, count, latest).ms)
        == SnapshotWire.Encode(Snapshot.SnapshotAvailable(group, provider, count, latest)).fields;
  }

  /** The announcement of a snapshot. */
  lemma AvailableText(group: string, provider: string, count: nat, latest: nat)
    ensures Print(SnapshotWire.Encode(Snapshot.SnapshotAvailable(group, provider, count, latest)), Compact)
         == TextOf(AvailablePart(group, provider, count, latest), Compact, 0)
  {
    var p := AvailablePart(group, provider, count, latest);
    AvailableValue(group, provider, count, latest);
    SnapshotNames();
    NodeNames();
    assert Flat(p);
    FlatNames(p);
    PrintedPart(ValueOf(p), p, Compact);
  }
}
