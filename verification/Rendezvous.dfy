/** The signed rendezvous config: what is signed, what is published, and what a
    reader of the published file can rely on. */
module Rendezvous {
  import opened Wrappers
  import opened Json
  import opened JsonRoundTrip
  import Hex
  import Utf8

  type Bytes = seq<Hex.byte>

  datatype BootstrapInfo = BootstrapInfo(nodeId: string, addr: seq<string>)

  datatype Config = Config(
    env: string,
    discoveryKey: string,
    bootstrap: BootstrapInfo,
    relayUrl: Option<string>,
    ts: nat)
  {
    /** `ts` is a u64 in the source. */
    predicate InRange() { ts < U64 }
  }

  datatype SignedConfig = SignedConfig(config: Config, signer: string, signature: string)

  // ---------- the derived serialisers and deserialisers ----------

  function EncodeBootstrap(b: BootstrapInfo): Json {
    Obj([Field("node_id", Str(b.nodeId)), Field("addr", Arr(Strings(b.addr)))])
  }

  function EncodeConfig(c: Config): Json {
    Obj([
      Field("env", Str(c.env)),
      Field("discovery_key", Str(c.discoveryKey)),
      Field("bootstrap", EncodeBootstrap(c.bootstrap)),
      Field("relay_url", if c.relayUrl.Some? then Str(c.relayUrl.value) else Null),
      Field("ts", Number(c.ts))])
  }

  function EncodeSigned(s: SignedConfig): Json {
    Obj([
      Field("config", EncodeConfig(s.config)),
      Field("signer", Str(s.signer)),
      Field("signature", Str(s.signature))])
  }

  function DecodeBootstrap(v: Json): Option<BootstrapInfo> {
    if !v.Obj? then None
    else
      var addr := Member(v.fields, "addr");
      if !addr.Found? || !addr.value.Arr? then None
      else
        match (StrMember(v.fields, "node_id"), AsStrings(addr.value.items))
        case (Some(nodeId), Some(addrs)) => Some(BootstrapInfo(nodeId, addrs))
        case _ => None
  }

  /** A missing or null relay is None. */
  function DecodeRelay(m: Lookup): Option<Option<string>> {
    match m
    case Missing => Some(None)
    case Found(Null) => Some(None)
    case Found(Str(s)) => Some(Some(s))
    case _ => None
  }

  function DecodeConfig(v: Json): (c: Option<Config>)
    ensures c.Some? ==> c.value.InRange()
  {
    if !v.Obj? then None
    else
      var bootstrap := Member(v.fields, "bootstrap");
      if !bootstrap.Found? then None
      else
        match (StrMember(v.fields, "env"), StrMember(v.fields, "discovery_key"), DecodeBootstrap(bootstrap.value),
               DecodeRelay(Member(v.fields, "relay_url")), U64Member(v.fields, "ts"))
        case (Some(env), Some(key), Some(info), Some(relay), Some(ts)) => Some(Config(env, key, info, relay, ts))
        case _ => None
  }

  function DecodeSigned(v: Json): Option<SignedConfig> {
    if !v.Obj? then None
    else
      var config := Member(v.fields, "config");
      if !config.Found? then None
      else
        match (DecodeConfig(config.value), StrMember(v.fields, "signer"), StrMember(v.fields, "signature"))
        case (Some(c), Some(signer), Some(signature)) => Some(SignedConfig(c, signer, signature))
        case _ => None
  }

  lemma BootstrapRoundTrip(b: BootstrapInfo)
    ensures DecodeBootstrap(EncodeBootstrap(b)) == Some(b)
  {
    var fs := EncodeBootstrap(b).fields;
    OnlyMember(fs, 0);
    OnlyMember(fs, 1);
    StringsRoundTrip(b.addr);
  }

  lemma ConfigMembers(c: Config)
    ensures var fs := EncodeConfig(c).fields;
            forall i :: 0 <= i < |fs| ==> Member(fs, fs[i].name) == Found(fs[i].value)
  {
    var fs := EncodeConfig(c).fields;
    forall i | 0 <= i < |fs| ensures Member(fs, fs[i].name) == Found(fs[i].value) {
      OnlyMember(fs, i);
    }
  }

  /** A config is read by the names of its members, in any order and whatever other
      members there are; a missing relay is no relay. */
  lemma ReadByName(fields: seq<Field>, c: Config)
    requires c.InRange()
    requires Member(fields, "env") == Found(Str(c.env))
    requires Member(fields, "discovery_key") == Found(Str(c.discoveryKey))
    requires Member(fields, "bootstrap") == Found(EncodeBootstrap(c.bootstrap))
    requires Member(fields, "ts") == Found(Number(c.ts))
    requires var relay := Member(fields, "relay_url");
             if c.relayUrl.Some? then relay == Found(Str(c.relayUrl.value))
             else relay == Missing || relay == Found(Null)
    ensures DecodeConfig(Obj(fields)) == Some(c)
  {
    BootstrapRoundTrip(c.bootstrap);
    U64RoundTrip(c.ts);
  }

  lemma ConfigRoundTrip(c: Config)
    requires c.InRange()
    ensures DecodeConfig(EncodeConfig(c)) == Some(c)
  {
    var fs := EncodeConfig(c).fields;
    ConfigMembers(c);
    assert fs[0].name == "env" && fs[1].name == "discovery_key" && fs[2].name == "bootstrap"
        && fs[3].name == "relay_url" && fs[4].name == "ts";
    ReadByName(fs, c);
  }

  lemma SignedRoundTrip(s: SignedConfig)
    requires s.config.InRange()
    ensures DecodeSigned(EncodeSigned(s)) == Some(s)
  {
    var fs := EncodeSigned(s).fields;
    assert fs[0].name[0] == 'c' && fs[1].name[1] == 'i' && |fs[2].name| == 9;
    assert fs[0].name != fs[1].name;
    OnlyMember(fs, 0);
    OnlyMember(fs, 1);
    OnlyMember(fs, 2);
    ConfigRoundTrip(s.config);
  }

  // ---------- signing bytes and the published file ----------

  function CanonicalBytes(c: Config): Bytes { Utf8.Encode(Print(EncodeConfig(c), Compact)) }

  function ReadConfig(b: Bytes): Option<Config> {
    var text := Utf8.Decode(b);
    var v := if text.Some? then Parse(text.value) else None;
    if v.Some? then DecodeConfig(v.value) else None
  }

  /** The bytes `publish_signed` hands to the sink. */
  function PublishedBytes(s: SignedConfig): Bytes { Utf8.Encode(Print(EncodeSigned(s), Pretty)) }

  function ReadPublished(b: Bytes): Option<SignedConfig> {
    var text := Utf8.Decode(b);
    var v := if text.Some? then Parse(text.value) else None;
    if v.Some? then DecodeSigned(v.value) else None
  }

  /** The signing bytes determine the config. */
  lemma CanonicalRoundTrip(c: Config)
    requires c.InRange()
    ensures ReadConfig(CanonicalBytes(c)) == Some(c)
  {
    Utf8.DecodeOfEncode(Print(EncodeConfig(c), Compact));
    ParseOfPrint(EncodeConfig(c), Compact);
    ConfigRoundTrip(c);
  }

  lemma CanonicalInjective(c: Config, d: Config)
    requires c.InRange() && d.InRange()
    ensures CanonicalBytes(c) == CanonicalBytes(d) <==> c == d
  {
    CanonicalRoundTrip(c);
    CanonicalRoundTrip(d);
  }

  /** The published file is read back as the signed config it was made from. */
  lemma PublishedRoundTrip(s: SignedConfig)
    requires s.config.InRange()
    ensures ReadPublished(PublishedBytes(s)) == Some(s)
  {
    Utf8.DecodeOfEncode(Print(EncodeSigned(s), Pretty));
    ParseOfPrint(EncodeSigned(s), Pretty);
    SignedRoundTrip(s);
  }

  // ---------- signing and verifying ----------

  const SIGNATURE_LENGTH := 64

  /** The Ed25519 operations the program calls, and the text form of a public key. */
  datatype Scheme<!SK(!new), !PK(!new)> = Scheme(
    public: SK -> PK,
    sign: (SK, Bytes) -> Bytes,
    verify: (PK, Bytes, Bytes) -> bool,
    show: PK -> string,
    read: string -> Option<PK>)
  {
    /** Section 5.1 of RFC 8032: a signature is 64 bytes and verifies under the
        signer's key; the text of a key is read back as that key. */
    ghost predicate Correct() {
      && (forall sk, m :: |sign(sk, m)| == SIGNATURE_LENGTH && verify(public(sk), m, sign(sk, m)))
      && (forall pk :: read(show(pk)) == Some(pk))
    }

    /** The signature made with `sk` for `m` is no forgery for `m'` under `pk`: it
        verifies there only if both are those it was made for. */
    ghost predicate NoForgery(sk: SK, m: Bytes, pk: PK, m': Bytes) {
      verify(pk, m', sign(sk, m)) ==> pk == public(sk) && m' == m
    }
  }

  datatype VerifyError = InvalidSigner | SignatureNotHex | SignatureLength | Rejected

  function SignConfig<SK(!new), PK(!new)>(scheme: Scheme<SK, PK>, c: Config, sk: SK): SignedConfig {
    SignedConfig(c, scheme.show(scheme.public(sk)), Hex.Encode(scheme.sign(sk, CanonicalBytes(c))))
  }

  function VerifyConfig<SK(!new), PK(!new)>(scheme: Scheme<SK, PK>, s: SignedConfig): Result<(), VerifyError> {
    match scheme.read(s.signer)
    case None => Err(InvalidSigner)
    case Some(pk) =>
      match Hex.Decode(s.signature)
      case Err(_) => Err(SignatureNotHex)
      case Ok(sig) =>
        if |sig| != SIGNATURE_LENGTH then Err(SignatureLength)
        else if scheme.verify(pk, CanonicalBytes(s.config), sig) then Ok(())
        else Err(Rejected)
  }

  /** Verification accepts exactly a readable signer with 128 hexadecimal digits of
      signature that the scheme accepts for the signing bytes of the config. */
  lemma VerifyAcceptsExactly<SK(!new), PK(!new)>(scheme: Scheme<SK, PK>, s: SignedConfig)
    ensures VerifyConfig(scheme, s) == Ok(()) <==>
              && scheme.read(s.signer).Some?
              && |s.signature| == 2 * SIGNATURE_LENGTH
              && (forall i :: 0 <= i < |s.signature| ==> Hex.DigitValue(s.signature[i]).Some?)
              && Hex.Decode(s.signature).Ok?
              && scheme.verify(scheme.read(s.signer).value, CanonicalBytes(s.config), Hex.Decode(s.signature).value)
  {
    Hex.DecodesExactlyDigits(s.signature);
  }

  /** Why a config is refused, in this order: a signer that is no key, a signature that
      is not hexadecimal, one that is not 64 bytes, one that is not valid. */
  lemma VerifyFailsExactly<SK(!new), PK(!new)>(scheme: Scheme<SK, PK>, s: SignedConfig)
    ensures var r, sig := VerifyConfig(scheme, s), Hex.Decode(s.signature);
            if scheme.read(s.signer).None? then r == Err(InvalidSigner)
            else if sig.Err? then r == Err(SignatureNotHex)
            else if |s.signature| != 128 then r == Err(SignatureLength)
            else r == Ok(()) || r == Err(Rejected)
  {
  }

  /** What a node signs and publishes verifies for whoever reads the file. */
  lemma SignPublishReadVerify<SK(!new), PK(!new)>(scheme: Scheme<SK, PK>, c: Config, sk: SK)
    requires scheme.Correct() && c.InRange()
    ensures var read := ReadPublished(PublishedBytes(SignConfig(scheme, c, sk)));
            && read.Some? && read.value.config == c
            && scheme.read(read.value.signer) == Some(scheme.public(sk))
            && VerifyConfig(scheme, read.value) == Ok(())
  {
    PublishedRoundTrip(SignConfig(scheme, c, sk));
    Hex.DecodeOfEncode(scheme.sign(sk, CanonicalBytes(c)));
  }

  /** A signature taken from a signed config is accepted with that config and that
      signer, and rejected with every other config and every other signer, exactly
      when the scheme does not forge: the file format adds no confusion of its own. */
  lemma VerifiesExactlyWhatWasSigned<SK(!new), PK(!new)>(
      scheme: Scheme<SK, PK>, c: Config, sk: SK, d: Config, pk: PK)
    requires scheme.Correct() && c.InRange() && d.InRange()
    ensures var moved := SignedConfig(d, scheme.show(pk), SignConfig(scheme, c, sk).signature);
            VerifyConfig(scheme, moved) == (if d == c && pk == scheme.public(sk) then Ok(()) else Err(Rejected))
            <==> scheme.NoForgery(sk, CanonicalBytes(c), pk, CanonicalBytes(d))
  {
    CanonicalInjective(c, d);
    Hex.DecodeOfEncode(scheme.sign(sk, CanonicalBytes(c)));
  }
}
