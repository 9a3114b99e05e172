/**
 What the split recovers from the configurations the panel builds: exactly the
 provisioned users, and a skeleton that stands for everything else.
 */
module Skeleton {
  import opened Wrappers
  import opened Json
  import opened StoreSpec
  import opened Signature
  import opened NodeConf
  import opened ClientSplit

  /** The configuration that reaches the file: built for the node, without TLS if its certificate is missing. */
  function Effective(p: Settings, cs: seq<Client>, certMissing: bool): Json {
    Strip(Config(p, cs), certMissing)
  }

  /** Whether the TLS inbound is in it. */
  predicate ServesTls(p: Settings, certMissing: bool) {
    p.tlsDomain != "" && !certMissing
  }

  function Kept(p: Settings, list: seq<Json>, tls: bool): seq<Json> {
    [ApiInbound()] + (if tls then [TlsInbound(list)] else []) + [RealityInbound(p, list)]
  }

  lemma TagsDiffer()
    ensures TAG_TLS != TAG_REALITY && "api" != TAG_TLS && "api" != TAG_REALITY
  {
  }

  lemma {:induction false} WithoutTlsAppend(ibs: seq<Json>, ib: Json)
    ensures WithoutTls(ibs + [ib]) == WithoutTls(ibs) + KeepIfNotTls(ib)
  {
  }

  lemma {:induction false} ClientMapsAppend(ibs: seq<Json>, ib: Json)
    ensures ClientMaps(ibs + [ib]) == AddInbound(ClientMaps(ibs), ib)
  {
  }

  lemma TlsFilter(p: Settings, list: seq<Json>)
    ensures IsTls(TlsInbound(list)) && !IsTls(ApiInbound()) && !IsTls(RealityInbound(p, list))
  {
  }

  lemma StripsTls(p: Settings, list: seq<Json>)
    ensures WithoutTls(Inbounds(p, list)) == Kept(p, list, false)
  {
    TlsFilter(p, list);
    var api := [ApiInbound()];
    assert [] + api == api;
    WithoutTlsAppend([], ApiInbound());
    if p.tlsDomain != "" {
      WithoutTlsAppend(api, TlsInbound(list));
      WithoutTlsAppend(api + [TlsInbound(list)], RealityInbound(p, list));
    } else {
      assert api + [] == api;
      WithoutTlsAppend(api, RealityInbound(p, list));
    }
  }

  lemma EffectiveIs(p: Settings, cs: seq<Client>, certMissing: bool)
    ensures Effective(p, cs, certMissing) == Document(Kept(p, ClientList(cs), ServesTls(p, certMissing)))
  {
    var doc := Config(p, cs);
    assert HasInbounds(doc) && InboundsOf(doc) == Inbounds(p, ClientList(cs));
    if certMissing {
      StripsTls(p, ClientList(cs));
      WithInboundsOfDocument(Inbounds(p, ClientList(cs)), Kept(p, ClientList(cs), false));
    }
  }

  lemma WithInboundsOfDocument(a: seq<Json>, b: seq<Json>)
    ensures HasInbounds(Document(a)) && InboundsOf(Document(a)) == a
    ensures WithInbounds(Document(a), b) == Document(b)
  {
  }

  // ---- emptied inbounds ----

  lemma EmptiedTls(list: seq<Json>)
    ensures Managed(TlsInbound(list)) && StrField(TlsInbound(list), "tag") == TAG_TLS
    ensures ClientArray(TlsInbound(list)) == list && Emptied(TlsInbound(list)) == TlsInbound([])
  {
    var ib := TlsInbound(list);
    var s := ib.fields["settings"].fields;
    assert s["clients" := Arr([])] == TlsInbound([]).fields["settings"].fields;
    assert ib.fields["settings" := Obj(s["clients" := Arr([])])] == TlsInbound([]).fields;
  }

  lemma EmptiedReality(p: Settings, list: seq<Json>)
    ensures Managed(RealityInbound(p, list)) && StrField(RealityInbound(p, list), "tag") == TAG_REALITY
    ensures ClientArray(RealityInbound(p, list)) == list && Emptied(RealityInbound(p, list)) == RealityInbound(p, [])
  {
    var ib := RealityInbound(p, list);
    var s := ib.fields["settings"].fields;
    assert s["clients" := Arr([])] == RealityInbound(p, []).fields["settings"].fields;
    assert ib.fields["settings" := Obj(s["clients" := Arr([])])] == RealityInbound(p, []).fields;
  }

  lemma ApiUnmanaged()
    ensures !Managed(ApiInbound()) && Emptied(ApiInbound()) == ApiInbound()
  {
  }

  lemma EmptiesKept(p: Settings, list: seq<Json>, tls: bool)
    ensures EmptyAll(Kept(p, list, tls)) == Kept(p, [], tls)
  {
    EmptiedTls(list);
    EmptiedReality(p, list);
    ApiUnmanaged();
  }

  // ---- recovered clients ----

  /** The email to uuid map of a client list; an empty email is never managed. */
  function Uuids(cs: seq<Client>): map<string, string> {
    if cs == [] then map[] else AddUuid(Uuids(cs[..|cs| - 1]), cs[|cs| - 1])
  }

  function AddUuid(m: map<string, string>, c: Client): map<string, string> {
    if c.email != "" then m[c.email := c.uuid] else m
  }

  lemma ClientJsonFields(c: Client)
    ensures StrField(ClientJson(c), "email") == c.email && StrField(ClientJson(c), "id") == c.uuid
    ensures StrField(ClientJson(c), "flow") == "xtls-rprx-vision" && Member(ClientJson(c), "level") == Num(0)
  {
  }

  lemma {:induction false} RecoversUuids(cs: seq<Client>)
    ensures ClientSet(ClientList(cs)) == Uuids(cs)
  {
    if cs != [] {
      RecoversUuids(cs[..|cs| - 1]);
      assert ClientList(cs)[..|cs| - 1] == ClientList(cs[..|cs| - 1]);
      ClientJsonFields(cs[|cs| - 1]);
    }
  }

  lemma {:induction false} UuidsHold(cs: seq<Client>, i: nat)
    requires i < |cs| && Distinct(cs) && cs[i].email != ""
    ensures cs[i].email in Uuids(cs) && Uuids(cs)[cs[i].email] == cs[i].uuid
  {
    if i < |cs| - 1 {
      var rest := cs[..|cs| - 1];
      UuidsHold(rest, i);
      assert rest[i].email != cs[|cs| - 1].email;
    }
  }

  lemma {:induction false} UuidsOnly(cs: seq<Client>, e: string)
    requires e in Uuids(cs)
    ensures exists i :: 0 <= i < |cs| && cs[i].email == e
  {
    var rest := cs[..|cs| - 1];
    if e in Uuids(rest) {
      UuidsOnly(rest, e);
      var i :| 0 <= i < |rest| && rest[i].email == e;
      assert cs[i].email == e;
    } else {
      assert cs[|cs| - 1].email == e;
    }
  }

  /** Every distinct non-empty email keeps its own uuid, and no other email appears. */
  lemma UuidsExact(cs: seq<Client>)
    requires Distinct(cs) && forall c :: c in cs ==> c.email != ""
    ensures forall c :: c in cs ==> c.email in Uuids(cs) && Uuids(cs)[c.email] == c.uuid
    ensures forall e :: e in Uuids(cs) ==> exists i :: 0 <= i < |cs| && cs[i].email == e
  {
    forall c | c in cs
      ensures c.email in Uuids(cs) && Uuids(cs)[c.email] == c.uuid
    {
      var i :| 0 <= i < |cs| && cs[i] == c;
      UuidsHold(cs, i);
    }
    forall e | e in Uuids(cs)
      ensures exists i :: 0 <= i < |cs| && cs[i].email == e
    {
      UuidsOnly(cs, e);
    }
  }

  function TagMap(tls: bool, m: map<string, string>): Clients {
    if tls then map[TAG_TLS := m, TAG_REALITY := m] else map[TAG_REALITY := m]
  }

  lemma KeptClients(p: Settings, list: seq<Json>, tls: bool)
    ensures ClientMaps(Kept(p, list, tls)) == TagMap(tls, ClientSet(list))
  {
    TagsDiffer();
    ApiUnmanaged();
    EmptiedTls(list);
    EmptiedReality(p, list);
    var api := [ApiInbound()];
    assert [] + api == api;
    ClientMapsAppend([], ApiInbound());
    if tls {
      ClientMapsAppend(api, TlsInbound(list));
      ClientMapsAppend(api + [TlsInbound(list)], RealityInbound(p, list));
    } else {
      assert api + [] == api;
      ClientMapsAppend(api, RealityInbound(p, list));
    }
  }

  /**
   From a built configuration the split recovers exactly the provisioned users on
   each inbound present, and a skeleton in which they leave no trace.
   */
  lemma ParseRecovers(p: Settings, cs: seq<Client>, certMissing: bool)
    ensures var tls := ServesTls(p, certMissing);
            Parse(Effective(p, cs, certMissing)) ==
            Some(Parsed(Effective(p, [], certMissing), TagMap(tls, Uuids(cs))))
  {
    var tls := ServesTls(p, certMissing);
    var list := ClientList(cs);
    EffectiveIs(p, cs, certMissing);
    EffectiveIs(p, [], certMissing);
    assert ClientList([]) == [];
    EmptiesKept(p, list, tls);
    KeptClients(p, list, tls);
    RecoversUuids(cs);
    WithInboundsOfDocument(Kept(p, list, tls), Kept(p, [], tls));
  }

  predicate SameReality(p: Settings, q: Settings) {
    && p.realityDest == q.realityDest && p.realityServerName == q.realityServerName
    && p.realityPrivateKey == q.realityPrivateKey && p.realityShortId == q.realityShortId
  }

  lemma RealityInboundInjective(p: Settings, q: Settings)
    requires RealityInbound(p, []) == RealityInbound(q, [])
    ensures SameReality(p, q)
  {
    var a, b := RealityInbound(p, []), RealityInbound(q, []);
    assert a.fields["streamSettings"] == b.fields["streamSettings"];
    assert RealityStream(p).fields["realitySettings"] == RealityStream(q).fields["realitySettings"];
    var r, s := RealitySettings(p), RealitySettings(q);
    assert r.fields["dest"] == s.fields["dest"] && r.fields["privateKey"] == s.fields["privateKey"];
    assert r.fields["serverNames"].items[0] == s.fields["serverNames"].items[0];
    assert r.fields["shortIds"].items[0] == s.fields["shortIds"].items[0];
  }

  lemma DocumentInjective(a: seq<Json>, b: seq<Json>)
    requires Document(a) == Document(b)
    ensures a == b
  {
    assert Document(a).fields["inbounds"] == Document(b).fields["inbounds"];
  }

  /**
   Skeletons are equal exactly when the REALITY settings are equal and the TLS
   inbound is present in both or in neither: so a change of settings, and adding or
   dropping the TLS inbound, is never applied live, and a change of users always may be.
   */
  lemma SkeletonSound(p: Settings, cs: seq<Client>, pMissing: bool, q: Settings, ds: seq<Client>, qMissing: bool)
    ensures Parse(Effective(p, cs, pMissing)).Some? && Parse(Effective(q, ds, qMissing)).Some?
    ensures Parse(Effective(p, cs, pMissing)).value.skeleton == Parse(Effective(q, ds, qMissing)).value.skeleton <==>
            SameReality(p, q) && ServesTls(p, pMissing) == ServesTls(q, qMissing)
  {
    hide Effective, Parse, Uuids, TlsInbound;
    ParseRecovers(p, cs, pMissing);
    ParseRecovers(q, ds, qMissing);
    EffectiveIs(p, [], pMissing);
    EffectiveIs(q, [], qMissing);
    assert ClientList([]) == [];
    var a, b := Kept(p, [], ServesTls(p, pMissing)), Kept(q, [], ServesTls(q, qMissing));
    if Document(a) == Document(b) {
      DocumentInjective(a, b);
      assert |a| == |b| && a[|a| - 1] == b[|b| - 1];
      RealityInboundInjective(p, q);
    }
  }

  // ---- reading the REALITY settings back ----

  function Member(j: Json, key: string): Json {
    if j.Obj? && key in j.fields then j.fields[key] else Null
  }

  function RealityOf(ib: Json): Json {
    Member(Member(ib, "streamSettings"), "realitySettings")
  }

  function FirstString(j: Json): string {
    if j.Arr? && j.items != [] && j.items[0].Str? then j.items[0].s else ""
  }

  predicate NamesServer(ib: Json) {
    && ib.Obj? && Member(ib, "tag") == Str(TAG_REALITY)
    && Member(RealityOf(ib), "serverNames").Arr? && Member(RealityOf(ib), "serverNames").items != []
  }

  /** The server name of the first REALITY inbound that has one. */
  function SniOf(ibs: seq<Json>): string {
    if ibs == [] then ""
    else if NamesServer(ibs[0]) then FirstString(Member(RealityOf(ibs[0]), "serverNames"))
    else SniOf(ibs[1..])
  }

  /** It is the first entry of that inbound's server names. */
  lemma {:induction false} SniIsFirst(ibs: seq<Json>, i: nat)
    requires i < |ibs| && NamesServer(ibs[i]) && forall j :: 0 <= j < i ==> !NamesServer(ibs[j])
    ensures var names := Member(Member(Member(ibs[i], "streamSettings"), "realitySettings"), "serverNames");
            && StrField(ibs[i], "tag") == "vless-reality-vision" && names.Arr? && names.items != []
            && SniOf(ibs) == if names.items[0].Str? then names.items[0].s else ""
  {
    if i > 0 {
      hide NamesServer;
      SniIsFirst(ibs[1..], i - 1);
    }
  }

  /** What the agent routes by SNI: read from the configuration it is about to apply. */
  method RealitySniFromConfig(doc: Json) returns (sni: string)
    ensures sni == if HasInbounds(doc) then SniOf(InboundsOf(doc)) else ""
  {
    if !HasInbounds(doc) {
      return "";
    }
    var inbounds := InboundsOf(doc);
    for i := 0 to |inbounds|
      invariant SniOf(inbounds) == SniOf(inbounds[i..])
    {
      assert inbounds[i..][1..] == inbounds[i + 1..];
      var ib := inbounds[i];
      if !ib.Obj? || Member(ib, "tag") != Str(TAG_REALITY) {
        continue;
      }
      var names := Member(RealityOf(ib), "serverNames");
      if names.Arr? && names.items != [] {
        return FirstString(names);
      }
    }
    sni := "";
  }

  /** The strings of an array. */
  function StringsOf(j: Json): seq<string> {
    if j.Arr? then seq(|j.items|, i requires 0 <= i < |j.items| => if j.items[i].Str? then j.items[i].s else "") else []
  }

  lemma ApiServes()
    ensures StrField(ApiSection(), "tag") == "api"
    ensures StringsOf(Member(ApiSection(), "services")) == ["StatsService", "HandlerService"]
    ensures StrField(ApiInbound(), "tag") == "api" && Member(ApiInbound(), "port") == Num(10085)
  {
  }

  lemma ApiRouted()
    ensures var rules := Member(RoutingSection(), "rules");
            && rules.Arr? && rules.items != [] && StringsOf(Member(rules.items[0], "inboundTag")) == ["api"]
            && StrField(rules.items[0], "outboundTag") == "api"
  {
  }

  lemma UsageCounted()
    ensures var level := Member(Member(PolicySection(), "levels"), "0");
            && Member(level, "statsUserUplink") == Bool(true) && Member(level, "statsUserDownlink") == Bool(true)
    ensures StrField(LogSection(), "access") == "/var/log/xray/access.log"
  {
  }

  lemma SectionsOf(inbounds: seq<Json>)
    ensures var doc := Document(inbounds);
            && Member(doc, "api") == ApiSection() && Member(doc, "policy") == PolicySection()
            && Member(doc, "routing") == RoutingSection() && Member(doc, "log") == LogSection()
            && HasInbounds(doc) && InboundsOf(doc) == inbounds
  {
    hide ApiSection, PolicySection, RoutingSection, LogSection, Outbounds;
  }

  /**
   What the agent relies on in every configuration it applies: Xray's user and stats
   services are on, reachable through an inbound on port 10085 that is routed to
   them; counters are kept for the level that all clients have; and the access log is
   where the tailer reads it.
   */
  lemma AgentCanWork(p: Settings, cs: seq<Client>, certMissing: bool)
    ensures var doc := Effective(p, cs, certMissing);
            var api, level := Member(doc, "api"), Member(Member(Member(doc, "policy"), "levels"), "0");
            var rules := Member(Member(doc, "routing"), "rules");
            && StrField(api, "tag") == "api" && StringsOf(Member(api, "services")) == ["StatsService", "HandlerService"]
            && HasInbounds(doc) && InboundsOf(doc) != []
            && StrField(InboundsOf(doc)[0], "tag") == "api" && Member(InboundsOf(doc)[0], "port") == Num(10085)
            && rules.Arr? && rules.items != [] && StringsOf(Member(rules.items[0], "inboundTag")) == ["api"]
            && StrField(rules.items[0], "outboundTag") == "api"
            && Member(level, "statsUserUplink") == Bool(true) && Member(level, "statsUserDownlink") == Bool(true)
            && StrField(Member(doc, "log"), "access") == "/var/log/xray/access.log"
  {
    hide Effective, Document, ApiSection, PolicySection, RoutingSection, LogSection, ApiInbound, StringsOf, StrField;
    hide Member, HasInbounds, InboundsOf, TlsInbound, RealityInbound;
    var ibs := Kept(p, ClientList(cs), ServesTls(p, certMissing));
    EffectiveIs(p, cs, certMissing);
    SectionsOf(ibs);
    assert ibs[0] == ApiInbound();
    ApiServes();
    ApiRouted();
    UsageCounted();
  }

  /** The TLS inbound: its tag, port and security, with the clients given. */
  lemma TlsInboundIs(list: seq<Json>)
    ensures var t := TlsInbound(list);
            && StrField(t, "tag") == "vless-xtls-vision" && Member(t, "port") == Num(10444)
            && StrField(t, "protocol") == "vless" && StrField(Member(t, "streamSettings"), "security") == "tls"
            && Member(Member(t, "settings"), "clients") == Arr(list)
  {
    hide Sniffing, Sockopt;
  }

  /** The REALITY inbound: its tag, port and security, with the clients given. */
  lemma RealityInboundIs(p: Settings, list: seq<Json>)
    ensures var r := RealityInbound(p, list);
            && StrField(r, "tag") == "vless-reality-vision" && Member(r, "port") == Num(10443)
            && StrField(r, "protocol") == "vless" && StrField(Member(r, "streamSettings"), "security") == "reality"
            && Member(Member(r, "settings"), "clients") == Arr(list)
  {
    hide Sniffing, Sockopt, RealitySettings;
  }

  /** The REALITY inbound carries each setting in its own place. */
  lemma RealityReadsBack(p: Settings, list: seq<Json>)
    ensures var r := RealityOf(RealityInbound(p, list));
            && StrField(r, "dest") == p.realityDest && StrField(r, "privateKey") == p.realityPrivateKey
            && FirstString(Member(r, "serverNames")) == p.realityServerName
            && FirstString(Member(r, "shortIds")) == p.realityShortId
            && NamesServer(RealityInbound(p, list))
  {
  }

  /** So the SNI the agent routes by is the one set on the node, with or without the TLS inbound. */
  lemma SniFollowsSettings(p: Settings, cs: seq<Client>, certMissing: bool)
    ensures HasInbounds(Effective(p, cs, certMissing))
    ensures SniOf(InboundsOf(Effective(p, cs, certMissing))) == p.realityServerName
  {
    var list, tls := ClientList(cs), ServesTls(p, certMissing);
    EffectiveIs(p, cs, certMissing);
    WithInboundsOfDocument(Kept(p, list, tls), []);
    RealityReadsBack(p, list);
    TagsDiffer();
    var ibs := Kept(p, list, tls);
    assert !NamesServer(ApiInbound()) && !NamesServer(TlsInbound(list));
    assert SniOf(ibs) == SniOf(ibs[1..]);
    if tls {
      assert ibs[1] == TlsInbound(list) && ibs[1..][1..] == [RealityInbound(p, list)];
    } else {
      assert ibs[1..] == [RealityInbound(p, list)];
    }
  }
}
