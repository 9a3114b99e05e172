/**
 JSON documents as trees, and the engine configuration built for a node
 (internal/nodeconf/nodeconf.go).
 */
module Json {
  datatype Json =
    | Null
    | Bool(b: bool)
    | Num(n: int)
    | Str(s: string)
    | Arr(items: seq<Json>)
    | Obj(fields: map<string, Json>)

  /** A string member, or the empty string if it is missing or of another type. */
  function StrField(j: Json, key: string): string {
    if j.Obj? && key in j.fields && j.fields[key].Str? then j.fields[key].s else ""
  }

  function Strings(ss: seq<string>): Json {
    Arr(seq(|ss|, i requires 0 <= i < |ss| => Str(ss[i])))
  }
}

module NodeConf {
  import opened Json
  import opened StoreSpec
  import opened Signature

  const TAG_TLS := "vless-xtls-vision"
  const TAG_REALITY := "vless-reality-vision"

  function ClientJson(c: Client): Json {
    Obj(map["id" := Str(c.uuid), "email" := Str(c.email), "flow" := Str("xtls-rprx-vision"), "level" := Num(0)])
  }

  function ClientList(cs: seq<Client>): seq<Json> {
    seq(|cs|, i requires 0 <= i < |cs| => ClientJson(cs[i]))
  }

  function ApiInbound(): Json {
    Obj(map["tag" := Str("api"), "listen" := Str("0.0.0.0"), "port" := Num(10085),
            "protocol" := Str("dokodemo-door"), "settings" := Obj(map["address" := Str("127.0.0.1")])])
  }

  function Sniffing(): Json {
    Obj(map["enabled" := Bool(true), "destOverride" := Strings(["http", "tls", "quic"]), "routeOnly" := Bool(true)])
  }

  function Sockopt(): Json {
    Obj(map["acceptProxyProtocol" := Bool(true)])
  }

  function TlsStream(): Json {
    Obj(map["network" := Str("tcp"), "security" := Str("tls"), "sockopt" := Sockopt(),
            "tlsSettings" := Obj(map[
              "rejectUnknownSni" := Bool(true), "minVersion" := Str("1.3"), "alpn" := Strings(["http/1.1"]),
              "certificates" := Arr([Obj(map[
                "ocspStapling" := Num(3600),
                "certificateFile" := Str("/etc/xray/certs/fullchain.pem"),
                "keyFile" := Str("/etc/xray/certs/privkey.pem")])])])])
  }

  function TlsInbound(list: seq<Json>): Json {
    Obj(map["tag" := Str(TAG_TLS), "listen" := Str("0.0.0.0"), "port" := Num(10444), "protocol" := Str("vless"),
            "settings" := Obj(map[
              "clients" := Arr(list), "decryption" := Str("none"),
              "fallbacks" := Arr([Obj(map["dest" := Str("nginx:8080"), "xver" := Num(0)])])]),
            "streamSettings" := TlsStream(), "sniffing" := Sniffing()])
  }

  function RealitySettings(p: Settings): Json {
    Obj(map["show" := Bool(false), "dest" := Str(p.realityDest), "xver" := Num(0),
            "serverNames" := Strings([p.realityServerName]), "privateKey" := Str(p.realityPrivateKey),
            "shortIds" := Strings([p.realityShortId])])
  }

  function RealityStream(p: Settings): Json {
    Obj(map["network" := Str("tcp"), "security" := Str("reality"), "sockopt" := Sockopt(),
            "realitySettings" := RealitySettings(p)])
  }

  function RealityInbound(p: Settings, list: seq<Json>): Json {
    Obj(map["tag" := Str(TAG_REALITY), "listen" := Str("0.0.0.0"), "port" := Num(10443), "protocol" := Str("vless"),
            "settings" := Obj(map["clients" := Arr(list), "decryption" := Str("none")]),
            "streamSettings" := RealityStream(p), "sniffing" := Sniffing()])
  }

  function Inbounds(p: Settings, list: seq<Json>): seq<Json> {
    [ApiInbound()] + (if p.tlsDomain != "" then [TlsInbound(list)] else []) + [RealityInbound(p, list)]
  }

  function LogSection(): Json {
    Obj(map["loglevel" := Str("warning"), "access" := Str("/var/log/xray/access.log"), "error" := Str("")])
  }

  function ApiSection(): Json {
    Obj(map["tag" := Str("api"), "services" := Strings(["StatsService", "HandlerService"])])
  }

  function PolicySection(): Json {
    Obj(map["levels" := Obj(map["0" := Obj(map["statsUserUplink" := Bool(true), "statsUserDownlink" := Bool(true)])]),
            "system" := Obj(map["statsInboundUplink" := Bool(true), "statsInboundDownlink" := Bool(true)])])
  }

  function Outbounds(): Json {
    Arr([Obj(map["tag" := Str("direct"), "protocol" := Str("freedom"),
                 "settings" := Obj(map["domainStrategy" := Str("UseIPv4")])]),
         Obj(map["tag" := Str("block"), "protocol" := Str("blackhole")])])
  }

  function Rule(key: string, value: string, outbound: string): Json {
    Obj(map["type" := Str("field"), key := Strings([value]), "outboundTag" := Str(outbound)])
  }

  function RoutingSection(): Json {
    Obj(map["domainStrategy" := Str("AsIs"),
            "rules" := Arr([Rule("inboundTag", "api", "api"), Rule("ip", "geoip:private", "block"),
                            Rule("domain", "geosite:category-ads-all", "block")])])
  }

  /** The members of a document other than its inbounds. */
  function FixedSections(): map<string, Json> {
    map["log" := LogSection(), "stats" := Obj(map[]), "api" := ApiSection(), "policy" := PolicySection(),
        "outbounds" := Outbounds(), "routing" := RoutingSection()]
  }

  /** The document around a list of inbounds. */
  function Document(inbounds: seq<Json>): Json {
    Obj(FixedSections()["inbounds" := Arr(inbounds)])
  }

  function Config(p: Settings, cs: seq<Client>): Json {
    Document(Inbounds(p, ClientList(cs)))
  }

  /** Builds the document as the source does: the client list in a loop, the TLS inbound only with a domain. */
  method Build(p: Settings, clients: seq<Client>) returns (doc: Json)
    ensures doc == Config(p, clients)
  {
    var list: seq<Json> := [];
    for i := 0 to |clients|
      invariant |list| == i && forall k :: 0 <= k < i ==> list[k] == ClientJson(clients[k])
    {
      list := list + [ClientJson(clients[i])];
    }
    assert list == ClientList(clients);
    var inbounds := [ApiInbound()];
    if p.tlsDomain != "" {
      inbounds := inbounds + [TlsInbound(list)];
    }
    inbounds := inbounds + [RealityInbound(p, list)];
    assert inbounds == Inbounds(p, list);
    doc := Document(inbounds);
  }
}
