/**
 Splitting a configuration into its client sets and a skeleton
 (internal/agent/live_grpc.go), and dropping the TLS inbound when there is no
 certificate (internal/agent/xray.go).
 */
module ClientSplit {
  import opened Wrappers
  import opened Json
  import opened NodeConf

  /** tag -> email -> uuid */
  type Clients = map<string, map<string, string>>

  datatype Parsed = Parsed(skeleton: Json, clients: Clients)

  /** An inbound whose client list the agent manages. */
  predicate Managed(ib: Json) {
    && ib.Obj? && (StrField(ib, "tag") == TAG_TLS || StrField(ib, "tag") == TAG_REALITY)
    && "settings" in ib.fields && ib.fields["settings"].Obj?
  }

  function ClientArray(ib: Json): seq<Json>
    requires Managed(ib)
  {
    var settings := ib.fields["settings"].fields;
    if "clients" in settings && settings["clients"].Arr? then settings["clients"].items else []
  }

  function Emptied(ib: Json): Json {
    if Managed(ib)
    then Obj(ib.fields["settings" := Obj(ib.fields["settings"].fields["clients" := Arr([])])])
    else ib
  }

  function AddClient(m: map<string, string>, c: Json): map<string, string> {
    if StrField(c, "email") != "" then m[StrField(c, "email") := StrField(c, "id")] else m
  }

  function ClientSet(arr: seq<Json>): map<string, string> {
    if arr == [] then map[] else AddClient(ClientSet(arr[..|arr| - 1]), arr[|arr| - 1])
  }

  function AddInbound(m: Clients, ib: Json): Clients {
    if Managed(ib) then m[StrField(ib, "tag") := ClientSet(ClientArray(ib))] else m
  }

  function ClientMaps(ibs: seq<Json>): Clients {
    if ibs == [] then map[] else AddInbound(ClientMaps(ibs[..|ibs| - 1]), ibs[|ibs| - 1])
  }

  function EmptyAll(ibs: seq<Json>): seq<Json> {
    seq(|ibs|, i requires 0 <= i < |ibs| => Emptied(ibs[i]))
  }

  predicate HasInbounds(doc: Json) {
    doc.Obj? && "inbounds" in doc.fields && doc.fields["inbounds"].Arr?
  }

  function InboundsOf(doc: Json): seq<Json>
    requires HasInbounds(doc)
  {
    doc.fields["inbounds"].items
  }

  function WithInbounds(doc: Json, ibs: seq<Json>): Json
    requires HasInbounds(doc)
  {
    Obj(doc.fields["inbounds" := Arr(ibs)])
  }

  function Parse(doc: Json): Option<Parsed> {
    if HasInbounds(doc)
    then Some(Parsed(WithInbounds(doc, EmptyAll(InboundsOf(doc))), ClientMaps(InboundsOf(doc))))
    else None
  }

  /** The email-to-uuid map of one inbound's client list. */
  method ReadClients(entries: seq<Json>) returns (found: map<string, string>)
    ensures found == ClientSet(entries)
  {
    found := map[];
    for j := 0 to |entries|
      invariant found == ClientSet(entries[..j])
    {
      assert entries[..j + 1][..j] == entries[..j];
      if StrField(entries[j], "email") != "" {
        found := found[StrField(entries[j], "email") := StrField(entries[j], "id")];
      }
    }
    assert entries[..|entries|] == entries;
  }

  method ParseClients(doc: Json) returns (r: Option<Parsed>)
    ensures r == Parse(doc)
  {
    if !HasInbounds(doc) {
      return None;
    }
    var inbounds := doc.fields["inbounds"].items;
    var emptied: seq<Json> := [];
    var clients: Clients := map[];
    for i := 0 to |inbounds|
      invariant |emptied| == i && forall k :: 0 <= k < i ==> emptied[k] == Emptied(inbounds[k])
      invariant clients == ClientMaps(inbounds[..i])
    {
      hide StrField, ClientArray, ClientSet;
      assert inbounds[..i + 1][..i] == inbounds[..i];
      var ib := inbounds[i];
      if Managed(ib) {
        var found := ReadClients(ClientArray(ib));
        clients := clients[StrField(ib, "tag") := found];
        emptied := emptied + [Obj(ib.fields["settings" := Obj(ib.fields["settings"].fields["clients" := Arr([])])])];
      } else {
        emptied := emptied + [ib];
      }
    }
    assert inbounds[..|inbounds|] == inbounds;
    assert emptied == EmptyAll(inbounds);
    r := Some(Parsed(WithInbounds(doc, emptied), clients));
  }

  /** The clients read from a list are the named ones, each under the identifier of its last entry. */
  lemma {:induction false} ClientsRead(arr: seq<Json>, e: string) returns (i: int)
    requires e in ClientSet(arr)
    ensures e != "" && 0 <= i < |arr| && StrField(arr[i], "email") == e && ClientSet(arr)[e] == StrField(arr[i], "id")
    ensures forall j :: i < j < |arr| ==> StrField(arr[j], "email") != e
  {
    hide StrField;
    var rest := arr[..|arr| - 1];
    if e == "" || StrField(arr[|rest|], "email") != e {
      i := ClientsRead(rest, e);
      assert forall j :: 0 <= j < |rest| ==> arr[j] == rest[j];
    } else {
      i := |rest|;
    }
  }

  lemma {:induction false} ClientsAllRead(arr: seq<Json>, i: nat)
    requires i < |arr| && StrField(arr[i], "email") != ""
    ensures StrField(arr[i], "email") in ClientSet(arr)
  {
    hide StrField;
    if i < |arr| - 1 {
      ClientsAllRead(arr[..|arr| - 1], i);
      assert arr[..|arr| - 1][i] == arr[i];
    }
  }

  // ---- dropping the TLS inbound ----

  predicate IsTls(ib: Json) {
    ib.Obj? && "tag" in ib.fields && ib.fields["tag"] == Str(TAG_TLS)
  }

  function KeepIfNotTls(ib: Json): seq<Json> {
    if IsTls(ib) then [] else [ib]
  }

  function WithoutTls(ibs: seq<Json>): seq<Json> {
    if ibs == [] then [] else WithoutTls(ibs[..|ibs| - 1]) + KeepIfNotTls(ibs[|ibs| - 1])
  }

  /** The configuration that is actually written: without TLS inbounds when the certificate is missing. */
  function Strip(doc: Json, certMissing: bool): Json {
    if certMissing && HasInbounds(doc) then WithInbounds(doc, WithoutTls(InboundsOf(doc))) else doc
  }

  /** Exactly the inbounds tagged as TLS go. */
  lemma {:induction false} OnlyTlsGoes(ibs: seq<Json>, ib: Json)
    ensures ib in WithoutTls(ibs) <==>
            ib in ibs && !(ib.Obj? && "tag" in ib.fields && ib.fields["tag"] == Str("vless-xtls-vision"))
  {
    if ibs != [] {
      hide IsTls;
      var rest, last := ibs[..|ibs| - 1], ibs[|ibs| - 1];
      OnlyTlsGoes(rest, ib);
      TlsTag(ib);
      TlsTag(last);
      assert ib in ibs <==> ib in rest || ib == last;
      assert ib in WithoutTls(ibs) <==> ib in WithoutTls(rest) || ib in KeepIfNotTls(last);
    }
  }

  lemma TlsTag(ib: Json)
    ensures IsTls(ib) <==> ib.Obj? && "tag" in ib.fields && ib.fields["tag"] == Str("vless-xtls-vision")
  {
  }

  lemma {:induction false} WithoutTlsKeeps(ibs: seq<Json>)
    requires forall i :: 0 <= i < |ibs| ==> !IsTls(ibs[i])
    ensures WithoutTls(ibs) == ibs
  {
    if ibs != [] {
      WithoutTlsKeeps(ibs[..|ibs| - 1]);
      assert ibs == ibs[..|ibs| - 1] + [ibs[|ibs| - 1]];
    }
  }

  method StripTlsIfNoCert(doc: Json, certMissing: bool) returns (r: Json)
    ensures r == Strip(doc, certMissing)
  {
    if !certMissing || !HasInbounds(doc) {
      return doc;
    }
    var inbounds := InboundsOf(doc);
    var kept: seq<Json> := [];
    var removed := false;
    for i := 0 to |inbounds|
      invariant kept == WithoutTls(inbounds[..i])
      invariant !removed ==> forall k :: 0 <= k < i ==> !IsTls(inbounds[k])
    {
      assert inbounds[..i + 1][..i] == inbounds[..i];
      if IsTls(inbounds[i]) {
        removed := true;
        continue;
      }
      kept := kept + [inbounds[i]];
    }
    assert inbounds[..|inbounds|] == inbounds;
    if !removed {
      WithoutTlsKeeps(inbounds);
      assert doc.fields["inbounds" := Arr(inbounds)] == doc.fields;
      return doc;
    }
    r := WithInbounds(doc, kept);
  }

  // ---- what a skeleton determines, for any document ----

  /** Emptying an inbound's client list changes neither its tag nor whether it is managed. */
  lemma EmptiedSame(ib: Json)
    ensures Managed(Emptied(ib)) <==> Managed(ib)
    ensures Managed(ib) ==> StrField(Emptied(ib), "tag") == StrField(ib, "tag")
  {
  }

  predicate Carries(ib: Json, tag: string) {
    Managed(ib) && StrField(ib, "tag") == tag
  }

  lemma {:induction false} TagsPresent(ibs: seq<Json>, tag: string)
    ensures tag in ClientMaps(ibs) <==> exists i :: 0 <= i < |ibs| && Carries(ibs[i], tag)
  {
    if ibs != [] {
      var rest := ibs[..|ibs| - 1];
      TagsPresent(rest, tag);
      if tag in ClientMaps(rest) {
        var i :| 0 <= i < |rest| && Carries(rest[i], tag);
        assert Carries(ibs[i], tag);
      }
      if exists i :: 0 <= i < |ibs| && Carries(ibs[i], tag) {
        var i :| 0 <= i < |ibs| && Carries(ibs[i], tag);
        if i < |rest| {
          assert Carries(rest[i], tag);
        }
      }
    }
  }

  /** Two documents with the same skeleton have managed inbounds under the same tags. */
  lemma SkeletonKeepsTags(a: Json, b: Json)
    requires HasInbounds(a) && HasInbounds(b)
    requires Parse(a).value.skeleton == Parse(b).value.skeleton
    ensures Parse(a).value.clients.Keys == Parse(b).value.clients.Keys
  {
    var x, y := InboundsOf(a), InboundsOf(b);
    assert EmptyAll(x) == EmptyAll(y) by {
      assert InboundsOf(Parse(a).value.skeleton) == EmptyAll(x);
      assert InboundsOf(Parse(b).value.skeleton) == EmptyAll(y);
    }
    forall tag
      ensures tag in ClientMaps(x) <==> tag in ClientMaps(y)
    {
      SameTag(x, y, tag);
      SameTag(y, x, tag);
    }
  }

  lemma SameTag(x: seq<Json>, y: seq<Json>, tag: string)
    requires EmptyAll(x) == EmptyAll(y)
    ensures tag in ClientMaps(x) ==> tag in ClientMaps(y)
  {
    TagsPresent(x, tag);
    TagsPresent(y, tag);
    if tag in ClientMaps(x) {
      var i :| 0 <= i < |x| && Carries(x[i], tag);
      assert Emptied(x[i]) == EmptyAll(x)[i] == EmptyAll(y)[i] == Emptied(y[i]);
      EmptiedSame(x[i]);
      EmptiedSame(y[i]);
      assert Carries(y[i], tag);
    }
  }
}
