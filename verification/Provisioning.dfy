/**
 End to end: from the users table to what a node's Xray serves, through the
 active filter, the built configuration, TLS stripping, the client split and the
 agent's apply (internal/panel/config.go, internal/panel/models.go).
 */
module Provisioning {
  import opened Wrappers
  import opened Json
  import opened StoreSpec
  import opened Signature
  import opened NodeConf
  import opened ClientSplit
  import opened Skeleton
  import opened ApplyProtocol
  import opened Agent

  function Rows(users: map<int, User>, ids: seq<int>): seq<User>
    requires forall i :: 0 <= i < |ids| ==> ids[i] in users
  {
    seq(|ids|, i requires 0 <= i < |ids| => users[ids[i]])
  }

  /** Their rows. */
  function UsersFor(db: Tables, node: int): seq<User> {
    Rows(db.users, UserIdsFor(db, node))
  }

  /** The store only holds validated, unique usernames and generated identifiers. */
  ghost predicate ValidUsers(users: map<int, User>) {
    && (forall u :: u in users ==> ValidUsername(users[u].username) && UuidText(users[u].uuid))
    && (forall u, v :: u in users && v in users && u != v ==> users[u].username != users[v].username)
  }

  lemma UsersUnique(db: Tables, node: int)
    requires ValidUsers(db.users)
    ensures UniqueNames(UsersFor(db, node))
    ensures forall i :: 0 <= i < |UsersFor(db, node)| ==>
              ValidUsername(UsersFor(db, node)[i].username) && UuidText(UsersFor(db, node)[i].uuid)
  {
  }

  /** The rows listed for a node are the assigned ones. */
  lemma UsersForAre(db: Tables, node: int, row: User)
    ensures row in UsersFor(db, node) <==> exists u :: u in db.users && (u, node) in db.userNodes && db.users[u] == row
  {
    var ids := UserIdsFor(db, node);
    var rows := UsersFor(db, node);
    if row in rows {
      var i :| 0 <= i < |rows| && rows[i] == row;
      assert ids[i] in db.users && (ids[i], node) in db.userNodes && db.users[ids[i]] == row;
    }
    if u :| u in db.users && (u, node) in db.userNodes && db.users[u] == row {
      assert u in ids;
      var i :| 0 <= i < |ids| && ids[i] == u;
      assert rows[i] == row;
    }
  }

  ghost predicate UniqueNames(users: seq<User>) {
    forall i, j :: 0 <= i < j < |users| ==> users[i].username != users[j].username
  }

  lemma {:induction false} ActiveFrom(users: seq<User>, now: int, c: Client)
    ensures c in ActiveClients(users, now) <==>
            exists i :: 0 <= i < |users| && users[i].Active(now) && c == Client(users[i].username, users[i].uuid)
  {
    if users != [] {
      var rest, last := users[..|users| - 1], users[|users| - 1];
      ActiveFrom(rest, now, c);
      assert c in ActiveClients(users, now) <==> c in ActiveClients(rest, now) || c in ActiveClient(last, now);
      if c in ActiveClients(rest, now) {
        var i :| 0 <= i < |rest| && rest[i].Active(now) && c == Client(rest[i].username, rest[i].uuid);
        assert users[i] == rest[i];
      }
      if exists i :: 0 <= i < |users| && users[i].Active(now) && c == Client(users[i].username, users[i].uuid) {
        var i :| 0 <= i < |users| && users[i].Active(now) && c == Client(users[i].username, users[i].uuid);
        if i < |rest| {
          assert rest[i] == users[i];
        }
      }
    }
  }

  lemma {:induction false} ActiveDistinct(users: seq<User>, now: int)
    requires UniqueNames(users)
    ensures Distinct(ActiveClients(users, now))
  {
    if users != [] {
      var rest, last := users[..|users| - 1], users[|users| - 1];
      var cs := ActiveClients(rest, now);
      ActiveDistinct(rest, now);
      forall i | 0 <= i < |cs|
        ensures cs[i].email != last.username
      {
        ActiveFrom(rest, now, cs[i]);
        assert cs[i] in cs;
        var k :| 0 <= k < |rest| && cs[i] == Client(rest[k].username, rest[k].uuid);
        assert users[k] == rest[k];
      }
    }
  }

  /** The tags of a configuration: REALITY always, TLS only with a domain and a certificate. */
  function TagsServed(p: Settings, certMissing: bool): set<string> {
    if ServesTls(p, certMissing) then {TAG_TLS, TAG_REALITY} else {TAG_REALITY}
  }

  /** The two inbounds under the tags Xray knows them by. */
  lemma TagsServedAre(p: Settings, certMissing: bool)
    ensures TagsServed(p, certMissing) ==
            if p.tlsDomain != "" && !certMissing then {"vless-xtls-vision", "vless-reality-vision"}
            else {"vless-reality-vision"}
  {
  }

  /** `served` holds exactly the users of the list that are enabled, unexpired and under quota, under their uuids. */
  ghost predicate ServesExactly(served: map<string, string>, users: seq<User>, now: int) {
    && (forall i :: 0 <= i < |users| ==>
          && (users[i].username in served <==>
                && users[i].enabled
                && (users[i].expireAt <= 0 || now < users[i].expireAt)
                && (users[i].dataLimit <= 0 || users[i].dataUsed < users[i].dataLimit))
          && (users[i].username in served ==> served[users[i].username] == users[i].uuid))
    && (forall e :: e in served ==> exists i :: 0 <= i < |users| && users[i].username == e)
  }

  lemma UuidsServe(users: seq<User>, now: int)
    requires UniqueNames(users) && forall i :: 0 <= i < |users| ==> users[i].username != ""
    ensures ServesExactly(Uuids(ActiveClients(users, now)), users, now)
  {
    var cs := ActiveClients(users, now);
    ActiveDistinct(users, now);
    forall c | c in cs
      ensures c.email != ""
    {
      ActiveFrom(users, now, c);
    }
    UuidsExact(cs);
    forall i | 0 <= i < |users| && users[i].Active(now)
      ensures users[i].username in Uuids(cs) && Uuids(cs)[users[i].username] == users[i].uuid
    {
      var c := Client(users[i].username, users[i].uuid);
      ActiveFrom(users, now, c);
      assert c in cs;
    }
    forall e | e in Uuids(cs)
      ensures exists i :: 0 <= i < |users| && users[i].Active(now) && users[i].username == e
    {
      var k :| 0 <= k < |cs| && cs[k].email == e;
      ActiveFrom(users, now, cs[k]);
      assert cs[k] in cs;
      var i :| 0 <= i < |users| && users[i].Active(now) && cs[k] == Client(users[i].username, users[i].uuid);
    }
  }

  /** What Xray serves once it runs a pushed configuration. */
  ghost predicate NodeServes(x: Xray, p: Settings, users: seq<User>, now: int, certMissing: bool) {
    && x.Running?
    && x.clients.Keys == TagsServed(p, certMissing)
    && forall t :: t in x.clients ==> ServesExactly(x.clients[t], users, now)
  }

  /** Loading a pushed configuration serves, on every VLESS inbound present, exactly the active users. */
  lemma LoadServes(p: Settings, users: seq<User>, now: int, certMissing: bool)
    requires UniqueNames(users) && forall i :: 0 <= i < |users| ==> users[i].username != ""
    ensures HasInbounds(Effective(p, ActiveClients(users, now), certMissing))
    ensures NodeServes(Load(Doc(Effective(p, ActiveClients(users, now), certMissing))), p, users, now, certMissing)
  {
    hide Effective, ServesExactly, ActiveClients, Uuids;
    var cs := ActiveClients(users, now);
    ParseRecovers(p, cs, certMissing);
    UuidsServe(users, now);
    LoadParsed(Effective(p, cs, certMissing));
  }

  /** The panel's side: filter the active users, then build. */
  method BuildXrayConfig(p: Settings, users: seq<User>, now: int) returns (doc: Json)
    ensures doc == Config(p, ActiveClients(users, now))
  {
    var clients: seq<Client> := [];
    for i := 0 to |users|
      invariant clients == ActiveClients(users[..i], now)
    {
      assert users[..i + 1][..i] == users[..i];
      if !users[i].Active(now) {
        continue;
      }
      clients := clients + [Client(users[i].username, users[i].uuid)];
    }
    assert users[..|users|] == users;
    doc := Build(p, clients);
  }

  /**
   Of the users the tables assign to the node, `served` holds exactly those that are
   enabled, unexpired and under quota, under their current uuids, and nobody else.
   */
  ghost predicate AssignedExactly(served: map<string, string>, db: Tables, node: int, now: int) {
    && (forall u :: u in db.users && (u, node) in db.userNodes ==>
          && (db.users[u].username in served <==>
                && db.users[u].enabled
                && (db.users[u].expireAt <= 0 || now < db.users[u].expireAt)
                && (db.users[u].dataLimit <= 0 || db.users[u].dataUsed < db.users[u].dataLimit))
          && (db.users[u].username in served ==> served[db.users[u].username] == db.users[u].uuid))
    && (forall e :: e in served ==>
          exists u :: u in db.users && (u, node) in db.userNodes && db.users[u].username == e)
  }

  /** Xray serves the node's assigned, active users on every VLESS inbound its settings call for. */
  ghost predicate ServesAssigned(x: Xray, db: Tables, node: int, now: int, certMissing: bool)
    requires node in db.nodes
  {
    && x.Running?
    && x.clients.Keys == TagsServed(db.nodes[node].settings, certMissing)
    && forall t :: t in x.clients ==> AssignedExactly(x.clients[t], db, node, now)
  }

  lemma RowServed(served: map<string, string>, db: Tables, node: int, now: int, u: int)
    requires ServesExactly(served, UsersFor(db, node), now) && u in db.users && (u, node) in db.userNodes
    ensures db.users[u].username in served <==> db.users[u].Active(now)
    ensures db.users[u].username in served ==> served[db.users[u].username] == db.users[u].uuid
  {
    var rows := UsersFor(db, node);
    UsersForAre(db, node, db.users[u]);
    var i :| 0 <= i < |rows| && rows[i] == db.users[u];
  }

  lemma ListedIsAssigned(served: map<string, string>, db: Tables, node: int, now: int)
    requires ServesExactly(served, UsersFor(db, node), now)
    ensures AssignedExactly(served, db, node, now)
  {
    hide ServesExactly, UsersFor;
    forall u | u in db.users && (u, node) in db.userNodes
      ensures db.users[u].username in served <==> db.users[u].Active(now)
      ensures db.users[u].username in served ==> served[db.users[u].username] == db.users[u].uuid
    {
      RowServed(served, db, node, now, u);
    }
    forall e | e in served
      ensures exists u :: u in db.users && (u, node) in db.userNodes && db.users[u].username == e
    {
      NameAssigned(served, db, node, now, e);
    }
  }

  lemma NameAssigned(served: map<string, string>, db: Tables, node: int, now: int, e: string)
    requires ServesExactly(served, UsersFor(db, node), now) && e in served
    ensures exists u :: u in db.users && (u, node) in db.userNodes && db.users[u].username == e
  {
    var rows := UsersFor(db, node);
    var i :| 0 <= i < |rows| && rows[i].username == e;
    UsersForAre(db, node, rows[i]);
    var u :| u in db.users && (u, node) in db.userNodes && db.users[u] == rows[i];
  }

  /** Loading what the panel builds for a node from its tables serves exactly its assigned, active users. */
  lemma LoadServesAssigned(db: Tables, node: int, now: int, certMissing: bool)
    requires ValidUsers(db.users) && node in db.nodes
    ensures var doc := Effective(db.nodes[node].settings, ActiveClients(UsersFor(db, node), now), certMissing);
            HasInbounds(doc) && ServesAssigned(Load(Doc(doc)), db, node, now, certMissing)
  {
    hide Effective, ServesExactly, AssignedExactly, ActiveClients, UsersFor, Load;
    var p, users := db.nodes[node].settings, UsersFor(db, node);
    UsersUnique(db, node);
    LoadServes(p, users, now, certMissing);
    var x := Load(Doc(Effective(p, ActiveClients(users, now), certMissing)));
    forall t | t in x.clients
      ensures AssignedExactly(x.clients[t], db, node, now)
    {
      ListedIsAssigned(x.clients[t], db, node, now);
    }
  }

  /**
   A delivered push that the agent applies, live or by a restart, leaves the node
   serving exactly the users that the tables assign to it and that are enabled,
   unexpired and under quota, with their current uuids; and the agent ready for
   the next live edit.
   */
  method PushAndApply(agent: NodeAgent, db: Tables, node: int, now: int, certMissing: bool) returns (ok: bool)
    requires agent.Valid() && ValidUsers(db.users) && node in db.nodes
    modifies agent
    ensures agent.Valid()
    ensures ok && old(agent.Describes()) ==>
              && agent.Live().Known? && agent.Describes()
              && ServesAssigned(agent.xray, db, node, now, certMissing)
  {
    var p, users := db.nodes[node].settings, UsersFor(db, node);
    var doc := BuildXrayConfig(p, users, now);
    UsersUnique(db, node);
    LoadServes(p, users, now, certMissing);
    LoadServesAssigned(db, node, now, certMissing);
    EffectiveIs(p, ActiveClients(users, now), certMissing);
    assert HasInbounds(doc);
    ok := agent.ApplyConfig(Some(doc), certMissing);
  }

  /** So a push with the same settings changes users only, whoever they are: it is applied live. */
  lemma SameSettingsUsersOnly(p: Settings, cs: seq<Client>, ds: seq<Client>, certMissing: bool)
    ensures HasInbounds(Effective(p, cs, certMissing))
    ensures UsersOnly(Some(Config(p, ds)), certMissing, Some(Parse(Effective(p, cs, certMissing)).value.skeleton))
  {
    SkeletonSound(p, cs, certMissing, p, ds, certMissing);
  }

  /** A node's settings that differ from another's in the REALITY destination only. */
  function SettingsTo(dest: string): Settings {
    Settings(dest, "sni", "key", "00", "")
  }

  /** The deceiving run is one of configurations the panel builds: two edits of a node's destination, two crashes. */
  lemma BuiltConfigsDeceive(file: File, xray: Xray)
    ensures var a, b := Effective(SettingsTo("a:443"), [], false), Effective(SettingsTo("b:443"), [], false);
            var s := ApplyProtocol.Run(Start(file, xray), TwoCrashes(a, b));
            s.phase.Idle? && s.mem == Update(a) && s.xray == Load(Doc(b)) && !Trusted(s)
  {
    var p, q := SettingsTo("a:443"), SettingsTo("b:443");
    assert "a:443"[0] != "b:443"[0];
    SkeletonSound(p, [], false, q, [], false);
    TwoCrashesDeceive(file, xray, Effective(p, [], false), Effective(q, [], false));
  }
}
