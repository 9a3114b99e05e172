/**
 The panel's store as the object the source updates in place, one method per
 transaction, and the batch ingestion that drives it.
 */
module Panel {
  import opened Traffic
  import opened StoreSpec
  import L = Ledgers
  import IngestSpec

  ghost function Pairs(user: int, nodeIds: seq<int>): set<(int, int)> {
    set n | n in nodeIds :: (user, n)
  }

  /** One cell of a ledger has gained these bytes, and no other cell has changed. */
  ghost predicate Raised(before: Ledger, after: Ledger, cell: (int, int), b: Bytes) {
    && (forall c :: c in after <==> c in before || c == cell)
    && (forall c :: c in before && c != cell ==> after[c] == before[c])
    && after[cell] == if cell in before then Bytes(before[cell].up + b.up, before[cell].down + b.down) else b
  }

  /** One user's usage has grown by `n`, and nothing else in any row has changed. */
  ghost predicate Charged(before: map<int, User>, after: map<int, User>, user: int, n: int) {
    && after.Keys == before.Keys
    && (forall u :: u in before && u != user ==> after[u] == before[u])
    && (user in before ==> after[user] == before[user].(dataUsed := before[user].dataUsed + n))
  }

  lemma AddToRaises(m: Ledger, c: (int, int), b: Bytes)
    ensures Raised(m, AddTo(m, c, b), c, b)
  {
  }

  class Store {
    var users: map<int, User>
    var nodes: map<int, Node>
    var userNodes: set<(int, int)>
    var nodeTraffic: Ledger
    var trafficDaily: Ledger
    var nodeDaily: Ledger
    var devices: set<(int, int, string)>
    var nextUser: int
    var nextNode: int

    function View(): Tables
      reads this
    {
      Tables(users, nodes, userNodes, nodeTraffic, trafficDaily, nodeDaily, devices, nextUser, nextNode)
    }

    constructor ()
      ensures View() == Tables(map[], map[], {}, map[], map[], map[], {}, 1, 1)
    {
      users, nodes, userNodes := map[], map[], {};
      nodeTraffic, trafficDaily, nodeDaily, devices := map[], map[], map[], {};
      nextUser, nextNode := 1, 1;
    }

    /** Charges the user, and adds to the cells of the node and of the UTC day that `now` falls on. */
    method AddTraffic(user: int, node: int, up: int, down: int, now: int) returns (ghost day: int)
      modifies this`users, this`nodeTraffic, this`trafficDaily, this`nodeDaily
      ensures View() == StoreSpec.AddTraffic(old(View()), user, node, Bytes(up, down), now)
      ensures user < nextUser ==> View() == L.Apply(old(View()), L.Add(user, node, Bytes(up, down), now))
      ensures day * 86400 <= now < (day + 1) * 86400
      ensures Charged(old(users), users, user, up + down)
      ensures Raised(old(nodeTraffic), nodeTraffic, (user, node), Bytes(up, down))
      ensures Raised(old(trafficDaily), trafficDaily, (user, day), Bytes(up, down))
      ensures Raised(old(nodeDaily), nodeDaily, (node, day), Bytes(up, down))
    {
      var b := Bytes(up, down);
      day := DayOf(now);
      DayHolds(now, day);
      AddToRaises(nodeTraffic, (user, node), b);
      AddToRaises(trafficDaily, (user, day), b);
      AddToRaises(nodeDaily, (node, day), b);
      hide Raised, Charged, AddTo, DayOf, Charge;
      ChargeUser(user, up + down);
      nodeTraffic := AddTo(nodeTraffic, (user, node), b);
      trafficDaily := AddTo(trafficDaily, (user, DayOf(now)), b);
      nodeDaily := AddTo(nodeDaily, (node, DayOf(now)), b);
    }

    method ChargeUser(user: int, n: int)
      modifies this`users
      ensures users == Charge(old(users), user, n) && Charged(old(users), users, user, n)
    {
      if user in users {
        users := users[user := users[user].(dataUsed := users[user].dataUsed + n)];
      }
    }

    method ResetUserTraffic(user: int)
      modifies this`users, this`nodeTraffic
      ensures View() == StoreSpec.ResetUserTraffic(old(View()), user)
      ensures View() == L.Apply(old(View()), L.Reset(user))
      ensures users.Keys == old(users).Keys && forall u :: u in users ==>
                users[u] == if u == user then old(users)[u].(dataUsed := 0) else old(users)[u]
      ensures forall c :: c in nodeTraffic <==> c in old(nodeTraffic) && c.0 != user
      ensures forall c :: c in nodeTraffic ==> nodeTraffic[c] == old(nodeTraffic)[c]
    {
      if user in users {
        users := users[user := users[user].(dataUsed := 0)];
      }
      nodeTraffic := map c | c in nodeTraffic && c.0 != user :: nodeTraffic[c];
    }

    method UpdateUser(user: int, row: User)
      modifies this`users
      ensures View() == StoreSpec.UpdateUser(old(View()), user, row)
      ensures View() == L.Apply(old(View()), L.Update(user, row))
      ensures users.Keys == old(users).Keys && forall u :: u in users && u != user ==> users[u] == old(users)[u]
      ensures user in users ==>
                var w, was := users[user], old(users)[user];
                && w.dataLimit == row.dataLimit && w.expireAt == row.expireAt && w.enabled == row.enabled
                && w.resetDay == row.resetDay && w.note == row.note
                && w.username == was.username && w.uuid == was.uuid && w.subToken == was.subToken
                && w.dataUsed == was.dataUsed && w.lastReset == was.lastReset && w.sessionEpoch == was.sessionEpoch
    {
      if user in users {
        var cur := users[user];
        users := users[user := cur.(dataLimit := row.dataLimit, expireAt := row.expireAt, enabled := row.enabled,
                                    resetDay := row.resetDay, note := row.note)];
      }
    }

    method SetUserLastReset(user: int, ts: int)
      modifies this`users
      ensures View() == SetLastReset(old(View()), user, ts)
      ensures View() == L.Apply(old(View()), L.Stamp(user, ts))
      ensures users.Keys == old(users).Keys && forall u :: u in users ==>
                users[u] == if u == user then old(users)[u].(lastReset := ts) else old(users)[u]
    {
      if user in users {
        users := users[user := users[user].(lastReset := ts)];
      }
    }

    method DeleteUser(user: int)
      modifies this`users, this`userNodes, this`nodeTraffic, this`devices
      ensures View() == StoreSpec.DeleteUser(old(View()), user)
      ensures View() == L.Apply(old(View()), L.RemoveUser(user))
      ensures users.Keys == old(users).Keys - {user} && forall u :: u in users ==> users[u] == old(users)[u]
      ensures forall c :: c in userNodes <==> c in old(userNodes) && c.0 != user
      ensures forall c :: c in nodeTraffic <==> c in old(nodeTraffic) && c.0 != user
      ensures forall c :: c in nodeTraffic ==> nodeTraffic[c] == old(nodeTraffic)[c]
      ensures forall c :: c in devices <==> c in old(devices) && c.0 != user
    {
      userNodes := set p | p in userNodes && p.0 != user;
      nodeTraffic := map c | c in nodeTraffic && c.0 != user :: nodeTraffic[c];
      devices := set c | c in devices && c.0 != user;
      users := users - {user};
    }

    method DeleteNode(node: int)
      modifies this`nodes, this`userNodes, this`nodeTraffic, this`nodeDaily, this`devices
      ensures View() == StoreSpec.DeleteNode(old(View()), node)
      ensures View() == L.Apply(old(View()), L.RemoveNode(node))
      ensures nodes.Keys == old(nodes).Keys - {node} && forall n :: n in nodes ==> nodes[n] == old(nodes)[n]
      ensures forall c :: c in userNodes <==> c in old(userNodes) && c.1 != node
      ensures forall c :: c in nodeTraffic <==> c in old(nodeTraffic) && c.1 != node
      ensures forall c :: c in nodeTraffic ==> nodeTraffic[c] == old(nodeTraffic)[c]
      ensures forall c :: c in nodeDaily <==> c in old(nodeDaily) && c.0 != node
      ensures forall c :: c in nodeDaily ==> nodeDaily[c] == old(nodeDaily)[c]
      ensures forall c :: c in devices <==> c in old(devices) && c.1 != node
    {
      userNodes := set p | p in userNodes && p.1 != node;
      nodeTraffic := map c | c in nodeTraffic && c.1 != node :: nodeTraffic[c];
      nodeDaily := map c | c in nodeDaily && c.0 != node :: nodeDaily[c];
      devices := set c | c in devices && c.1 != node;
      nodes := nodes - {node};
    }

    method SetUserNodes(user: int, nodeIds: seq<int>)
      modifies this`userNodes
      ensures View() == StoreSpec.SetUserNodes(old(View()), user, set n | n in nodeIds)
      ensures View() == L.Apply(old(View()), L.Assign(user, set n | n in nodeIds))
      ensures forall u, n :: (u, n) in userNodes <==> if u == user then n in nodeIds else (u, n) in old(userNodes)
    {
      userNodes := set p | p in userNodes && p.0 != user;
      ghost var kept := userNodes;
      for i := 0 to |nodeIds|
        invariant View() == old(View()).(userNodes := userNodes)
        invariant userNodes == kept + Pairs(user, nodeIds[..i])
      {
        userNodes := userNodes + {(user, nodeIds[i])};
        assert nodeIds[..i + 1] == nodeIds[..i] + [nodeIds[i]];
        assert forall n :: n in nodeIds[..i + 1] <==> n in nodeIds[..i] || n == nodeIds[i];
        assert Pairs(user, nodeIds[..i + 1]) == Pairs(user, nodeIds[..i]) + {(user, nodeIds[i])};
      }
      assert nodeIds[..|nodeIds|] == nodeIds;
      assert Pairs(user, nodeIds) == set n | n in (set n | n in nodeIds) :: (user, n);
    }

    method CreateUser(row: User) returns (id: int, ok: bool)
      modifies this`users, this`nextUser
      ensures View() == StoreSpec.CreateUser(old(View()), row)
      ensures View() == L.Apply(old(View()), L.NewUser(row))
      ensures ok <==> forall u :: u in old(users) ==>
                        old(users)[u].username != row.username && old(users)[u].subToken != row.subToken
      ensures !ok ==> users == old(users) && nextUser == old(nextUser)
      ensures ok ==>
                && id == old(nextUser) && nextUser == id + 1 && users.Keys == old(users).Keys + {id}
                && users[id] == User(row.username, row.uuid, row.subToken, row.dataLimit, 0, row.expireAt,
                                     row.enabled, row.resetDay, 0, 0, row.note)
                && forall u :: u in old(users) && u != id ==> users[u] == old(users)[u]
    {
      if exists u :: u in users && (users[u].username == row.username || users[u].subToken == row.subToken) {
        return 0, false;
      }
      id, ok := nextUser, true;
      users := users[id := row.(dataUsed := 0, lastReset := 0, sessionEpoch := 0)];
      nextUser := nextUser + 1;
    }

    /** A new node has applied no batch yet. */
    method CreateNode(settings: Settings) returns (id: int)
      modifies this`nodes, this`nextNode
      ensures View() == StoreSpec.CreateNode(old(View()), settings)
      ensures View() == L.Apply(old(View()), L.NewNode(settings))
      ensures id == old(nextNode) && nextNode == id + 1 && nodes.Keys == old(nodes).Keys + {id}
      ensures nodes[id] == Node(settings, 0) && forall n :: n in old(nodes) && n != id ==> nodes[n] == old(nodes)[n]
    {
      id := nextNode;
      nodes := nodes[id := Node(settings, 0)];
      nextNode := nextNode + 1;
    }

    method SetUserUuid(user: int, uuid: string)
      modifies this`users
      ensures View() == SetUuid(old(View()), user, uuid)
      ensures View() == L.Apply(old(View()), L.Rekey(user, uuid))
      ensures users.Keys == old(users).Keys && forall u :: u in users ==>
                users[u] == if u == user then old(users)[u].(uuid := uuid) else old(users)[u]
    {
      if user in users {
        users := users[user := users[user].(uuid := uuid)];
      }
    }

    method BumpUserSessionEpoch(user: int)
      modifies this`users
      ensures View() == BumpEpoch(old(View()), user)
      ensures View() == L.Apply(old(View()), L.Bump(user))
      ensures users.Keys == old(users).Keys && forall u :: u in users ==>
                users[u] ==
                  if u == user then old(users)[u].(sessionEpoch := old(users)[u].sessionEpoch + 1) else old(users)[u]
    {
      if user in users {
        users := users[user := users[user].(sessionEpoch := users[user].sessionEpoch + 1)];
      }
    }

    method UpsertDevice(user: int, node: int, ip: string)
      modifies this`devices
      ensures View() == SeeDevice(old(View()), user, node, ip)
      ensures View() == L.Apply(old(View()), L.Seen(user, node, ip))
      ensures forall v :: v in devices <==> v in old(devices) || v == (user, node, ip)
    {
      devices := devices + {(user, node, ip)};
    }

    method SetNodeTrafficSeq(node: int, seqNo: int)
      modifies this`nodes
      ensures nodes.Keys == old(nodes).Keys && forall n :: n in nodes ==>
                nodes[n] == if n == node then old(nodes)[n].(trafficSeq := seqNo) else old(nodes)[n]
    {
      if node in nodes {
        nodes := nodes[node := nodes[node].(trafficSeq := seqNo)];
      }
    }
  }

  /** The email-to-identifier index of a node's users, built row by row. */
  method AllowedUsers(store: Store, node: int) returns (allowed: map<string, int>)
    requires WellFormed(store.View())
    ensures allowed == IngestSpec.Allowed(store.View(), node)
  {
    var ids := UserIdsFor(store.View(), node);
    allowed := map[];
    for i := 0 to |ids|
      invariant forall e :: e in allowed ==> allowed[e] in ids && store.users[allowed[e]].username == e
      invariant forall k :: 0 <= k < i ==> store.users[ids[k]].username in allowed
    {
      allowed := allowed[store.users[ids[i]].username := ids[i]];
    }
    forall u | u in store.users && (u, node) in store.userNodes
      ensures store.users[u].username in allowed
    {
      assert u in ids;
      var k :| 0 <= k < |ids| && ids[k] == u;
    }
    AllowedUnique(store.View(), node, allowed);
  }

  /** An index that maps names to the users bearing them, and misses none, is the only such index. */
  lemma AllowedUnique(t: Tables, node: int, m: map<string, int>)
    requires WellFormed(t)
    requires forall e :: e in m ==> m[e] in t.users && (m[e], node) in t.userNodes && t.users[m[e]].username == e
    requires forall u :: u in t.users && (u, node) in t.userNodes ==> t.users[u].username in m
    ensures m == IngestSpec.Allowed(t, node)
  {
    var a := IngestSpec.Allowed(t, node);
    forall e
      ensures (e in m <==> e in a) && (e in m ==> m[e] == a[e])
    {
      if e in m {
        IngestSpec.AllowedIs(t, node, Item(e, Bytes(0, 0)), m[e]);
      }
      if e in a {
        IngestSpec.AllowedIs(t, node, Item(e, Bytes(0, 0)), a[e]);
      }
    }
  }

  /** Applies one reported batch, as one atomic step of the panel. */
  method IngestTraffic(store: Store, node: int, seqNo: int, items: seq<Item>, now: int)
    requires WellFormed(store.View())
    modifies store
    ensures store.View() == IngestSpec.Ingest(old(store.View()), node, seqNo, items, now)
  {
    if node !in store.nodes {
      return;
    }
    if seqNo != 0 && seqNo == store.nodes[node].trafficSeq {
      return;
    }
    var allowed := AllowedUsers(store, node);
    ghost var was := store.View();
    for i := 0 to |items|
      invariant store.View() == IngestSpec.CreditAll(was, node, allowed, items[..i], now)
    {
      var it := items[i];
      assert items[..i + 1][..i] == items[..i];
      if it.bytes.up == 0 && it.bytes.down == 0 {
        continue;
      }
      if it.email !in allowed {
        continue;
      }
      ghost var day := store.AddTraffic(allowed[it.email], node, it.bytes.up, it.bytes.down, now);
    }
    assert items[..|items|] == items;
    IngestSpec.CreditAllMoves(was, node, items, now, 0);
    if seqNo != 0 {
      store.SetNodeTrafficSeq(node, seqNo);
    }
  }
}
